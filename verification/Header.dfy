/** The 256-byte header: magic, version, and for each section a byte offset and a count as
    little-endian words. `Index::open` reads it and checks every section against the file. */
module Header {
  import opened Bytes
  import opened Layout

  /** `S2DBv2`, two zero bytes. */
  const Magic: seq<byte> := [83, 50, 68, 66, 118, 50, 0, 0]
  const Version: nat := 6
  const MinVersion: nat := 6

  /** Where a section's words sit in the header: xrefs, syms, names, files, inh, calls, crev,
      blob, typed, childrev, inhrev, sig and the trigram sections, by their place in the file. */
  const SlotOf: seq<nat> := [0, 1, 2, 3, 4, 10, 5, 6, 8, 9, 11, 7, 12, 13]
  const SectionAt: seq<nat> := [0, 1, 2, 3, 4, 6, 7, 11, 8, 9, 5, 10, 12, 13]

  datatype Opened = Opened(places: seq<Place>) | TooSmall | BadMagic | BadVersion | Outside

  // ---------------------------------------------------------------- fields

  function WordAt(file: seq<byte>, at: nat): nat
    requires at + 8 <= |file|
  {
    FromLittle(file[at..at + 8])
  }

  function PlaceAt(file: seq<byte>, slot: nat, stride: nat): Place
    requires |file| >= HeaderLen && slot < 14
  {
    Place(WordAt(file, 16 + 16 * slot), WordAt(file, 16 + 16 * slot + 8), stride)
  }

  ghost predicate Known(file: seq<byte>)
  {
    |file| >= HeaderLen && file[..8] == Magic && MinVersion <= FromLittle(file[8..12]) <= Version
  }

  /** The sections the header names, in file order. */
  function PlacesOf(file: seq<byte>): (r: seq<Place>)
    requires |file| >= HeaderLen
    ensures |r| == 14 && forall i :: 0 <= i < 14 ==> r[i] == PlaceAt(file, SlotOf[i], Strides[i])
  {
    seq(14, i requires 0 <= i < 14 => PlaceAt(file, SlotOf[i], Strides[i]))
  }

  /** The header names these sections. */
  ghost predicate Names(file: seq<byte>, ps: seq<Place>)
  {
    |file| >= HeaderLen && ps == PlacesOf(file)
  }

  ghost predicate AllInside(ps: seq<Place>, fileLen: nat)
  {
    forall i | 0 <= i < |ps| :: InFile(ps[i], fileLen)
  }

  ghost predicate Wordable(ps: seq<Place>)
  {
    |ps| == 14 && forall i | 0 <= i < 14 :: ps[i].off < U64 && ps[i].n < U64 && ps[i].stride == Strides[i]
  }

  /** The first `k` sections in header order. */
  ghost predicate Filled(bytes: seq<byte>, ps: seq<Place>, k: nat)
    requires |ps| == 14
  {
    && k <= 14 && |bytes| == 16 + 16 * k
    && bytes[..8] == Magic && FromLittle(bytes[8..12]) == Version
    && forall j | 0 <= j < k ::
         WordAt(bytes, 16 + 16 * j) == ps[SectionAt[j]].off && WordAt(bytes, 16 + 16 * j + 8) == ps[SectionAt[j]].n
  }

  lemma WordKept(bytes: seq<byte>, more: seq<byte>, at: nat)
    requires at + 8 <= |bytes|
    ensures WordAt(bytes + more, at) == WordAt(bytes, at)
  {
    assert (bytes + more)[at..at + 8] == bytes[at..at + 8];
  }

  lemma FilledMore(bytes: seq<byte>, ps: seq<Place>, k: nat)
    requires |ps| == 14 && Wordable(ps) && Filled(bytes, ps, k) && k < 14
    requires ps[SectionAt[k]].off < Pow256(8) && ps[SectionAt[k]].n < Pow256(8)
    ensures Filled(bytes + Little(8, ps[SectionAt[k]].off) + Little(8, ps[SectionAt[k]].n), ps, k + 1)
  {
    hide Little, FromLittle, Wordable, Pow256;
    var off, n := ps[SectionAt[k]].off, ps[SectionAt[k]].n;
    var more := Little(8, off) + Little(8, n);
    var now := bytes + Little(8, off) + Little(8, n);
    assert now == bytes + more;
    LittleRoundTrip(8, off);
    LittleRoundTrip(8, n);
    assert now[16 + 16 * k..16 + 16 * k + 8] == Little(8, off);
    assert now[16 + 16 * k + 8..16 + 16 * k + 16] == Little(8, n);
    assert now[..8] == bytes[..8] && now[8..12] == bytes[8..12];
    forall j | 0 <= j < k
      ensures WordAt(now, 16 + 16 * j) == WordAt(bytes, 16 + 16 * j) && WordAt(now, 16 + 16 * j + 8) == WordAt(bytes, 16 + 16 * j + 8)
    {
      WordKept(bytes, more, 16 + 16 * j);
      WordKept(bytes, more, 16 + 16 * j + 8);
    }
  }

  lemma FilledNames(bytes: seq<byte>, ps: seq<Place>)
    requires Wordable(ps) && Filled(bytes, ps, 14)
    ensures Known(bytes + Zeros(16)) && Names(bytes + Zeros(16), ps)
  {
    var file := bytes + Zeros(16);
    assert file[..8] == bytes[..8] && file[8..12] == bytes[8..12];
    forall i | 0 <= i < 14 ensures ps[i] == PlaceAt(file, SlotOf[i], Strides[i]) {
      assert SectionAt[SlotOf[i]] == i;
      WordKept(bytes, Zeros(16), 16 + 16 * SlotOf[i]);
      WordKept(bytes, Zeros(16), 16 + 16 * SlotOf[i] + 8);
    }
    assert ps == PlacesOf(file);
  }

  /** `write_header`. */
  method Write(ps: seq<Place>) returns (header: seq<byte>)
    requires Wordable(ps)
    ensures |header| == HeaderLen && Known(header) && Names(header, ps)
  {
    PowValues();
    hide Filled, Pow256;
    header := Magic + Little(4, Version) + Zeros(4);
    StartFilled(header, ps);
    for k := 0 to 14
      invariant Filled(header, ps, k)
    {
      SectionInside(ps, k);
      FilledMore(header, ps, k);
      header := header + Little(8, ps[SectionAt[k]].off) + Little(8, ps[SectionAt[k]].n);
    }
    FilledLength(header, ps);
    FilledNames(header, ps);
    header := header + Zeros(16);
  }

  lemma SectionInside(ps: seq<Place>, k: nat)
    requires Wordable(ps) && k < 14
    ensures SectionAt[k] < 14 && ps[SectionAt[k]].off < U64 && ps[SectionAt[k]].n < U64
  {
  }

  lemma FilledLength(bytes: seq<byte>, ps: seq<Place>)
    requires |ps| == 14 && Filled(bytes, ps, 14)
    ensures |bytes| == 240
  {
  }

  lemma StartFilled(bytes: seq<byte>, ps: seq<Place>)
    requires |ps| == 14 && Version < Pow256(4) && bytes == Magic + Little(4, Version) + Zeros(4)
    ensures Filled(bytes, ps, 0)
  {
    hide FromLittle;
    LittleRoundTrip(4, Version);
    assert bytes[..8] == Magic && bytes[8..12] == Little(4, Version);
  }

  /** `Index::open`: the header as written, and every section inside the file. */
  method Open(file: seq<byte>) returns (r: Opened)
    ensures r == TooSmall <==> |file| < HeaderLen
    ensures r == BadMagic <==> |file| >= HeaderLen && file[..8] != Magic
    ensures r == BadVersion <==> |file| >= HeaderLen && file[..8] == Magic && !Known(file)
    ensures r.Opened? <==> Known(file) && AllInside(PlacesOf(file), |file|)
    ensures r.Opened? ==> Names(file, r.places)
  {
    hide InFile, FromLittle, PlaceAt;
    if |file| < HeaderLen { return TooSmall; }
    if file[..8] != Magic { return BadMagic; }
    var version := FromLittle(file[8..12]);
    if version < MinVersion || version > Version { return BadVersion; }
    var ps := PlacesOf(file);
    var checked := seq(14, i requires 0 <= i < 14 => ps[CheckOrder[i]]);
    var ok := OpenAccepts(checked, |file|);
    AllChecked(ps, checked, |file|);
    r := if ok then Opened(ps) else Outside;
  }

  /** The checking order goes through every section. */
  lemma AllChecked(ps: seq<Place>, checked: seq<Place>, fileLen: nat)
    requires |ps| == |checked| == 14 && forall i | 0 <= i < 14 :: checked[i] == ps[CheckOrder[i]]
    ensures (forall i :: 0 <= i < |checked| ==> InFile(checked[i], fileLen)) <==> AllInside(ps, fileLen)
  {
    hide InFile;
    assert CheckOrder[0] == 0 && CheckOrder[1] == 1 && CheckOrder[2] == 2 && CheckOrder[3] == 3 && CheckOrder[4] == 4
      && CheckOrder[9] == 5 && CheckOrder[5] == 6 && CheckOrder[6] == 7 && CheckOrder[7] == 8 && CheckOrder[8] == 9
      && CheckOrder[10] == 10 && CheckOrder[13] == 11 && CheckOrder[11] == 12 && CheckOrder[12] == 13;
    assert checked[0] == ps[0] && checked[9] == ps[5] && checked[13] == ps[11];
  }

  lemma NamesPrefix(header: seq<byte>, file: seq<byte>, ps: seq<Place>)
    requires |header| == HeaderLen && Known(header) && Names(header, ps) && header <= file
    ensures Known(file) && Names(file, ps)
  {
    assert file == header + file[|header|..];
    assert file[..8] == header[..8] && file[8..12] == header[8..12];
    forall i | 0 <= i < 14 ensures ps[i] == PlaceAt(file, SlotOf[i], Strides[i]) {
      assert SlotOf[i] < 14;
      WordKept(header, file[|header|..], 16 + 16 * SlotOf[i]);
      WordKept(header, file[|header|..], 16 + 16 * SlotOf[i] + 8);
    }
    assert ps == PlacesOf(file);
  }
}
