/** Sections of an index file: page-aligned offsets, the file that holds them, and the
    checks `open` makes. */
module Layout {
  import opened Bytes

  const Page: nat := 4096
  const HeaderLen: nat := 256

  /** A section's place in the header: where it starts, how many units, how wide each. */
  datatype Place = Place(off: nat, n: nat, stride: nat)

  function Size(p: Place): nat
  {
    p.n * p.stride
  }

  /** `pad_up`. */
  function PadUp(n: nat): (r: nat)
    ensures r % Page == 0 && n <= r < n + Page
  {
    (n + Page - 1) / Page * Page
  }

  /** The offsets the writer computes, section after section. */
  function Places(shapes: seq<(nat, nat)>, from: nat): (r: seq<Place>)
    ensures |r| == |shapes|
    decreases |shapes|
  {
    if shapes == [] then []
    else
      var p := Place(PadUp(from), shapes[0].0, shapes[0].1);
      [p] + Places(shapes[1..], p.off + Size(p))
  }

  /** Where the last section ends: the length the file is set to. */
  function Total(shapes: seq<(nat, nat)>, from: nat): (r: nat)
    decreases |shapes|
  {
    if shapes == [] then from
    else Total(shapes[1..], PadUp(from) + shapes[0].0 * shapes[0].1)
  }

  /** Aligned, past the start, in order and apart, all within the total. */
  ghost predicate WellPlaced(ps: seq<Place>, from: nat, total: nat)
  {
    && (forall i :: 0 <= i < |ps| ==> ps[i].off % Page == 0 && from <= ps[i].off && ps[i].off + Size(ps[i]) <= total)
    && (forall i, j :: 0 <= i < j < |ps| ==> ps[i].off + Size(ps[i]) <= ps[j].off)
  }

  lemma {:induction false} PlacesAreWellPlaced(shapes: seq<(nat, nat)>, from: nat)
    ensures WellPlaced(Places(shapes, from), from, Total(shapes, from)) && from <= Total(shapes, from)
    decreases |shapes|
  {
    if shapes != [] {
      var ps := Places(shapes, from);
      var end := ps[0].off + Size(ps[0]);
      PlacesAreWellPlaced(shapes[1..], end);
      hide PadUp;
      assert ps[1..] == Places(shapes[1..], end);
      forall i | 0 < i < |ps| ensures ps[i] == ps[1..][i - 1] {}
    }
  }

  lemma {:induction false} LastEndsAtTotal(shapes: seq<(nat, nat)>, from: nat)
    requires shapes != []
    ensures var p := Places(shapes, from)[|shapes| - 1]; p.off + Size(p) == Total(shapes, from)
    decreases |shapes|
  {
    if |shapes| > 1 {
      var end := PadUp(from) + shapes[0].0 * shapes[0].1;
      LastEndsAtTotal(shapes[1..], end);
    }
  }

  // ---------------------------------------------------------------- open

  /** The header check: every section's end, computed without overflow, is inside the file. */
  method OpenAccepts(ps: seq<Place>, fileLen: nat) returns (ok: bool)
    ensures ok <==> forall i :: 0 <= i < |ps| ==> InFile(ps[i], fileLen)
  {
    for i := 0 to |ps|
      invariant forall j :: 0 <= j < i ==> InFile(ps[j], fileLen)
    {
      var bytes := ps[i].n * ps[i].stride;
      if bytes >= U64 { return false; }
      var end := ps[i].off + bytes;
      if end >= U64 { return false; }
      if end > fileLen { return false; }
    }
    return true;
  }

  predicate InFile(p: Place, fileLen: nat)
  {
    Size(p) < U64 && p.off + Size(p) < U64 && p.off + Size(p) <= fileLen
  }

  /** A file of at least the total length passes every check of `open`, and a shorter one
      (a write that was cut off) fails. `order` is the order in which `open` goes through
      the sections. */
  lemma OpenIff(shapes: seq<(nat, nat)>, fileLen: nat, order: seq<nat>)
    requires shapes != [] && Total(shapes, HeaderLen) < U64
    requires (forall i :: 0 <= i < |order| ==> order[i] < |shapes|) && (forall i :: 0 <= i < |shapes| ==> i in order)
    ensures (forall k :: 0 <= k < |order| ==> InFile(Places(shapes, HeaderLen)[order[k]], fileLen)) <==> Total(shapes, HeaderLen) <= fileLen
  {
    var ps := Places(shapes, HeaderLen);
    PlacesAreWellPlaced(shapes, HeaderLen);
    LastEndsAtTotal(shapes, HeaderLen);
    hide Places, Total;
    var last := |shapes| - 1;
    assert last in order;
    var k :| 0 <= k < |order| && order[k] == last;
    assert InFile(ps[order[k]], fileLen) ==> Total(shapes, HeaderLen) <= fileLen;
    forall k | 0 <= k < |order| && Total(shapes, HeaderLen) <= fileLen ensures InFile(ps[order[k]], fileLen) {}
  }

  /** Row widths in file order: xrefs, syms, names, files, inh, inhrev, calls, crev, typed,
      childrev, sig, then the string blob and the two trigram sections. */
  const Strides: seq<nat> := [17, 20, 18, 14, 16, 16, 17, 17, 18, 16, 18, 1, 20, 1]

  /** The order in which `open` checks them. */
  const CheckOrder: seq<nat> := [0, 1, 2, 3, 4, 6, 7, 8, 9, 5, 10, 12, 13, 11]

  function IndexShapes(counts: seq<nat>): (r: seq<(nat, nat)>)
    requires |counts| == |Strides|
    ensures |r| == |Strides| && forall i :: 0 <= i < |r| ==> r[i] == (counts[i], Strides[i])
  {
    seq(|Strides|, i requires 0 <= i < |Strides| => (counts[i], Strides[i]))
  }

  /** Whatever the row counts, zero included, the file the writer declares is one `open`
      accepts at its full length and at no shorter one. */
  lemma FinishedFileOpens(counts: seq<nat>, fileLen: nat)
    requires |counts| == |Strides| && Total(IndexShapes(counts), HeaderLen) < U64
    ensures var ps := Places(IndexShapes(counts), HeaderLen);
      && WellPlaced(ps, HeaderLen, Total(IndexShapes(counts), HeaderLen))
      && ((forall k :: 0 <= k < |CheckOrder| ==> InFile(ps[CheckOrder[k]], fileLen)) <==> Total(IndexShapes(counts), HeaderLen) <= fileLen)
  {
    assert CheckOrder[0] == 0 && CheckOrder[1] == 1 && CheckOrder[2] == 2 && CheckOrder[3] == 3 && CheckOrder[4] == 4
      && CheckOrder[9] == 5 && CheckOrder[5] == 6 && CheckOrder[6] == 7 && CheckOrder[7] == 8 && CheckOrder[8] == 9
      && CheckOrder[10] == 10 && CheckOrder[13] == 11 && CheckOrder[11] == 12 && CheckOrder[12] == 13;
    hide Places, Total;
    PlacesAreWellPlaced(IndexShapes(counts), HeaderLen);
    OpenIff(IndexShapes(counts), fileLen, CheckOrder);
  }

  // ---------------------------------------------------------------- the file

  /** Seeking past the end and writing: only a non-empty write makes the file longer. */
  function WriteAt(file: seq<byte>, off: nat, data: seq<byte>): (r: seq<byte>)
    requires |file| <= off
    ensures |r| == if data == [] then |file| else off + |data|
    ensures file <= r
    ensures data != [] ==> r[off..] == data
  {
    if data == [] then file else file + Zeros(off - |file|) + data
  }

  function SetLen(file: seq<byte>, n: nat): (r: seq<byte>)
    requires |file| <= n
    ensures |r| == n && file <= r
  {
    file + Zeros(n - |file|)
  }

  /** `data` sits at its place in the file. */
  ghost predicate Sits(file: seq<byte>, p: Place, data: seq<byte>)
  {
    p.off + |data| <= |file| && file[p.off..p.off + |data|] == data
  }

  ghost function Shapes(sections: seq<Section>): (r: seq<(nat, nat)>)
    ensures |r| == |sections| && forall i :: 0 <= i < |r| ==> r[i] == (sections[i].0, sections[i].1)
  {
    seq(|sections|, i requires 0 <= i < |sections| => (sections[i].0, sections[i].1))
  }

  lemma StillSits(file: seq<byte>, longer: seq<byte>, p: Place, data: seq<byte>)
    requires Sits(file, p, data) && file <= longer
    ensures Sits(longer, p, data)
  {
    assert longer[..|file|] == file;
    assert longer[p.off..p.off + |data|] == longer[..|file|][p.off..p.off + |data|];
  }

  type Section = (nat, nat, seq<byte>)

  ghost predicate SectionsOk(sections: seq<Section>)
  {
    forall i :: 0 <= i < |sections| ==> |sections[i].2| == sections[i].0 * sections[i].1
  }

  /** The first `n` sections, empty ones aside, are in place. */
  ghost predicate SitUpTo(file: seq<byte>, ps: seq<Place>, sections: seq<Section>, n: nat)
  {
    n <= |sections| == |ps| && forall j :: 0 <= j < n && sections[j].2 != [] ==> Sits(file, ps[j], sections[j].2)
  }

  lemma WriteSits(file: seq<byte>, ps: seq<Place>, sections: seq<Section>, n: nat)
    requires SitUpTo(file, ps, sections, n) && n < |sections| && |file| <= ps[n].off
    ensures SitUpTo(WriteAt(file, ps[n].off, sections[n].2), ps, sections, n + 1)
  {
    var longer := WriteAt(file, ps[n].off, sections[n].2);
    forall j | 0 <= j < n + 1 && sections[j].2 != [] ensures Sits(longer, ps[j], sections[j].2) {
      if j < n { StillSits(file, longer, ps[j], sections[j].2); }
    }
  }

  lemma AllSit(file: seq<byte>, longer: seq<byte>, ps: seq<Place>, sections: seq<Section>)
    requires SitUpTo(file, ps, sections, |sections|) && file <= longer
    requires forall j :: 0 <= j < |ps| ==> ps[j].off <= |longer|
    ensures forall j :: 0 <= j < |sections| ==> Sits(longer, ps[j], sections[j].2)
  {
    forall j | 0 <= j < |sections| ensures Sits(longer, ps[j], sections[j].2) {
      if sections[j].2 != [] { StillSits(file, longer, ps[j], sections[j].2); }
    }
  }

  /** The write pass of `finish`: header, each section at its offset, then the explicit
      length. Every section reads back at its place, empty trailers included, and the file
      has exactly the declared total length. */
  method WriteFile(header: seq<byte>, sections: seq<Section>) returns (file: seq<byte>, ghost ps: seq<Place>)
    requires |header| == HeaderLen && SectionsOk(sections)
    ensures ps == Places(Shapes(sections), HeaderLen) && |file| == Total(Shapes(sections), HeaderLen)
    ensures header <= file
    ensures forall i :: 0 <= i < |sections| ==> Sits(file, ps[i], sections[i].2)
  {
    ghost var shapes := Shapes(sections);
    ps := Places(shapes, HeaderLen);
    file := header;
    var end := HeaderLen;
    assert SitUpTo(file, ps, sections, 0) && shapes[0..] == shapes && ps[0..] == ps;
    hide Places, Total, PadUp, WriteAt, SitUpTo, Shapes;
    for i := 0 to |sections|
      invariant header <= file && |file| <= end
      invariant Places(shapes[i..], end) == ps[i..] && Total(shapes[i..], end) == Total(shapes, HeaderLen)
      invariant SitUpTo(file, ps, sections, i)
    {
      var (n, stride, data) := sections[i];
      PlaceStep(shapes, ps, i, end);
      WriteSits(file, ps, sections, i);
      file := WriteAt(file, PadUp(end), data);
      end := PadUp(end) + n * stride;
    }
    EndsAtTotal(shapes, end);
    PlacesAreWellPlaced(shapes, HeaderLen);
    ghost var written := file;
    file := SetLen(file, end);
    AllSit(written, file, ps, sections);
  }

  lemma EndsAtTotal(shapes: seq<(nat, nat)>, end: nat)
    ensures Total(shapes[|shapes|..], end) == end
  {
  }

  /** One step of the offset computation. */
  lemma PlaceStep(shapes: seq<(nat, nat)>, ps: seq<Place>, i: nat, end: nat)
    requires i < |shapes| == |ps| && Places(shapes[i..], end) == ps[i..]
    ensures ps[i] == Place(PadUp(end), shapes[i].0, shapes[i].1)
    ensures Places(shapes[i + 1..], ps[i].off + Size(ps[i])) == ps[i + 1..]
    ensures Total(shapes[i..], end) == Total(shapes[i + 1..], ps[i].off + Size(ps[i]))
  {
    assert shapes[i..][0] == shapes[i] && shapes[i..][1..] == shapes[i + 1..];
    assert ps[i] == ps[i..][0] && ps[i + 1..] == ps[i..][1..];
  }
}
