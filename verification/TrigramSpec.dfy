/** What the trigram substring index means, independently of how it is built:
    posting lists, the block-skip region that stores one, and the serial row scan
    every `--substr` query must agree with. */
module TrigramSpec {
  import opened Bytes
  import opened Varint

  /** Posting ids per block. */
  const BLOCK: nat := 128
  /** Bytes per skip-table entry: block maximum and block offset, both `u32`. */
  const SKIP_ENTRY: nat := 8
  /** Rows of the names table the index is proved for. */
  const MAX_ROWS: nat := 0x2000_0000

  datatype Tri = Tri(a: byte, b: byte, c: byte)

  /** One row of the alphabetical names table. */
  datatype NameRow = NameRow(name: seq<byte>, sym: nat)

  function TriLess(x: Tri, y: Tri): bool
  {
    x.a < y.a || (x.a == y.a && (x.b < y.b || (x.b == y.b && x.c < y.c)))
  }

  /** Dictionary keys are ordered as their bytes. */
  lemma TriLessIsBytes(x: Tri, y: Tri)
    ensures TriLess(x, y) <==> LexLess([x.a, x.b, x.c], [y.a, y.b, y.c])
  {
    var p, q := [x.a, x.b, x.c], [y.a, y.b, y.c];
    assert p[1..] == [x.b, x.c] && q[1..] == [y.b, y.c] && p[1..][1..] == [x.c] && q[1..][1..] == [y.c];
    assert LexLess(p[1..][1..], q[1..][1..]) <==> x.c < y.c;
    assert LexLess(p[1..], q[1..]) <==> x.b < y.b || (x.b == y.b && x.c < y.c);
  }

  function Lower(b: byte): byte
  {
    if 65 <= b <= 90 then b + 32 else b
  }

  function LowerAll(s: seq<byte>): (r: seq<byte>)
    ensures |r| == |s|
    ensures forall i :: 0 <= i < |s| ==> r[i] == Lower(s[i])
  {
    seq(|s|, i requires 0 <= i < |s| => Lower(s[i]))
  }

  function TriAt(s: seq<byte>, i: nat): Tri
    requires i + 2 < |s|
  {
    Tri(s[i], s[i + 1], s[i + 2])
  }

  ghost predicate HasTri(s: seq<byte>, t: Tri)
  {
    exists i: nat :: i + 2 < |s| && TriAt(s, i) == t
  }

  // ---------------------------------------------------------------- posting lists

  ghost predicate Ascending(ids: seq<nat>)
  {
    forall i, j :: 0 <= i < j < |ids| ==> ids[i] < ids[j]
  }

  /** The rows among the first `n` whose lowercased name holds `t`, in row order. */
  ghost function Postings(rows: seq<NameRow>, t: Tri, n: nat): (ids: seq<nat>)
    requires n <= |rows|
    ensures Ascending(ids) && |ids| <= n
    ensures forall k :: 0 <= k < |ids| ==> ids[k] < n
    ensures forall i :: 0 <= i < n ==> (i in ids <==> HasTri(LowerAll(rows[i].name), t))
  {
    if n == 0 then []
    else
      var before := Postings(rows, t, n - 1);
      if HasTri(LowerAll(rows[n - 1].name), t) then before + [n - 1] else before
  }

  // ---------------------------------------------------------------- one region

  function Blocks(count: nat): nat
  {
    (count + BLOCK - 1) / BLOCK
  }

  /** The gap stored for posting `k`: a block's first id is stored as it is. */
  ghost function Delta(ids: seq<nat>, k: nat): nat
    requires Ascending(ids) && k < |ids|
  {
    if k % BLOCK == 0 then ids[k] else ids[k] - ids[k - 1]
  }

  /** The packed gap-deltas of the first `n` postings. */
  ghost function Packed(ids: seq<nat>, n: nat): seq<byte>
    requires Ascending(ids) && n <= |ids|
  {
    if n == 0 then [] else Packed(ids, n - 1) + Encode(Delta(ids, n - 1))
  }

  /** The largest id of block `b` among the first `w` postings. */
  ghost function BlockMax(ids: seq<nat>, w: nat, b: nat): nat
    requires w <= |ids| && b < Blocks(w)
  {
    ids[(if BLOCK * (b + 1) <= w then BLOCK * (b + 1) else w) - 1]
  }

  /** Offset of block `b` inside the region: past the skip table and the earlier blocks. */
  ghost function BlockOffset(ids: seq<nat>, b: nat): nat
    requires Ascending(ids) && b * BLOCK <= |ids|
  {
    SKIP_ENTRY * Blocks(|ids|) + |Packed(ids, b * BLOCK)|
  }

  ghost function RegionLength(ids: seq<nat>): nat
    requires Ascending(ids)
  {
    SKIP_ENTRY * Blocks(|ids|) + |Packed(ids, |ids|)|
  }

  /** A big-endian `u32`. */
  function Word(v: nat): (r: seq<byte>)
    requires v < U32
    ensures |r| == 4
  {
    PowValues();
    BigEndian(4, v)
  }

  /** Skip entry `b` of a region at `off` holds that block's maximum and offset. */
  ghost predicate EntryOk(post: seq<byte>, off: nat, ids: seq<nat>, w: nat, b: nat)
    requires Ascending(ids) && w <= |ids| && b < Blocks(w)
  {
    && BlockMax(ids, w, b) < U32
    && BlockOffset(ids, b) < U32
    && BytesAt(post, off + b * SKIP_ENTRY, Word(BlockMax(ids, w, b)))
    && BytesAt(post, off + b * SKIP_ENTRY + 4, Word(BlockOffset(ids, b)))
  }

  /** The region of `ids` at `off` after the first `w` postings have been written. */
  ghost predicate RegionPartial(post: seq<byte>, off: nat, ids: seq<nat>, w: nat)
  {
    && Ascending(ids) && w <= |ids|
    && off + RegionLength(ids) <= |post|
    && BytesAt(post, off + SKIP_ENTRY * Blocks(|ids|), Packed(ids, w))
    && (forall b: nat | b < Blocks(w) :: EntryOk(post, off, ids, w, b))
  }

  ghost predicate RegionOk(post: seq<byte>, off: nat, ids: seq<nat>)
  {
    RegionPartial(post, off, ids, |ids|)
  }

  // ---------------------------------------------------------------- the dictionary

  /** A dictionary row; offsets are bytes into the postings blob. */
  datatype DictRow = DictRow(tri: Tri, postOff: nat, postLen: nat, count: nat)

  ghost function AllPostings(rows: seq<NameRow>, t: Tri): (ids: seq<nat>)
    ensures Ascending(ids)
  {
    Postings(rows, t, |rows|)
  }

  /** The dictionary and blob index `rows`: keys ascend and are exactly the trigrams
      that occur, regions tile the blob, and each row describes a faithful region. */
  ghost predicate IndexOk(rows: seq<NameRow>, dict: seq<DictRow>, post: seq<byte>)
  {
    && (forall i, j :: 0 <= i < j < |dict| ==> TriLess(dict[i].tri, dict[j].tri))
    && (forall t :: AllPostings(rows, t) != [] ==> Keyed(dict, t))
    && (forall i :: 0 <= i < |dict| ==> RowOk(rows, dict[i], post))
    && Tiles(dict, |post|)
  }

  ghost predicate Keyed(dict: seq<DictRow>, t: Tri)
  {
    exists i :: 0 <= i < |dict| && dict[i].tri == t
  }

  ghost predicate RowOk(rows: seq<NameRow>, row: DictRow, post: seq<byte>)
  {
    var ids := AllPostings(rows, row.tri);
    && ids != []
    && row.count == |ids|
    && row.postLen == RegionLength(ids) < U32
    && RegionOk(post, row.postOff, ids)
  }

  /** Where the first `i` regions end. */
  ghost function EndOf(dict: seq<DictRow>, i: nat): nat
    requires i <= |dict|
  {
    if i == 0 then 0 else dict[i - 1].postOff + dict[i - 1].postLen
  }

  /** Each region starts where the previous one ends; the last one ends the blob. */
  ghost predicate Tiles(dict: seq<DictRow>, total: nat)
  {
    && (forall i :: 0 <= i < |dict| ==> dict[i].postOff == EndOf(dict, i))
    && total == EndOf(dict, |dict|)
  }

  // ---------------------------------------------------------------- the reference scan

  ghost predicate Contains(s: seq<byte>, needle: seq<byte>)
  {
    exists i: nat :: ContainsAt(s, needle, i)
  }

  ghost predicate ContainsAt(s: seq<byte>, needle: seq<byte>, i: nat)
  {
    i + |needle| <= |s| && s[i..i + |needle|] == needle
  }

  /** The same byte, or the two cases of one ASCII letter. */
  ghost predicate SameLetter(a: byte, b: byte)
  {
    a == b || (65 <= a <= 90 && b == a + 32) || (65 <= b <= 90 && a == b + 32)
  }

  /** The needle is spelled in the name from byte `i` on, letter case aside if asked. */
  ghost predicate OccursAt(name: seq<byte>, needle: seq<byte>, ignoreCase: bool, i: nat)
  {
    && i + |needle| <= |name|
    && forall j :: 0 <= j < |needle| ==> if ignoreCase then SameLetter(name[i + j], needle[j]) else name[i + j] == needle[j]
  }

  /** Does a name match. */
  ghost predicate Matches(name: seq<byte>, needle: seq<byte>, ignoreCase: bool)
  {
    exists i: nat :: OccursAt(name, needle, ignoreCase, i)
  }

  lemma LowerSame(a: byte, b: byte)
    ensures Lower(a) == Lower(b) <==> SameLetter(a, b)
  {
  }

  lemma OccursFolded(name: seq<byte>, needle: seq<byte>, i: nat)
    ensures OccursAt(name, needle, true, i) <==> ContainsAt(LowerAll(name), LowerAll(needle), i)
    ensures OccursAt(name, needle, false, i) <==> ContainsAt(name, needle, i)
  {
    hide Lower, SameLetter;
    if i + |needle| <= |name| {
      var low, lowNeedle := LowerAll(name), LowerAll(needle);
      var cut := low[i..i + |needle|];
      forall j | 0 <= j < |needle| ensures cut[j] == Lower(name[i + j]) && (cut[j] == lowNeedle[j] <==> SameLetter(name[i + j], needle[j])) {
        LowerSame(name[i + j], needle[j]);
      }
      assert name[i..i + |needle|] == needle <==> forall j :: 0 <= j < |needle| ==> name[i + j] == needle[j];
    }
  }

  /** Searching the lowercased bytes for the lowercased needle finds exactly the matches. */
  lemma FoldedSearch(name: seq<byte>, needle: seq<byte>)
    ensures Matches(name, needle, true) <==> Contains(LowerAll(name), LowerAll(needle))
    ensures Matches(name, needle, false) <==> Contains(name, needle)
  {
    hide OccursAt, ContainsAt;
    forall i: nat
      ensures OccursAt(name, needle, true, i) <==> ContainsAt(LowerAll(name), LowerAll(needle), i)
      ensures OccursAt(name, needle, false, i) <==> ContainsAt(name, needle, i)
    {
      OccursFolded(name, needle, i);
    }
  }

  /** The trigram is spelled in the name from byte `i` on, letter case aside. */
  ghost predicate SpelledAt(name: seq<byte>, t: Tri, i: nat)
  {
    i + 2 < |name| && SameLetter(name[i], t.a) && SameLetter(name[i + 1], t.b) && SameLetter(name[i + 2], t.c)
  }

  ghost predicate NoCapitals(t: Tri)
  {
    !(65 <= t.a <= 90) && !(65 <= t.b <= 90) && !(65 <= t.c <= 90)
  }

  /** A trigram's posting list: keys have no capitals, and a row is listed exactly when its
      name spells the trigram in some letter case. */
  lemma PostingsAre(rows: seq<NameRow>, t: Tri, r: nat)
    ensures r in AllPostings(rows, t) <==> r < |rows| && NoCapitals(t) && exists i: nat :: SpelledAt(rows[r].name, t, i)
  {
    if r < |rows| {
      var low := LowerAll(rows[r].name);
      forall i: nat | i + 2 < |low| ensures TriAt(low, i) == t <==> NoCapitals(t) && SpelledAt(rows[r].name, t, i) {
        SpelledTri(rows[r].name, t, i);
      }
      hide Lower, LowerAll, TriAt, SpelledAt;
      assert HasTri(low, t) <==> NoCapitals(t) && exists i: nat :: i + 2 < |low| && SpelledAt(rows[r].name, t, i);
      assert forall i: nat :: SpelledAt(rows[r].name, t, i) ==> i + 2 < |low| by { SpelledInside(rows[r].name, t); }
    }
  }

  lemma SpelledInside(name: seq<byte>, t: Tri)
    ensures forall i: nat :: SpelledAt(name, t, i) ==> i + 2 < |LowerAll(name)|
  {
  }

  lemma SpelledTri(name: seq<byte>, t: Tri, i: nat)
    requires i + 2 < |name|
    ensures TriAt(LowerAll(name), i) == t <==> NoCapitals(t) && SpelledAt(name, t, i)
  {
  }

  /** Whatever the case of its letters, a trigram of a name leads to a list with the name. */
  lemma EveryCaseListed(rows: seq<NameRow>, r: nat, i: nat, t: Tri) returns (u: Tri)
    requires r < |rows| && SpelledAt(rows[r].name, t, i)
    ensures r in AllPostings(rows, u) && SameLetter(t.a, u.a) && SameLetter(t.b, u.b) && SameLetter(t.c, u.c)
  {
    u := Tri(Lower(t.a), Lower(t.b), Lower(t.c));
    assert SpelledAt(rows[r].name, u, i);
    PostingsAre(rows, u, r);
  }

  /** The distinct syms of the matching rows among the first `n`, in row order. */
  ghost function Scan(rows: seq<NameRow>, needle: seq<byte>, ignoreCase: bool, n: nat): (out: seq<nat>)
    requires n <= |rows|
  {
    if n == 0 then []
    else
      var before := Scan(rows, needle, ignoreCase, n - 1);
      if Matches(rows[n - 1].name, needle, ignoreCase) && rows[n - 1].sym !in before
      then before + [rows[n - 1].sym] else before
  }

  function Take<T>(s: seq<T>, limit: nat): seq<T>
  {
    if |s| <= limit then s else s[..limit]
  }

  /** What a substring query returns: the first `limit` distinct syms of a serial,
      row-order scan of the whole names table. */
  ghost function SerialScan(rows: seq<NameRow>, needle: seq<byte>, ignoreCase: bool, limit: nat): seq<nat>
  {
    Take(Scan(rows, needle, ignoreCase, |rows|), limit)
  }

  // ---------------------------------------------------------------- facts

  lemma {:induction false} PackedExtends(ids: seq<nat>, n: nat, m: nat)
    requires Ascending(ids) && n <= m <= |ids|
    ensures |Packed(ids, n)| <= |Packed(ids, m)|
    ensures Packed(ids, m)[..|Packed(ids, n)|] == Packed(ids, n)
  {
    if n < m { PackedExtends(ids, n, m - 1); }
  }

  /** The packed bytes of a prefix do not depend on what follows it. */
  lemma {:induction false} PackedPrefix(ids: seq<nat>, more: seq<nat>, n: nat)
    requires Ascending(ids) && Ascending(more) && n <= |ids| <= |more| && more[..|ids|] == ids
    ensures Packed(ids, n) == Packed(more, n)
  {
    if n != 0 {
      PackedPrefix(ids, more, n - 1);
      assert ids[n - 1] == more[..|ids|][n - 1] == more[n - 1];
      if (n - 1) % BLOCK != 0 { assert ids[n - 2] == more[..|ids|][n - 2] == more[n - 2]; }
    }
  }

  lemma DeltaBound(ids: seq<nat>, k: nat)
    requires Ascending(ids) && k < |ids|
    ensures Delta(ids, k) <= ids[k]
  {
  }

  /** Five bytes per posting and eight per block bound a region, so every region of
      an index over at most 2^29 names fits the `u32` length column. */
  lemma {:induction false} PackedBound(ids: seq<nat>, n: nat)
    requires Ascending(ids) && n <= |ids|
    requires forall k :: 0 <= k < |ids| ==> ids[k] < U32
    ensures |Packed(ids, n)| <= 5 * n
  {
    if n != 0 {
      PackedBound(ids, n - 1);
      DeltaBound(ids, n - 1);
      WordLength(Delta(ids, n - 1));
    }
  }

  lemma RegionFitsWord(rows: seq<NameRow>, t: Tri)
    requires |rows| <= MAX_ROWS
    ensures RegionLength(AllPostings(rows, t)) <= 5 * |AllPostings(rows, t)| + 8 * Blocks(|AllPostings(rows, t)|)
    ensures RegionLength(AllPostings(rows, t)) < U32
  {
    PackedBound(AllPostings(rows, t), |AllPostings(rows, t)|);
  }

  /** What the 32-bit columns can hold: row ids, and the length of every region. */
  ghost predicate IndexFits(rows: seq<NameRow>)
  {
    |rows| < U32 && forall t: Tri :: RegionLength(AllPostings(rows, t)) < U32
  }

  lemma SmallTableFits(rows: seq<NameRow>)
    requires |rows| <= MAX_ROWS
    ensures IndexFits(rows)
  {
    hide AllPostings, RegionLength;
    forall t: Tri ensures RegionLength(AllPostings(rows, t)) < U32 { RegionFitsWord(rows, t); }
  }

  /** No index with 32-bit lengths is faithful to a table that does not fit. */
  lemma FaithfulMeansFits(rows: seq<NameRow>, dict: seq<DictRow>, post: seq<byte>, t: Tri)
    requires IndexOk(rows, dict, post) && forall i :: 0 <= i < |dict| ==> dict[i].postLen < U32
    ensures RegionLength(AllPostings(rows, t)) < U32
  {
    hide RegionOk, Tiles;
    if AllPostings(rows, t) != [] {
      assert Keyed(dict, t);
      var i :| 0 <= i < |dict| && dict[i].tri == t;
      assert RowOk(rows, dict[i], post);
    }
  }

  lemma SmallWord(v: byte)
    ensures Word(v) == [0, 0, 0, v]
  {
    PowValues();
    assert BigEndian(1, 0) == BigEndian(0, 0) + [0] && BigEndian(2, 0) == BigEndian(1, 0) + [0];
    assert BigEndian(3, 0) == BigEndian(2, 0) + [0] && BigEndian(4, v) == BigEndian(3, 0) + [v];
  }

  /** A short region byte by byte: the block's maximum and offset as big-endian words, then the
      first id and the gap to the second. */
  lemma SmallRegion(post: seq<byte>, off: nat, a: nat, b: nat)
    requires a < b < 128
    ensures RegionOk(post, off, [a, b]) <==> BytesAt(post, off, [0, 0, 0, b, 0, 0, 0, 8, a, b - a])
  {
    var ids := [a, b];
    assert Packed(ids, 0) == [] && Packed(ids, 1) == [a] && Packed(ids, 2) == [a] + [b - a];
    assert Blocks(2) == 1 && BlockMax(ids, 2, 0) == b && BlockOffset(ids, 0) == 8 && RegionLength(ids) == 10;
    SmallWord(b);
    SmallWord(8);
    hide Word, Packed, Blocks, BlockMax, BlockOffset, RegionLength;
    var whole := [0, 0, 0, b, 0, 0, 0, 8, a, b - a];
    assert whole == [0, 0, 0, b] + ([0, 0, 0, 8] + ([a] + [b - a]));
    BytesAtConcat(post, off, [0, 0, 0, b], [0, 0, 0, 8] + ([a] + [b - a]));
    BytesAtConcat(post, off + 4, [0, 0, 0, 8], [a] + [b - a]);
    hide BytesAt;
    if RegionOk(post, off, ids) { assert EntryOk(post, off, ids, 2, 0); }
    if BytesAt(post, off, whole) { BytesInside(post, off, whole); assert EntryOk(post, off, ids, 2, 0); }
  }

  lemma BytesInside(buf: seq<byte>, pos: nat, s: seq<byte>)
    requires BytesAt(buf, pos, s)
    ensures pos + |s| <= |buf|
  {
  }
}
