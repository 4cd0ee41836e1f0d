/** Fixed-stride tables of big-endian columns, the lower bound over them, and the range and
    point queries built on it. */
module Tables {
  import opened Bytes

  /** A row as its column values; a schema is their widths in bytes. */
  type Cells = seq<nat>
  type Schema = seq<nat>

  const XrefCols: Schema := [8, 1, 4, 4]

  ghost predicate RowOk(w: Schema, r: Cells)
  {
    |r| == |w| && forall i :: 0 <= i < |w| ==> r[i] < Pow256(w[i])
  }

  function Stride(w: Schema): nat
  {
    if w == [] then 0 else w[0] + Stride(w[1..])
  }

  function RowBytes(w: Schema, r: Cells): (b: seq<byte>)
    requires RowOk(w, r)
    ensures |b| == Stride(w)
  {
    if w == [] then [] else BigEndian(w[0], r[0]) + RowBytes(w[1..], r[1..])
  }

  function Decode(w: Schema, b: seq<byte>): (r: Cells)
    requires |b| == Stride(w)
  {
    if w == [] then [] else [FromBigEndian(b[..w[0]])] + Decode(w[1..], b[w[0]..])
  }

  lemma {:induction false} DecodeRow(w: Schema, r: Cells)
    requires RowOk(w, r)
    ensures Decode(w, RowBytes(w, r)) == r
  {
    if w != [] {
      var b := RowBytes(w, r);
      assert b[..w[0]] == BigEndian(w[0], r[0]) && b[w[0]..] == RowBytes(w[1..], r[1..]);
      BigEndianRoundTrip(w[0], r[0]);
      DecodeRow(w[1..], r[1..]);
    }
  }

  /** Comparing rows as raw bytes is comparing their column tuples. */
  lemma {:induction false} BytesCompareAsColumns(w: Schema, a: Cells, b: Cells)
    requires RowOk(w, a) && RowOk(w, b)
    ensures LexLess(RowBytes(w, a), RowBytes(w, b)) <==> LexLess(a, b)
  {
    if w != [] {
      hide Pow256, BigEndian;
      BigEndianOrder(w[0], a[0], b[0]);
      LexConcat(BigEndian(w[0], a[0]), BigEndian(w[0], b[0]), RowBytes(w[1..], a[1..]), RowBytes(w[1..], b[1..]));
      BytesCompareAsColumns(w[1..], a[1..], b[1..]);
    }
  }

  // ---------------------------------------------------------------- tables

  ghost predicate TableOk(w: Schema, rows: seq<Cells>)
  {
    && (forall i :: 0 <= i < |rows| ==> RowOk(w, rows[i]))
    && (forall i, j :: 0 <= i < j < |rows| ==> LexLess(rows[i], rows[j]))
  }

  /** `table` holds the rows one after another. */
  ghost predicate Holds(w: Schema, table: seq<byte>, rows: seq<Cells>)
    requires forall i :: 0 <= i < |rows| ==> RowOk(w, rows[i])
  {
    && |table| == |rows| * Stride(w)
    && (forall i :: 0 <= i < |rows| ==> Slot(w, table, i, |rows|) == RowBytes(w, rows[i]))
  }

  /** Cells `i` of a table of `n` rows. */
  function Slot(w: Schema, table: seq<byte>, i: nat, n: nat): (b: seq<byte>)
    requires i < n && |table| == n * Stride(w)
    ensures |b| == Stride(w)
  {
    SlotInside(i, n, Stride(w));
    table[i * Stride(w)..(i + 1) * Stride(w)]
  }

  lemma SlotInside(i: nat, n: nat, stride: nat)
    requires i < n
    ensures 0 <= i * stride && (i + 1) * stride == i * stride + stride && (i + 1) * stride <= n * stride
  {
    MulAdd(i, 1, stride);
    MulAdd(i + 1, n - (i + 1), stride);
  }

  lemma MulAdd(a: nat, b: nat, c: nat)
    ensures (a + b) * c == a * c + b * c && a * c >= 0 && b * c >= 0
  {
  }

  /** Writing rows in order gives such a table. */
  method WriteTable(w: Schema, rows: seq<Cells>) returns (table: seq<byte>)
    requires forall i :: 0 <= i < |rows| ==> RowOk(w, rows[i])
    ensures Holds(w, table, rows)
  {
    hide RowBytes, RowOk, Stride;
    table := [];
    for n := 0 to |rows|
      invariant |table| == n * Stride(w)
      invariant forall i :: 0 <= i < n ==> Slot(w, table, i, n) == RowBytes(w, rows[i])
    {
      ghost var before := table;
      table := table + RowBytes(w, rows[n]);
      SlotInside(n, n + 1, Stride(w));
      forall i | 0 <= i < n + 1 ensures Slot(w, table, i, n + 1) == RowBytes(w, rows[i]) {
        SlotInside(i, n + 1, Stride(w));
        if i < n {
          SlotInside(i, n, Stride(w));
          assert Slot(w, table, i, n + 1) == Slot(w, before, i, n);
        } else {
          assert table[|before|..] == RowBytes(w, rows[n]);
        }
      }
    }
  }

  /** `lower_bound`: how many rows are below the needle, as bytes and as columns. */
  method LowerBound(w: Schema, table: seq<byte>, n: nat, needle: seq<byte>, ghost rows: seq<Cells>, ghost key: Cells) returns (lo: nat)
    requires TableOk(w, rows) && n == |rows| && Holds(w, table, rows) && RowOk(w, key) && needle == RowBytes(w, key)
    ensures lo <= n
    ensures forall i :: 0 <= i < lo ==> LexLess(rows[i], key)
    ensures forall i :: lo <= i < n ==> !LexLess(rows[i], key)
  {
    hide LexLess, RowBytes, RowOk;
    lo := 0;
    var hi := n;
    while lo < hi
      invariant 0 <= lo <= hi <= n
      invariant forall i :: 0 <= i < lo ==> LexLess(rows[i], key)
      invariant forall i :: hi <= i < n ==> !LexLess(rows[i], key)
    {
      var mid := (lo + hi) / 2;
      BytesCompareAsColumns(w, rows[mid], key);
      if LexLess(Slot(w, table, mid, n), needle) {
        Downwards(w, rows, key, mid);
        lo := mid + 1;
      } else {
        Upwards(w, rows, key, mid);
        hi := mid;
      }
    }
  }

  lemma Downwards(w: Schema, rows: seq<Cells>, key: Cells, mid: nat)
    requires TableOk(w, rows) && mid < |rows| && LexLess(rows[mid], key)
    ensures forall i :: 0 <= i <= mid ==> LexLess(rows[i], key)
  {
    hide LexLess, RowOk;
    forall i | 0 <= i <= mid ensures LexLess(rows[i], key) {
      if i < mid { LexTransitive(rows[i], rows[mid], key); }
    }
  }

  lemma Upwards(w: Schema, rows: seq<Cells>, key: Cells, mid: nat)
    requires TableOk(w, rows) && mid < |rows| && !LexLess(rows[mid], key)
    ensures forall i :: mid <= i < |rows| ==> !LexLess(rows[i], key)
  {
    hide LexLess, RowOk;
    forall i | mid <= i < |rows| ensures !LexLess(rows[i], key) {
      if i > mid && LexLess(rows[i], key) { LexTransitive(rows[mid], rows[i], key); }
    }
  }

  // ---------------------------------------------------------------- range queries

  /** Exactly the matching rows, in table order. */
  ghost function Matching(rows: seq<Cells>, p: Cells -> bool): (out: seq<Cells>)
  {
    if rows == [] then []
    else
      var n := |rows| - 1;
      if p(rows[n]) then Matching(rows[..n], p) + [rows[n]] else Matching(rows[..n], p)
  }

  /** When matching rows are exactly a contiguous run, the run is the answer. */
  lemma {:induction false} RunIsMatching(rows: seq<Cells>, p: Cells -> bool, lo: nat, hi: nat)
    requires lo <= hi <= |rows| && forall i :: 0 <= i < |rows| ==> (p(rows[i]) <==> lo <= i < hi)
    ensures Matching(rows, p) == rows[lo..hi]
  {
    if rows != [] {
      var n := |rows| - 1;
      var top := if hi <= n then hi else n;
      if lo <= n {
        RunIsMatching(rows[..n], p, lo, top);
        assert rows[..n][lo..top] == rows[lo..top];
        if hi == n + 1 { assert rows[lo..hi] == rows[lo..n] + [rows[n]]; }
      } else {
        RunIsMatching(rows[..n], p, n, n);
        assert rows[lo..hi] == [];
      }
    }
  }

  lemma {:induction false} NoneMatch(rows: seq<Cells>, p: Cells -> bool)
    ensures Matching(rows, p) == [] <==> forall i :: 0 <= i < |rows| ==> !p(rows[i])
  {
    if rows != [] { NoneMatch(rows[..|rows| - 1], p); }
  }

  /** Every query is two lower bounds; `lo > hi` can only happen when the keys are out of
      order. */
  method Bounds(w: Schema, table: seq<byte>, n: nat, from: Cells, to: Cells, ghost rows: seq<Cells>) returns (lo: nat, hi: nat)
    requires TableOk(w, rows) && n == |rows| && Holds(w, table, rows) && RowOk(w, from) && RowOk(w, to)
    ensures lo <= n && hi <= n
    ensures forall i :: 0 <= i < n ==> (lo <= i <==> !LexLess(rows[i], from)) && (i < hi <==> LexLess(rows[i], to))
  {
    hide LexLess;
    lo := LowerBound(w, table, n, RowBytes(w, from), rows, from);
    hi := LowerBound(w, table, n, RowBytes(w, to), rows, to);
  }

  lemma LexPair(x: nat, y: nat, r: Cells)
    requires |r| >= 2
    ensures LexLess(r, [x, y, 0, 0]) <==> r[0] < x || (r[0] == x && r[1] < y) || (r[0] == x && r[1] == y && LexLess(r[2..], [0, 0]))
  {
    var k := [x, y, 0, 0];
    assert k[1..] == [y, 0, 0] && k[1..][1..] == [0, 0] && r[1..][1..] == r[2..];
  }

  lemma NotBelowZeros(r: Cells)
    requires |r| == 2
    ensures !LexLess(r, [0, 0])
  {
    assert [0, 0][1..] == [0] && r[1..] == [r[1]] && [0][1..] == [];
  }

  // ---------------------------------------------------------------- xrefs

  /** The key the range ends before: the next role, or the next sym when the role range runs
      to the last role. The sym's successor wraps. */
  function XrefEnd(sym: nat, roleHi: nat): Cells
    requires roleHi < 256
  {
    if roleHi == 255 then [(sym + 1) % U64, 0, 0, 0] else [sym, roleHi + 1, 0, 0]
  }

  /** The rows of a sym with a role in range. */
  function XrefsOf(sym: nat, roleLo: nat, roleHi: nat): Cells -> bool
  {
    (r: Cells) => |r| == 4 && r[0] == sym && roleLo <= r[1] <= roleHi
  }

  lemma ColumnBound(w: Schema, r: Cells, i: nat)
    requires RowOk(w, r) && i < |w|
    ensures w[i] == 8 ==> r[i] < U64
    ensures w[i] == 1 ==> r[i] < 256
  {
    PowValues();
  }

  lemma XrefKeysOk(sym: nat, roleLo: nat, roleHi: nat)
    requires sym < U64 && roleLo < 256 && roleHi < 256
    ensures RowOk(XrefCols, [sym, roleLo, 0, 0]) && RowOk(XrefCols, XrefEnd(sym, roleHi))
  {
    PowValues();
  }

  /** Which xref rows lie between the two keys. */
  lemma XrefBetween(r: Cells, sym: nat, roleLo: nat, roleHi: nat)
    requires RowOk(XrefCols, r) && sym < U64 && roleLo < 256 && roleHi < 256
    ensures !LexLess(r, [sym, roleLo, 0, 0]) <==> r[0] > sym || (r[0] == sym && r[1] >= roleLo)
    ensures roleHi < 255 || sym + 1 < U64 ==>
      (LexLess(r, XrefEnd(sym, roleHi)) <==> r[0] < sym || (r[0] == sym && r[1] <= roleHi))
    ensures roleHi == 255 && sym + 1 == U64 ==> !LexLess(r, XrefEnd(sym, roleHi))
  {
    hide LexLess;
    ColumnBound(XrefCols, r, 0);
    ColumnBound(XrefCols, r, 1);
    NotBelowZeros(r[2..]);
    LexPair(sym, roleLo, r);
    if roleHi < 255 { LexPair(sym, roleHi + 1, r); } else { LexPair((sym + 1) % U64, 0, r); }
  }

  /** `xrefs`: the rows of a sym with a role in range, decoded, in table order. Exact for
      every argument except the last sym with the role range open at the top, where the
      wrapped end key makes the answer empty. */
  method Xrefs(table: seq<byte>, n: nat, sym: nat, roleLo: nat, roleHi: nat, ghost rows: seq<Cells>) returns (out: seq<Cells>)
    requires TableOk(XrefCols, rows) && n == |rows| && Holds(XrefCols, table, rows)
    requires sym < U64 && roleLo < 256 && roleHi < 256
    ensures !(sym == U64 - 1 && roleHi == 255) ==> out == Matching(rows, XrefsOf(sym, roleLo, roleHi))
    ensures sym == U64 - 1 && roleHi == 255 ==> out == []
  {
    XrefKeysOk(sym, roleLo, roleHi);
    var lo, hi := Bounds(XrefCols, table, n, [sym, roleLo, 0, 0], XrefEnd(sym, roleHi), rows);
    out := DecodeRun(XrefCols, table, n, lo, hi, rows);
    XrefRun(rows, sym, roleLo, roleHi, lo, hi);
  }

  /** The run between the bounds, and what it holds. */
  lemma XrefRun(rows: seq<Cells>, sym: nat, roleLo: nat, roleHi: nat, lo: nat, hi: nat)
    requires TableOk(XrefCols, rows) && sym < U64 && roleLo < 256 && roleHi < 256 && lo <= |rows| && hi <= |rows|
    requires forall i :: 0 <= i < |rows| ==>
      (lo <= i <==> !LexLess(rows[i], [sym, roleLo, 0, 0])) && (i < hi <==> LexLess(rows[i], XrefEnd(sym, roleHi)))
    ensures !(sym == U64 - 1 && roleHi == 255) ==>
      Matching(rows, XrefsOf(sym, roleLo, roleHi)) == if lo <= hi then rows[lo..hi] else []
    ensures sym == U64 - 1 && roleHi == 255 ==> hi == 0
  {
    hide LexLess, XrefEnd, RowOk, Matching;
    var p := XrefsOf(sym, roleLo, roleHi);
    forall i | 0 <= i < |rows|
      ensures !(sym == U64 - 1 && roleHi == 255) ==> (p(rows[i]) <==> lo <= i < hi)
      ensures sym == U64 - 1 && roleHi == 255 ==> i >= hi
    {
      XrefRowIn(rows[i], sym, roleLo, roleHi);
    }
    if !(sym == U64 - 1 && roleHi == 255) {
      if lo <= hi { RunIsMatching(rows, p, lo, hi); } else { RunIsMatching(rows, p, 0, 0); }
    }
    var last := if hi > 0 then hi - 1 else 0;
    if last < |rows| { XrefRowIn(rows[last], sym, roleLo, roleHi); }
  }

  lemma XrefRowIn(r: Cells, sym: nat, roleLo: nat, roleHi: nat)
    requires RowOk(XrefCols, r) && sym < U64 && roleLo < 256 && roleHi < 256
    ensures !(sym == U64 - 1 && roleHi == 255) ==>
      (XrefsOf(sym, roleLo, roleHi)(r) <==> !LexLess(r, [sym, roleLo, 0, 0]) && LexLess(r, XrefEnd(sym, roleHi)))
    ensures sym == U64 - 1 && roleHi == 255 ==> !LexLess(r, XrefEnd(sym, roleHi))
  {
    hide LexLess, XrefEnd;
    XrefBetween(r, sym, roleLo, roleHi);
  }

  /** Decoding rows `lo..hi`; nothing when the run is empty or inverted. */
  method DecodeRun(w: Schema, table: seq<byte>, n: nat, lo: nat, hi: nat, ghost rows: seq<Cells>) returns (out: seq<Cells>)
    requires TableOk(w, rows) && n == |rows| && Holds(w, table, rows) && lo <= n && hi <= n
    ensures out == if lo <= hi then rows[lo..hi] else []
  {
    hide LexLess, RowBytes, RowOk;
    out := [];
    var i := lo;
    while i < hi
      invariant lo <= i && (lo <= hi ==> i <= hi && out == rows[lo..i]) && (lo > hi ==> out == [])
    {
      DecodeRow(w, rows[i]);
      out := out + [Decode(w, Slot(w, table, i, n))];
      i := i + 1;
    }
  }

  /** Decoding a whole table, sorted or not. */
  method ReadTable(w: Schema, table: seq<byte>, n: nat, ghost rows: seq<Cells>) returns (out: seq<Cells>)
    requires (forall i :: 0 <= i < |rows| ==> RowOk(w, rows[i])) && n == |rows| && Holds(w, table, rows)
    ensures out == rows
  {
    hide RowBytes, RowOk;
    out := [];
    for i := 0 to n
      invariant out == rows[..i]
    {
      DecodeRow(w, rows[i]);
      out := out + [Decode(w, Slot(w, table, i, n))];
    }
  }

  // ---------------------------------------------------------------- edges

  lemma {:induction false} ZerosAreLeast(r: Cells)
    ensures !LexLess(r, Zeros(|r|))
  {
    if r != [] {
      assert Zeros(|r|)[1..] == Zeros(|r| - 1);
      ZerosAreLeast(r[1..]);
    }
  }

  /** The least row of key `k`. */
  function FirstOf(w: Schema, k: nat): Cells
    requires w != []
  {
    [k] + Zeros(|w| - 1)
  }

  lemma BelowFirst(w: Schema, r: Cells, k: nat)
    requires w != [] && RowOk(w, r)
    ensures LexLess(r, FirstOf(w, k)) <==> r[0] < k
  {
    var f := FirstOf(w, k);
    assert f[1..] == Zeros(|w| - 1);
    ZerosAreLeast(r[1..]);
  }

  lemma FirstOk(w: Schema, k: nat)
    requires w != [] && w[0] == 8 && k < U64
    ensures RowOk(w, FirstOf(w, k))
  {
    PowValues();
  }

  function KeyIs(k: nat): Cells -> bool
  {
    (r: Cells) => r != [] && r[0] == k
  }

  /** The range scan that `inherits_of`, `inherited_by`, `members`, `calls_from` and
      `called_by` share. The end key is the wrapped successor; a run whose bounds are
      inverted fails when its length is computed. The answer is exactly the rows of the key,
      if and only if the key is not the last one or the table is empty. */
  method Edges(w: Schema, table: seq<byte>, n: nat, k: nat, ghost rows: seq<Cells>) returns (r: Option<seq<Cells>>)
    requires w != [] && w[0] == 8 && TableOk(w, rows) && n == |rows| && Holds(w, table, rows) && k < U64
    ensures r == Some(Matching(rows, KeyIs(k))) <==> k != U64 - 1 || rows == []
    ensures k == U64 - 1 ==> r == None || r == Some([])
  {
    var end := (k + 1) % U64;
    FirstOk(w, k);
    FirstOk(w, end);
    var lo, hi := Bounds(w, table, n, FirstOf(w, k), FirstOf(w, end), rows);
    EdgeRun(w, rows, k, lo, hi);
    if hi < lo { return None; }
    var out := DecodeRun(w, table, n, lo, hi, rows);
    return Some(out);
  }

  lemma EdgeRun(w: Schema, rows: seq<Cells>, k: nat, lo: nat, hi: nat)
    requires w != [] && w[0] == 8 && TableOk(w, rows) && k < U64 && lo <= |rows| && hi <= |rows|
    requires forall i :: 0 <= i < |rows| ==>
      (lo <= i <==> !LexLess(rows[i], FirstOf(w, k))) && (i < hi <==> LexLess(rows[i], FirstOf(w, (k + 1) % U64)))
    ensures k != U64 - 1 ==> lo <= hi && Matching(rows, KeyIs(k)) == rows[lo..hi]
    ensures k == U64 - 1 ==> hi == 0 && (rows == [] ==> Matching(rows, KeyIs(k)) == [] && lo == 0)
    ensures k == U64 - 1 && rows != [] && lo == 0 ==> Matching(rows, KeyIs(k)) != []
  {
    hide LexLess, RowOk, Matching, FirstOf;
    var p := KeyIs(k);
    forall i | 0 <= i < |rows| ensures (lo <= i <==> rows[i] != [] && rows[i][0] >= k) && (i < hi <==> rows[i] != [] && rows[i][0] < (k + 1) % U64) {
      BelowFirst(w, rows[i], k);
      BelowFirst(w, rows[i], (k + 1) % U64);
      RowOkHead(w, rows[i]);
    }
    NoneMatch(rows, p);
    if k != U64 - 1 {
      assert (k + 1) % U64 == k + 1;
      if hi < |rows| { RowOkHead(w, rows[hi]); }
      RunIsMatching(rows, p, lo, hi);
    } else if rows != [] {
      RowOkHead(w, rows[0]);
      RowOkHead(w, rows[if hi > 0 then hi - 1 else 0]);
    }
  }

  lemma RowOkHead(w: Schema, r: Cells)
    requires w != [] && w[0] == 8 && RowOk(w, r)
    ensures r != [] && r[0] < U64
  {
    ColumnBound(w, r, 0);
  }

  lemma {:induction false} MatchingMember(rows: seq<Cells>, p: Cells -> bool, r: Cells)
    ensures r in Matching(rows, p) <==> r in rows && p(r)
  {
    if rows != [] {
      var n := |rows| - 1;
      MatchingMember(rows[..n], p, r);
      assert rows == rows[..n] + [rows[n]];
    }
  }

  lemma {:induction false} MatchingAscends(rows: seq<Cells>, p: Cells -> bool)
    requires forall i, j :: 0 <= i < j < |rows| ==> LexLess(rows[i], rows[j])
    ensures var m := Matching(rows, p); forall i, j :: 0 <= i < j < |m| ==> LexLess(m[i], m[j])
  {
    hide LexLess;
    if rows != [] {
      var n := |rows| - 1;
      MatchingAscends(rows[..n], p);
      var m := Matching(rows[..n], p);
      forall i | 0 <= i < |m| ensures LexLess(m[i], rows[n]) {
        MatchingMember(rows[..n], p, m[i]);
        var k :| 0 <= k < n && rows[k] == m[i];
      }
    }
  }

  // ---------------------------------------------------------------- point lookups

  /** The binary search of `sym_meta`, `type_of`, `sig_of` and `file_path`: a row of the key,
      or nothing exactly when the table has none. */
  method Lookup(w: Schema, table: seq<byte>, n: nat, k: nat, ghost rows: seq<Cells>) returns (r: Option<Cells>)
    requires w != [] && TableOk(w, rows) && n == |rows| && Holds(w, table, rows) && k < Pow256(w[0])
    ensures r.Some? ==> r.value in rows && r.value[0] == k
    ensures r == None <==> forall i :: 0 <= i < |rows| ==> rows[i][0] != k
  {
    hide LexLess, RowBytes, Pow256, BigEndian;
    var key := BigEndian(w[0], k);
    var lo, hi := 0, n;
    while lo < hi
      invariant 0 <= lo <= hi <= n
      invariant forall i :: 0 <= i < lo ==> rows[i][0] < k
      invariant forall i :: hi <= i < n ==> rows[i][0] > k
    {
      var mid := (lo + hi) / 2;
      var slot := Slot(w, table, mid, n);
      HeadBytes(w, rows[mid]);
      var head := slot[..w[0]];
      BigEndianOrder(w[0], rows[mid][0], k);
      DecodeRow(w, rows[mid]);
      if head == key {
        assert rows[mid] in rows;
        return Some(Decode(w, slot));
      } else if LexLess(head, key) {
        forall i | 0 <= i <= mid ensures rows[i][0] < k { HeadsAscend(w, rows, i, mid); }
        lo := mid + 1;
      } else {
        forall i | mid <= i < n ensures rows[i][0] > k { HeadsAscend(w, rows, mid, i); }
        hi := mid;
      }
    }
    return None;
  }

  lemma HeadBytes(w: Schema, r: Cells)
    requires w != [] && RowOk(w, r)
    ensures w[0] <= Stride(w) && RowBytes(w, r)[..w[0]] == BigEndian(w[0], r[0])
  {
  }

  lemma HeadsAscend(w: Schema, rows: seq<Cells>, i: nat, j: nat)
    requires w != [] && TableOk(w, rows) && i <= j < |rows|
    ensures rows[i] != [] && rows[j] != [] && rows[i][0] <= rows[j][0]
  {
    if i < j { assert LexLess(rows[i], rows[j]); }
  }
}
