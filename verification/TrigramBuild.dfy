/** `build_trigram_index`: the memory-bounded two-pass construction of the trigram
    dictionary and the postings blob.

    The source's `visit` closure streams the names table and calls back once per
    (trigram, row); here it returns the sequence of those calls, and each pass is a
    loop over it that keeps per-trigram running state. */
module TrigramBuild {
  import opened Bytes
  import opened Varint
  import opened TrigramSpec
  import Order

  datatype Call = Call(tri: Tri, row: nat)

  // ---------------------------------------------------------------- the call trace

  /** Rows never decrease along the trace, and it calls back for exactly the
      (trigram, row) pairs that occur. */
  ghost predicate TraceOk(calls: seq<Call>, rows: seq<NameRow>)
  {
    && RowMajor(calls)
    && (forall c :: c in calls ==> c.row < |rows| && HasTri(LowerAll(rows[c.row].name), c.tri))
    && (forall r, i: nat :: 0 <= r < |rows| && i + 2 < |rows[r].name| ==>
          Call(TriAt(LowerAll(rows[r].name), i), r) in calls)
  }

  /** The windows of one row, skipping consecutive repeats. */
  method VisitRow(name: seq<byte>, row: nat) returns (calls: seq<Call>)
    ensures forall c :: c in calls ==> c.row == row && HasTri(LowerAll(name), c.tri)
    ensures forall i: nat :: i + 2 < |name| ==> Call(TriAt(LowerAll(name), i), row) in calls
  {
    calls := [];
    if |name| < 3 { return; }
    var lower := LowerAll(name);
    var lastTri: Option<Tri> := None;
    for i := 0 to |lower| - 2
      invariant lastTri == if i == 0 then None else Some(TriAt(lower, i - 1))
      invariant forall c :: c in calls ==> c.row == row && HasTri(lower, c.tri)
      invariant forall k: nat :: k < i ==> Call(TriAt(lower, k), row) in calls
    {
      var tri := TriAt(lower, i);
      if lastTri != Some(tri) {
        calls := calls + [Call(tri, row)];
      }
      lastTri := Some(tri);
    }
  }

  method Visit(rows: seq<NameRow>) returns (calls: seq<Call>)
    ensures TraceOk(calls, rows)
  {
    calls := [];
    for r := 0 to |rows|
      invariant forall i, j :: 0 <= i < j < |calls| ==> calls[i].row <= calls[j].row
      invariant forall c :: c in calls ==> c.row < r && HasTri(LowerAll(rows[c.row].name), c.tri)
      invariant forall q, i: nat :: 0 <= q < r && i + 2 < |rows[q].name| ==>
          Call(TriAt(LowerAll(rows[q].name), i), q) in calls
    {
      var these := VisitRow(rows[r].name, r);
      ghost var was := calls;
      ghost var all: seq<Call> := was + these;
      forall i, j | 0 <= i < j < |all| ensures all[i].row <= all[j].row {
        if i < |was| { assert was[i] in was; }
        if i >= |was| { assert these[i - |was|] in these; }
        if j >= |was| { assert these[j - |was|] in these; }
      }
      calls := calls + these;
    }
  }

  /** The postings a pass accepts for `t` from the first `n` calls: a repeat of the
      row accepted last is dropped. */
  ghost function RowsOf(calls: seq<Call>, t: Tri, n: nat): seq<nat>
    requires n <= |calls|
  {
    if n == 0 then []
    else
      var before := RowsOf(calls, t, n - 1);
      if calls[n - 1].tri == t && (before == [] || before[|before| - 1] != calls[n - 1].row)
      then before + [calls[n - 1].row] else before
  }

  ghost predicate RowMajor(calls: seq<Call>)
  {
    forall i, j :: 0 <= i < j < |calls| ==> calls[i].row <= calls[j].row
  }

  lemma {:induction false} RowsOfAscending(calls: seq<Call>, t: Tri, n: nat)
    requires n <= |calls| && RowMajor(calls)
    ensures Ascending(RowsOf(calls, t, n))
    ensures forall k :: 0 <= k < |RowsOf(calls, t, n)| ==> n != 0 && RowsOf(calls, t, n)[k] <= calls[n - 1].row
  {
    if n != 0 {
      RowsOfAscending(calls, t, n - 1);
    }
  }

  lemma {:induction false} RowsOfMembers(calls: seq<Call>, t: Tri, n: nat, r: nat)
    requires n <= |calls|
    ensures r in RowsOf(calls, t, n) <==> Call(t, r) in calls[..n]
  {
    if n != 0 {
      RowsOfMembers(calls, t, n - 1, r);
      assert calls[..n] == calls[..n - 1] + [calls[n - 1]];
    }
  }

  lemma {:induction false} RowsOfExtends(calls: seq<Call>, t: Tri, n: nat, m: nat)
    requires n <= m <= |calls|
    ensures RowsOf(calls, t, n) <= RowsOf(calls, t, m)
  {
    if n < m { RowsOfExtends(calls, t, n, m - 1); }
  }

  lemma AcceptedMember(calls: seq<Call>, rows: seq<NameRow>, t: Tri, r: nat)
    requires TraceOk(calls, rows)
    ensures r in RowsOf(calls, t, |calls|) <==> r < |rows| && HasTri(LowerAll(rows[r].name), t)
  {
    RowsOfMembers(calls, t, |calls|, r);
    assert calls[..|calls|] == calls;
    if r < |rows| && HasTri(LowerAll(rows[r].name), t) {
      var i: nat :| i + 2 < |LowerAll(rows[r].name)| && TriAt(LowerAll(rows[r].name), i) == t;
      assert Call(TriAt(LowerAll(rows[r].name), i), r) in calls;
    }
  }

  /** The accepted postings of the whole trace are exactly the posting list. */
  lemma AcceptedIsPostings(calls: seq<Call>, rows: seq<NameRow>, t: Tri)
    requires TraceOk(calls, rows)
    ensures RowsOf(calls, t, |calls|) == AllPostings(rows, t)
  {
    var ids, spec := RowsOf(calls, t, |calls|), AllPostings(rows, t);
    RowsOfAscending(calls, t, |calls|);
    forall r: nat ensures r in ids <==> r in spec {
      AcceptedMember(calls, rows, t, r);
    }
    Order.AscendingUnique((x: nat, y: nat) => x < y, ids, spec);
  }

  // ---------------------------------------------------------------- pass 1

  /** Per-trigram running totals: postings, packed bytes, last row. */
  datatype Acc = Acc(count: nat, blockBytes: nat, last: nat)

  ghost predicate AccOk(acc: map<Tri, Acc>, t: Tri, ids: seq<nat>)
  {
    && Ascending(ids)
    && (t in acc <==> ids != [])
    && (ids != [] ==> acc[t] == Acc(|ids|, |Packed(ids, |ids|)|, ids[|ids| - 1]))
  }

  ghost predicate AccAfter(calls: seq<Call>, acc: map<Tri, Acc>, t: Tri, n: nat)
    requires n <= |calls|
  {
    AccOk(acc, t, RowsOf(calls, t, n))
  }

  /** One callback of the counting pass. */
  method Count(a: Acc, row: nat, ghost ids: seq<nat>) returns (r: Acc)
    requires Ascending(ids)
    requires if ids == [] then a.count == 0 && a.blockBytes == 0
             else a == Acc(|ids|, |Packed(ids, |ids|)|, ids[|ids| - 1]) && ids[|ids| - 1] < row
    ensures Ascending(ids + [row])
    ensures r == Acc(|ids| + 1, |Packed(ids + [row], |ids| + 1)|, row)
  {
    ghost var more := ids + [row];
    PackedPrefix(ids, more, |ids|);
    var delta := if a.count % BLOCK == 0 then row else row - a.last;
    assert delta == Delta(more, |ids|);
    var n := Length(delta);
    r := Acc(a.count + 1, a.blockBytes + n, row);
  }

  /** One more call changes the totals of its own trigram only. */
  lemma CallCounted(calls: seq<Call>, was: map<Tri, Acc>, acc: map<Tri, Acc>, n: nat, t: Tri)
    requires n < |calls| && AccAfter(calls, was, t, n)
    requires t != calls[n].tri ==> (t in acc <==> t in was) && (t in acc ==> acc[t] == was[t])
    requires t == calls[n].tri ==> AccOk(acc, t, RowsOf(calls, t, n + 1))
    ensures AccAfter(calls, acc, t, n + 1)
  {
    hide Packed;
  }

  /** The totals of one trigram after a call for it. */
  method CountCall(calls: seq<Call>, n: nat, was: map<Tri, Acc>) returns (acc: map<Tri, Acc>)
    requires RowMajor(calls) && n < |calls| && AccAfter(calls, was, calls[n].tri, n)
    ensures AccOk(acc, calls[n].tri, RowsOf(calls, calls[n].tri, n + 1))
    ensures forall t | t != calls[n].tri :: (t in acc <==> t in was) && (t in acc ==> acc[t] == was[t])
  {
    hide Packed;
    var tri, row := calls[n].tri, calls[n].row;
    ghost var ids := RowsOf(calls, tri, n);
    RowsOfAscending(calls, tri, n);
    acc := was;
    var a := if tri in acc then acc[tri] else Acc(0, 0, U32 - 1);
    if a.count == 0 || a.last != row {
      var b := Count(a, row, ids);
      acc := acc[tri := b];
      assert RowsOf(calls, tri, n + 1) == ids + [row];
    }
  }

  method Pass1(calls: seq<Call>) returns (acc: map<Tri, Acc>)
    requires RowMajor(calls)
    ensures forall t :: AccAfter(calls, acc, t, |calls|)
  {
    acc := map[];
    assert forall t :: AccAfter(calls, acc, t, 0);
    hide AccAfter, AccOk, RowsOf, RowMajor;
    for n := 0 to |calls|
      invariant forall t :: AccAfter(calls, acc, t, n)
    {
      ghost var was := acc;
      assert AccAfter(calls, acc, calls[n].tri, n);
      acc := CountCall(calls, n, acc);
      ghost var m := n + 1;
      forall t: Tri ensures AccAfter(calls, acc, t, m) {
        assert AccAfter(calls, was, t, n);
        CallCounted(calls, was, acc, n, t);
      }
    }
  }

  // ---------------------------------------------------------------- offsets

  lemma TriOrder()
    ensures Order.StrictOrder(TriLess)
  {
  }

  method Keys(s: set<Tri>) returns (keys: seq<Tri>)
    ensures forall t :: t in keys <==> t in s
    ensures forall i, j :: 0 <= i < j < |keys| ==> TriLess(keys[i], keys[j])
  {
    var rest := s;
    var any: seq<Tri> := [];
    while rest != {}
      invariant forall t :: t in s <==> t in any || t in rest
    {
      var t :| t in rest;
      any, rest := any + [t], rest - {t};
    }
    TriOrder();
    keys := Order.SortDedup(TriLess, any);
  }

  lemma TilesEmpty()
    ensures Tiles([], 0)
  {
  }

  lemma TilesExtend(dict: seq<DictRow>, total: nat, row: DictRow)
    requires Tiles(dict, total) && row.postOff == total
    ensures Tiles(dict + [row], total + row.postLen)
  {
  }

  ghost predicate Described(row: DictRow, rows: seq<NameRow>)
  {
    var ids := AllPostings(rows, row.tri);
    ids != [] && row.count == |ids| && row.postLen == RegionLength(ids) < U32
  }

  /** The dictionary row of one trigram: `region_len as u32` does not truncate. */
  method RowFor(tri: Tri, a: Acc, total: nat, ghost rows: seq<NameRow>) returns (row: DictRow)
    requires IndexFits(rows) && AllPostings(rows, tri) != []
    requires a.count == |AllPostings(rows, tri)|
    requires a.blockBytes == |Packed(AllPostings(rows, tri), |AllPostings(rows, tri)|)|
    ensures row.tri == tri && row.postOff == total && Described(row, rows)
  {
    var regionLen := Blocks(a.count) * SKIP_ENTRY + a.blockBytes;
    row := DictRow(tri, total, regionLen % U32, a.count);
  }

  /** Assign each trigram its region, in key order; `total` sizes the blob. */
  method Assign(acc: map<Tri, Acc>, ghost rows: seq<NameRow>) returns (dict: seq<DictRow>, total: nat)
    requires IndexFits(rows)
    requires forall t :: AccOk(acc, t, AllPostings(rows, t))
    ensures forall i, j :: 0 <= i < j < |dict| ==> TriLess(dict[i].tri, dict[j].tri)
    ensures forall t :: AllPostings(rows, t) != [] ==> Keyed(dict, t)
    ensures forall i :: 0 <= i < |dict| ==> Described(dict[i], rows)
    ensures Tiles(dict, total)
  {
    hide Described, AllPostings, Packed, Tiles;
    var keys := Keys(acc.Keys);
    TilesEmpty();
    dict, total := [], 0;
    for k := 0 to |keys|
      invariant |dict| == k
      invariant forall i :: 0 <= i < k ==> dict[i].tri == keys[i]
      invariant forall i :: 0 <= i < k ==> Described(dict[i], rows)
      invariant Tiles(dict, total)
    {
      assert keys[k] in keys;
      assert AccOk(acc, keys[k], AllPostings(rows, keys[k]));
      var row := RowFor(keys[k], acc[keys[k]], total, rows);
      TilesExtend(dict, total, row);
      dict, total := dict + [row], total + row.postLen;
    }
    forall t | AllPostings(rows, t) != [] ensures Keyed(dict, t) {
      assert AccOk(acc, t, AllPostings(rows, t));
      assert t in keys;
    }
  }

  /** Tiled regions do not overlap. */
  lemma {:induction false} TilesDisjoint(dict: seq<DictRow>, total: nat, i: nat, j: nat)
    requires Tiles(dict, total) && i < j < |dict|
    ensures dict[i].postOff + dict[i].postLen <= dict[j].postOff
    ensures dict[j].postOff + dict[j].postLen <= total
    decreases j - i, |dict| - j
  {
    if j - 1 > i { TilesDisjoint(dict, total, i, j - 1); }
    TilesInside(dict, total, j);
  }

  lemma {:induction false} TilesInside(dict: seq<DictRow>, total: nat, j: nat)
    requires Tiles(dict, total) && j < |dict|
    ensures dict[j].postOff + dict[j].postLen <= total
    decreases |dict| - j
  {
    if j + 1 < |dict| { TilesInside(dict, total, j + 1); }
  }

  // ---------------------------------------------------------------- pass 2

  /** `q` with `s` written over it at `pos`. */
  function Put(q: seq<byte>, pos: nat, s: seq<byte>): (r: seq<byte>)
    requires pos + |s| <= |q|
    ensures |r| == |q|
    ensures BytesAt(r, pos, s)
  {
    q[..pos] + s + q[pos + |s|..]
  }

  lemma PutElsewhere(q: seq<byte>, pos: nat, s: seq<byte>, p: nat, t: seq<byte>)
    requires pos + |s| <= |q| && BytesAt(q, p, t)
    requires p + |t| <= pos || pos + |s| <= p
    ensures BytesAt(Put(q, pos, s), p, t)
  {
    var r := Put(q, pos, s);
    assert r[p..p + |t|] == q[p..p + |t|];
  }

  method CopyFrom(a: array<byte>, pos: nat, s: seq<byte>)
    requires pos + |s| <= a.Length
    modifies a
    ensures a[..] == Put(old(a[..]), pos, s)
  {
    for i := 0 to |s|
      invariant forall k :: 0 <= k < i ==> a[pos + k] == s[k]
      invariant forall k :: 0 <= k < a.Length && !(pos <= k < pos + i) ==> a[k] == old(a[k])
    {
      a[pos + i] := s[i];
    }
  }

  /** The in-place varint loop of pass 2. */
  method PutVarint(a: array<byte>, pos: nat, v: nat) returns (next: nat)
    requires pos + |Encode(v)| <= a.Length
    modifies a
    ensures a[..] == Put(old(a[..]), pos, Encode(v))
    ensures next == pos + |Encode(v)|
  {
    next := pos;
    var rest := v;
    ghost var done: seq<byte> := [];
    assert a[..] == Put(a[..], pos, done);
    hide Put;
    while rest >= 128
      invariant done + Encode(rest) == Encode(v) && next == pos + |done|
      invariant a[..] == Put(old(a[..]), pos, done)
    {
      ghost var b := rest % 128 + 128;
      assert done + Encode(rest) == done + [b] + Encode(rest / 128);
      PutOneMore(old(a[..]), pos, done, b, a[..]);
      a[next] := rest % 128 + 128;
      done := done + [b];
      next := next + 1;
      rest := rest / 128;
    }
    PutOneMore(old(a[..]), pos, done, rest, a[..]);
    a[next] := rest;
    next := next + 1;
  }

  lemma PutOneMore(q: seq<byte>, pos: nat, done: seq<byte>, b: byte, now: seq<byte>)
    requires pos + |done| < |q| && now == Put(q, pos, done)
    ensures now[pos + |done| := b] == Put(q, pos, done + [b])
  {
  }

  /** Per-trigram write state: postings written, next packed byte, last row. */
  datatype W = W(written: nat, cursor: nat, last: nat)

  ghost predicate WOk(wst: map<Tri, W>, t: Tri, off: nat, ids: seq<nat>, w: nat)
  {
    && Ascending(ids) && w <= |ids|
    && (t in wst <==> w != 0)
    && (w != 0 ==>
          wst[t] == W(w, off + PackedAt(ids, w), ids[w - 1]))
  }

  ghost predicate Fits(ids: seq<nat>)
  {
    && Ascending(ids)
    && RegionLength(ids) < U32
    && (forall k :: 0 <= k < |ids| ==> ids[k] < U32)
  }

  /** Where posting `w` lands: its skip entry lies in the skip table, its gap-delta
      behind the earlier ones. */
  ghost function EntryAt(w: nat): nat { w / BLOCK * SKIP_ENTRY }

  ghost function PackedAt(ids: seq<nat>, w: nat): nat
    requires Ascending(ids) && w <= |ids|
  {
    SKIP_ENTRY * Blocks(|ids|) + |Packed(ids, w)|
  }

  lemma Geometry(ids: seq<nat>, w: nat)
    requires Ascending(ids) && w < |ids|
    ensures EntryAt(w) + 8 <= SKIP_ENTRY * Blocks(|ids|)
    ensures PackedAt(ids, w) + |Encode(Delta(ids, w))| <= RegionLength(ids)
  {
    PackedExtends(ids, w + 1, |ids|);
  }

  /** Three writes, the first of them optional. */
  function Put3(q: seq<byte>, first: bool, p1: nat, s1: seq<byte>, p2: nat, s2: seq<byte>, p3: nat, s3: seq<byte>)
    : (r: seq<byte>)
    requires p1 + |s1| <= |q| && p2 + |s2| <= |q| && p3 + |s3| <= |q|
    ensures |r| == |q|
    ensures BytesAt(r, p3, s3)
  {
    Put(Put(if first then Put(q, p1, s1) else q, p2, s2), p3, s3)
  }

  lemma Put3Elsewhere(q: seq<byte>, first: bool, p1: nat, s1: seq<byte>, p2: nat, s2: seq<byte>,
                      p3: nat, s3: seq<byte>, p: nat, t: seq<byte>)
    requires p1 + |s1| <= |q| && p2 + |s2| <= |q| && p3 + |s3| <= |q|
    requires BytesAt(q, p, t)
    requires first ==> p + |t| <= p1 || p1 + |s1| <= p
    requires p + |t| <= p2 || p2 + |s2| <= p
    requires p + |t| <= p3 || p3 + |s3| <= p
    ensures BytesAt(Put3(q, first, p1, s1, p2, s2, p3, s3), p, t)
  {
    var q1 := if first then Put(q, p1, s1) else q;
    if first { PutElsewhere(q, p1, s1, p, t); }
    PutElsewhere(q1, p2, s2, p, t);
    PutElsewhere(Put(q1, p2, s2), p3, s3, p, t);
  }

  /** The first two writes survive the later ones when those land elsewhere. */
  lemma Put3Lands(q: seq<byte>, first: bool, p1: nat, s1: seq<byte>, p2: nat, s2: seq<byte>, p3: nat, s3: seq<byte>)
    requires p1 + |s1| <= |q| && p2 + |s2| <= |q| && p3 + |s3| <= |q|
    requires p1 + |s1| <= p2 && p3 + |s3| <= p1
    ensures BytesAt(Put3(q, first, p1, s1, p2, s2, p3, s3), p2, s2)
    ensures first ==> BytesAt(Put3(q, first, p1, s1, p2, s2, p3, s3), p1, s1)
  {
    var q1 := if first then Put(q, p1, s1) else q;
    PutElsewhere(Put(q1, p2, s2), p3, s3, p2, s2);
    if first {
      PutElsewhere(q1, p2, s2, p1, s1);
      PutElsewhere(Put(q1, p2, s2), p3, s3, p1, s1);
    }
  }

  /** The bytes one posting contributes: the block's offset when it opens a block, its
      gap-delta, and the block's running maximum. */
  ghost function StepBytes(q: seq<byte>, off: nat, ids: seq<nat>, w: nat): (r: seq<byte>)
    requires Fits(ids) && w < |ids| && off + RegionLength(ids) <= |q|
    ensures |r| == |q|
  {
    Geometry(ids, w);
    Put3(q, w % BLOCK == 0, off + EntryAt(w) + 4, Word(PackedAt(ids, w)),
         off + PackedAt(ids, w), Encode(Delta(ids, w)), off + EntryAt(w), Word(ids[w]))
  }

  lemma StepKeeps(q: seq<byte>, off: nat, ids: seq<nat>, w: nat, p: nat, t: seq<byte>)
    requires Fits(ids) && w < |ids| && off + RegionLength(ids) <= |q|
    requires BytesAt(q, p, t)
    requires p + |t| <= off + EntryAt(w) || off + EntryAt(w) + 8 <= p
    requires p + |t| <= off + PackedAt(ids, w) || off + PackedAt(ids, w) + |Encode(Delta(ids, w))| <= p
    ensures BytesAt(StepBytes(q, off, ids, w), p, t)
  {
    hide Put3, Packed, Encode, BytesAt;
    Geometry(ids, w);
    Put3Elsewhere(q, w % BLOCK == 0, off + EntryAt(w) + 4, Word(PackedAt(ids, w)),
         off + PackedAt(ids, w), Encode(Delta(ids, w)), off + EntryAt(w), Word(ids[w]), p, t);
  }

  lemma StepLands(q: seq<byte>, off: nat, ids: seq<nat>, w: nat)
    requires Fits(ids) && w < |ids| && off + RegionLength(ids) <= |q|
    ensures BytesAt(StepBytes(q, off, ids, w), off + EntryAt(w), Word(ids[w]))
    ensures BytesAt(StepBytes(q, off, ids, w), off + PackedAt(ids, w), Encode(Delta(ids, w)))
    ensures PackedAt(ids, w) < U32
    ensures w % BLOCK == 0 ==>
      BytesAt(StepBytes(q, off, ids, w), off + EntryAt(w) + 4, Word(PackedAt(ids, w)))
  {
    Geometry(ids, w);
    Put3Lands(q, w % BLOCK == 0, off + EntryAt(w) + 4, Word(PackedAt(ids, w)),
         off + PackedAt(ids, w), Encode(Delta(ids, w)), off + EntryAt(w), Word(ids[w]));
  }

  lemma StepPacked(q: seq<byte>, off: nat, ids: seq<nat>, w: nat)
    requires Fits(ids) && w < |ids| && RegionPartial(q, off, ids, w)
    ensures BytesAt(StepBytes(q, off, ids, w), off + SKIP_ENTRY * Blocks(|ids|), Packed(ids, w + 1))
  {
    hide Put3, StepBytes, Encode;
    Geometry(ids, w);
    StepLands(q, off, ids, w);
    var base := off + SKIP_ENTRY * Blocks(|ids|);
    StepKeeps(q, off, ids, w, base, Packed(ids, w));
    BytesAtConcat(StepBytes(q, off, ids, w), base, Packed(ids, w), Encode(Delta(ids, w)));
  }

  lemma StepEntryOpen(q: seq<byte>, off: nat, ids: seq<nat>, w: nat)
    requires Fits(ids) && w < |ids| && RegionPartial(q, off, ids, w)
    ensures EntryOk(StepBytes(q, off, ids, w), off, ids, w + 1, w / BLOCK)
  {
    Geometry(ids, w);
    StepLands(q, off, ids, w);
    var b := w / BLOCK;
    assert BlockMax(ids, w + 1, b) == ids[w];
    if w % BLOCK == 0 {
      assert b * BLOCK == w && BlockOffset(ids, b) == PackedAt(ids, w);
    } else {
      assert EntryOk(q, off, ids, w, b);
      StepKeepsOffset(q, off, ids, w);
    }
  }

  /** A posting that does not open a block leaves its block's offset alone. */
  lemma StepKeepsOffset(q: seq<byte>, off: nat, ids: seq<nat>, w: nat)
    requires Fits(ids) && w < |ids| && RegionPartial(q, off, ids, w) && w % BLOCK != 0
    requires BlockOffset(ids, w / BLOCK) < U32
    requires BytesAt(q, off + w / BLOCK * SKIP_ENTRY + 4, Word(BlockOffset(ids, w / BLOCK)))
    ensures BytesAt(StepBytes(q, off, ids, w), off + w / BLOCK * SKIP_ENTRY + 4, Word(BlockOffset(ids, w / BLOCK)))
  {
    Geometry(ids, w);
    Put3Elsewhere(q, false, off + EntryAt(w) + 4, Word(PackedAt(ids, w)),
         off + PackedAt(ids, w), Encode(Delta(ids, w)), off + EntryAt(w), Word(ids[w]),
         off + w / BLOCK * SKIP_ENTRY + 4, Word(BlockOffset(ids, w / BLOCK)));
  }

  lemma StepEntryClosed(q: seq<byte>, off: nat, ids: seq<nat>, w: nat, b: nat)
    requires Fits(ids) && w < |ids| && RegionPartial(q, off, ids, w) && b < w / BLOCK
    ensures EntryOk(StepBytes(q, off, ids, w), off, ids, w + 1, b)
  {
    Geometry(ids, w);
    assert EntryOk(q, off, ids, w, b);
    assert BlockMax(ids, w + 1, b) == BlockMax(ids, w, b);
    StepKeeps(q, off, ids, w, off + b * SKIP_ENTRY, Word(BlockMax(ids, w, b)));
    StepKeeps(q, off, ids, w, off + b * SKIP_ENTRY + 4, Word(BlockOffset(ids, b)));
  }

  /** Writing posting `w` takes the region from `w` postings to `w + 1`. */
  lemma StepRegion(q: seq<byte>, off: nat, ids: seq<nat>, w: nat)
    requires Fits(ids) && w < |ids| && RegionPartial(q, off, ids, w)
    ensures RegionPartial(StepBytes(q, off, ids, w), off, ids, w + 1)
  {
    StepPacked(q, off, ids, w);
    var r, w1 := StepBytes(q, off, ids, w), w + 1;
    forall b: nat | b < Blocks(w1) ensures EntryOk(r, off, ids, w1, b) {
      if b < w / BLOCK { StepEntryClosed(q, off, ids, w, b); } else { StepEntryOpen(q, off, ids, w); }
    }
  }

  lemma StepEntryElsewhere(q: seq<byte>, off: nat, ids: seq<nat>, w: nat, off': nat, ids': seq<nat>, w': nat, b: nat)
    requires Fits(ids) && w < |ids| && off + RegionLength(ids) <= |q|
    requires Ascending(ids') && w' <= |ids'| && b < Blocks(w') && EntryOk(q, off', ids', w', b)
    requires off + RegionLength(ids) <= off' || off' + RegionLength(ids') <= off
    ensures EntryOk(StepBytes(q, off, ids, w), off', ids', w', b)
  {
    Geometry(ids, w);
    assert b * SKIP_ENTRY + 8 <= SKIP_ENTRY * Blocks(|ids'|);
    hide Packed, StepBytes, Delta;
    StepKeeps(q, off, ids, w, off' + b * SKIP_ENTRY, Word(BlockMax(ids', w', b)));
    StepKeeps(q, off, ids, w, off' + b * SKIP_ENTRY + 4, Word(BlockOffset(ids', b)));
  }

  /** A step inside one region leaves every disjoint region as it was. */
  lemma StepElsewhere(q: seq<byte>, off: nat, ids: seq<nat>, w: nat, off': nat, ids': seq<nat>, w': nat)
    requires Fits(ids) && w < |ids| && off + RegionLength(ids) <= |q|
    requires RegionPartial(q, off', ids', w')
    requires off + RegionLength(ids) <= off' || off' + RegionLength(ids') <= off
    ensures RegionPartial(StepBytes(q, off, ids, w), off', ids', w')
  {
    Geometry(ids, w);
    PackedExtends(ids', w', |ids'|);
    StepKeeps(q, off, ids, w, off' + SKIP_ENTRY * Blocks(|ids'|), Packed(ids', w'));
    var r := StepBytes(q, off, ids, w);
    forall b: nat | b < Blocks(w') ensures EntryOk(r, off', ids', w', b) {
      StepEntryElsewhere(q, off, ids, w, off', ids', w', b);
    }
  }

  /** The three writes of one callback, in place. */
  method Put3InPlace(post: array<byte>, first: bool, p1: nat, s1: seq<byte>, p2: nat, v: nat, p3: nat, s3: seq<byte>)
    returns (next: nat)
    requires p1 + |s1| <= post.Length && p2 + |Encode(v)| <= post.Length && p3 + |s3| <= post.Length
    modifies post
    ensures post[..] == Put3(old(post[..]), first, p1, s1, p2, Encode(v), p3, s3)
    ensures next == p2 + |Encode(v)|
  {
    if first { CopyFrom(post, p1, s1); }
    next := PutVarint(post, p2, v);
    CopyFrom(post, p3, s3);
  }

  /** One callback of the writing pass. */
  method WritePosting(post: array<byte>, off: nat, s: W, row: nat, ghost ids: seq<nat>) returns (r: W)
    requires Fits(ids) && s.written < |ids| && row == ids[s.written]
    requires off + RegionLength(ids) <= post.Length
    requires s.cursor == off + PackedAt(ids, s.written)
    requires s.written != 0 ==> s.last == ids[s.written - 1]
    modifies post
    ensures post[..] == StepBytes(old(post[..]), off, ids, s.written)
    ensures r == W(s.written + 1, off + PackedAt(ids, s.written + 1), row)
  {
    hide Put3, Encode, BytesAt;
    Geometry(ids, s.written);
    var atBlockStart := s.written % BLOCK == 0;
    var skipEntry := off + s.written / BLOCK * SKIP_ENTRY;
    var delta := if atBlockStart then row else row - s.last;
    assert delta == Delta(ids, s.written);
    var cursor := Put3InPlace(post, atBlockStart, skipEntry + 4, Word(s.cursor - off), s.cursor, delta, skipEntry, Word(row));
    r := W(s.written + 1, cursor, row);
  }

  lemma PostingsFit(rows: seq<NameRow>, t: Tri)
    requires IndexFits(rows)
    ensures Fits(AllPostings(rows, t))
  {
  }

  /** Dictionary row `i` after the first `n` calls of the writing pass: its write state
      and its region account for exactly the postings accepted so far. */
  ghost predicate Wrote(calls: seq<Call>, rows: seq<NameRow>, row: DictRow, wst: map<Tri, W>, post: seq<byte>, n: nat)
    requires n <= |calls|
  {
    var ids, w := AllPostings(rows, row.tri), |RowsOf(calls, row.tri, n)|;
    WOk(wst, row.tri, row.postOff, ids, w) && RegionPartial(post, row.postOff, ids, w)
  }

  /** What the next call means for its own trigram. */
  lemma NextPosting(calls: seq<Call>, rows: seq<NameRow>, n: nat)
    requires n < |calls| && TraceOk(calls, rows)
    ensures var t, row := calls[n].tri, calls[n].row;
            var ids, before := AllPostings(rows, t), RowsOf(calls, t, n);
            && before <= ids
            && (before == [] || before[|before| - 1] != row ==>
                  RowsOf(calls, t, n + 1) == before + [row] && |before| < |ids| && ids[|before|] == row)
  {
    var t := calls[n].tri;
    AcceptedIsPostings(calls, rows, t);
    RowsOfExtends(calls, t, n, |calls|);
    RowsOfExtends(calls, t, n + 1, |calls|);
  }

  lemma WroteStart(calls: seq<Call>, rows: seq<NameRow>, row: DictRow, post: seq<byte>)
    requires Described(row, rows) && row.postOff + row.postLen <= |post|
    ensures Wrote(calls, rows, row, map[], post, 0)
  {
  }

  lemma WroteStep(calls: seq<Call>, rows: seq<NameRow>, row: DictRow, wst: map<Tri, W>, post: seq<byte>, n: nat, r: W)
    requires n < |calls| && TraceOk(calls, rows) && IndexFits(rows)
    requires Wrote(calls, rows, row, wst, post, n) && calls[n].tri == row.tri
    requires var before := RowsOf(calls, row.tri, n);
             before == [] || before[|before| - 1] != calls[n].row
    requires Fits(AllPostings(rows, row.tri))
    requires |RowsOf(calls, row.tri, n)| < |AllPostings(rows, row.tri)|
    requires r == W(|RowsOf(calls, row.tri, n)| + 1,
                    row.postOff + PackedAt(AllPostings(rows, row.tri), |RowsOf(calls, row.tri, n)| + 1), calls[n].row)
    ensures Wrote(calls, rows, row, wst[row.tri := r],
                  StepBytes(post, row.postOff, AllPostings(rows, row.tri), |RowsOf(calls, row.tri, n)|), n + 1)
  {
    hide StepBytes, Packed;
    NextPosting(calls, rows, n);
    StepRegion(post, row.postOff, AllPostings(rows, row.tri), |RowsOf(calls, row.tri, n)|);
  }

  lemma WroteElsewhere(calls: seq<Call>, rows: seq<NameRow>, row: DictRow, wst: map<Tri, W>, post: seq<byte>, n: nat,
                       at: DictRow, w: nat, r: W)
    requires n < |calls| && Wrote(calls, rows, row, wst, post, n)
    requires Fits(AllPostings(rows, at.tri)) && w < |AllPostings(rows, at.tri)|
    requires Described(row, rows) && Described(at, rows)
    requires at.tri == calls[n].tri != row.tri && at.postOff + at.postLen <= |post|
    requires at.postOff + at.postLen <= row.postOff || row.postOff + row.postLen <= at.postOff
    ensures Wrote(calls, rows, row, wst[at.tri := r], StepBytes(post, at.postOff, AllPostings(rows, at.tri), w), n + 1)
  {
    hide StepBytes, Packed;
    StepElsewhere(post, at.postOff, AllPostings(rows, at.tri), w, row.postOff, AllPostings(rows, row.tri),
                  |RowsOf(calls, row.tri, n)|);
  }

  /** The finished dictionary, before the blob is written. */
  ghost predicate DictOk(rows: seq<NameRow>, dict: seq<DictRow>, total: nat)
  {
    && IndexFits(rows)
    && (forall i, j :: 0 <= i < j < |dict| ==> TriLess(dict[i].tri, dict[j].tri))
    && (forall t :: AllPostings(rows, t) != [] ==> Keyed(dict, t))
    && (forall i :: 0 <= i < |dict| ==> Described(dict[i], rows))
    && Tiles(dict, total)
  }

  lemma DictFits(rows: seq<NameRow>, dict: seq<DictRow>, total: nat)
    requires DictOk(rows, dict, total)
    ensures IndexFits(rows)
  {
  }

  lemma DescribedRow(rows: seq<NameRow>, dict: seq<DictRow>, total: nat, i: nat)
    requires DictOk(rows, dict, total) && i < |dict|
    ensures Described(dict[i], rows) && dict[i].postLen == RegionLength(AllPostings(rows, dict[i].tri))
    ensures dict[i].postOff + dict[i].postLen <= total
  {
    TilesInside(dict, total, i);
  }

  lemma DistinctRegions(rows: seq<NameRow>, dict: seq<DictRow>, total: nat, i: nat, j: nat)
    requires DictOk(rows, dict, total) && i < |dict| && j < |dict| && i != j
    ensures dict[i].tri != dict[j].tri
    ensures dict[i].postOff + dict[i].postLen <= dict[j].postOff || dict[j].postOff + dict[j].postLen <= dict[i].postOff
  {
    if i < j { TilesDisjoint(dict, total, i, j); } else { TilesDisjoint(dict, total, j, i); }
  }

  /** `region_of` and `counts`: where a trigram's dictionary row is. */
  method RegionMap(dict: seq<DictRow>) returns (regions: map<Tri, nat>)
    requires forall i, j :: 0 <= i < j < |dict| ==> TriLess(dict[i].tri, dict[j].tri)
    ensures forall i :: 0 <= i < |dict| ==> dict[i].tri in regions && regions[dict[i].tri] == i
  {
    regions := map[];
    for k := 0 to |dict|
      invariant forall i :: 0 <= i < k ==> dict[i].tri in regions && regions[dict[i].tri] == i
    {
      regions := regions[dict[k].tri := k];
    }
  }

  /** One call of the writing pass carries every region from `n` calls to `n + 1`. */
  method WriteCall(post: array<byte>, dict: seq<DictRow>, k: nat, wst: map<Tri, W>, calls: seq<Call>, n: nat,
                   ghost rows: seq<NameRow>) returns (wst': map<Tri, W>)
    requires n < |calls| && TraceOk(calls, rows) && DictOk(rows, dict, post.Length)
    requires k < |dict| && dict[k].tri == calls[n].tri
    requires forall i :: 0 <= i < |dict| ==> Wrote(calls, rows, dict[i], wst, post[..], n)
    modifies post
    ensures forall i :: 0 <= i < |dict| ==> Wrote(calls, rows, dict[i], wst', post[..], n + 1)
  {
    hide Packed, StepBytes, RegionPartial, Described, Encode, Wrote, AllPostings, TraceOk, DictOk, Ascending, RegionLength, Blocks;
    var tri, row, off, count := calls[n].tri, calls[n].row, dict[k].postOff, dict[k].count;
    ghost var ids, w := AllPostings(rows, tri), |RowsOf(calls, tri, n)|;
    ghost var q := post[..];
    CallFacts(post[..], dict, k, wst, calls, n, rows);
    var s := if tri in wst then wst[tri] else W(0, off + Blocks(count) * SKIP_ENTRY, U32 - 1);
    if s.written != 0 && s.last == row {
      wst' := wst;
      RepeatedCall(q, dict, wst, calls, n, rows);
    } else {
      var r := WritePosting(post, off, s, row, ids);
      wst' := wst[tri := r];
      WrittenEverywhere(q, dict, k, wst, calls, n, rows, r);
    }
  }

  /** A call whose row was accepted last changes nothing. */
  lemma RepeatedCall(q: seq<byte>, dict: seq<DictRow>, wst: map<Tri, W>, calls: seq<Call>, n: nat, rows: seq<NameRow>)
    requires n < |calls|
    requires forall i :: 0 <= i < |dict| ==> Wrote(calls, rows, dict[i], wst, q, n)
    requires var before := RowsOf(calls, calls[n].tri, n);
             before != [] && before[|before| - 1] == calls[n].row
    ensures forall i :: 0 <= i < |dict| ==> Wrote(calls, rows, dict[i], wst, q, n + 1)
  {
    var n1 := n + 1;
    forall i | 0 <= i < |dict| ensures Wrote(calls, rows, dict[i], wst, q, n1) {
      assert Wrote(calls, rows, dict[i], wst, q, n);
    }
  }

  lemma CallFacts(post: seq<byte>, dict: seq<DictRow>, k: nat, wst: map<Tri, W>, calls: seq<Call>, n: nat, rows: seq<NameRow>)
    requires n < |calls| && TraceOk(calls, rows) && DictOk(rows, dict, |post|)
    requires k < |dict| && dict[k].tri == calls[n].tri
    requires Wrote(calls, rows, dict[k], wst, post, n)
    ensures var t, off := calls[n].tri, dict[k].postOff;
            var ids, before := AllPostings(rows, t), RowsOf(calls, t, n);
            var w := |before|;
            && Fits(ids) && off + RegionLength(ids) <= |post| && dict[k].count == |ids|
            && PackedAt(ids, 0) == Blocks(|ids|) * SKIP_ENTRY
            && w <= |ids|
            && (t in wst <==> w != 0)
            && (w != 0 ==> wst[t] == W(w, off + PackedAt(ids, w), ids[w - 1]) && before[w - 1] == ids[w - 1])
            && (w == 0 || before[w - 1] != calls[n].row ==> w < |ids| && ids[w] == calls[n].row)
  {
    hide TriLess, RegionPartial, Encode, DictOk, TraceOk, IndexFits;
    DictFits(rows, dict, |post|);
    PostingsFit(rows, calls[n].tri);
    NextPosting(calls, rows, n);
    DescribedRow(rows, dict, |post|, k);
  }

  lemma WrittenEverywhere(q: seq<byte>, dict: seq<DictRow>, k: nat, wst: map<Tri, W>, calls: seq<Call>, n: nat,
                          rows: seq<NameRow>, r: W)
    requires n < |calls| && TraceOk(calls, rows) && DictOk(rows, dict, |q|)
    requires k < |dict| && dict[k].tri == calls[n].tri
    requires forall i :: 0 <= i < |dict| ==> Wrote(calls, rows, dict[i], wst, q, n)
    requires var before := RowsOf(calls, calls[n].tri, n);
             && (before == [] || before[|before| - 1] != calls[n].row)
             && |before| < |AllPostings(rows, calls[n].tri)|
             && r == W(|before| + 1, dict[k].postOff + PackedAt(AllPostings(rows, calls[n].tri), |before| + 1), calls[n].row)
    requires Fits(AllPostings(rows, calls[n].tri)) && dict[k].postOff + RegionLength(AllPostings(rows, calls[n].tri)) <= |q|
    ensures forall i :: 0 <= i < |dict| ==>
      Wrote(calls, rows, dict[i], wst[calls[n].tri := r],
            StepBytes(q, dict[k].postOff, AllPostings(rows, calls[n].tri), |RowsOf(calls, calls[n].tri, n)|), n + 1)
  {
    hide Packed, StepBytes, RegionPartial, Encode, Wrote, Described, Tiles, TraceOk, Blocks;
    var t := calls[n].tri;
    var w := |RowsOf(calls, t, n)|;
    DescribedRow(rows, dict, |q|, k);
    var q' := StepBytes(q, dict[k].postOff, AllPostings(rows, t), w);
    var n1, wst' := n + 1, wst[t := r];
    forall i | 0 <= i < |dict| ensures Wrote(calls, rows, dict[i], wst', q', n1) {
      if i == k {
        NextPosting(calls, rows, n);
        WroteStep(calls, rows, dict[i], wst, q, n, r);
      } else {
        DistinctRegions(rows, dict, |q|, i, k);
        DescribedRow(rows, dict, |q|, i);
        WroteElsewhere(calls, rows, dict[i], wst, q, n, dict[k], w, r);
      }
    }
  }

  method Pass2(calls: seq<Call>, dict: seq<DictRow>, total: nat, ghost rows: seq<NameRow>) returns (post: array<byte>)
    requires TraceOk(calls, rows) && DictOk(rows, dict, total)
    ensures fresh(post) && post.Length == total
    ensures forall i :: 0 <= i < |dict| ==> RowOk(rows, dict[i], post[..])
  {
    hide Packed, RegionPartial, Encode, HasTri;
    post := new byte[total](_ => 0);
    var regions := RegionMap(dict);
    var wst: map<Tri, W> := map[];
    forall i | 0 <= i < |dict| ensures Wrote(calls, rows, dict[i], wst, post[..], 0) {
      TilesInside(dict, total, i);
      WroteStart(calls, rows, dict[i], post[..]);
    }
    for n := 0 to |calls|
      invariant fresh(post) && post.Length == total
      invariant forall i :: 0 <= i < |dict| ==> Wrote(calls, rows, dict[i], wst, post[..], n)
    {
      CallKeyed(calls, rows, dict, total, n);
      var k := regions[calls[n].tri];
      wst := WriteCall(post, dict, k, wst, calls, n, rows);
    }
    forall i | 0 <= i < |dict| ensures RowOk(rows, dict[i], post[..]) {
      AcceptedIsPostings(calls, rows, dict[i].tri);
      assert Wrote(calls, rows, dict[i], wst, post[..], |calls|);
      assert Described(dict[i], rows);
    }
  }

  lemma CallKeyed(calls: seq<Call>, rows: seq<NameRow>, dict: seq<DictRow>, total: nat, n: nat)
    requires TraceOk(calls, rows) && DictOk(rows, dict, total) && n < |calls|
    ensures Keyed(dict, calls[n].tri)
  {
    var c := calls[n];
    assert c in calls;
    assert c.row in AllPostings(rows, c.tri);
  }

  /** The two-pass build produces a faithful index of the names table, for every table
      whose ids and region lengths fit their 32-bit columns. */
  method Build(rows: seq<NameRow>) returns (dict: seq<DictRow>, post: seq<byte>)
    requires IndexFits(rows)
    ensures IndexOk(rows, dict, post)
  {
    hide Described, RegionPartial;
    var calls := Visit(rows);
    var acc := Pass1(calls);
    forall t: Tri ensures AccOk(acc, t, AllPostings(rows, t)) {
      assert AccAfter(calls, acc, t, |calls|);
      AcceptedIsPostings(calls, rows, t);
    }
    var total;
    dict, total := Assign(acc, rows);
    var blob := Pass2(calls, dict, total, rows);
    post := blob[..];
  }
}
