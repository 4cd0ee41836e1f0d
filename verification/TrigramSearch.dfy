/** Reading the trigram index: dictionary lookup, full decode of the driver list, the
    galloping membership probe, and the substring query built from them. */
module TrigramSearch {
  import opened Bytes
  import opened Varint
  import opened TrigramSpec
  import Order
  import TrigramBuild

  // ---------------------------------------------------------------- dictionary

  method Lookup(dict: seq<DictRow>, tri: Tri) returns (r: Option<DictRow>)
    requires forall i, j :: 0 <= i < j < |dict| ==> TriLess(dict[i].tri, dict[j].tri)
    ensures r.Some? <==> Keyed(dict, tri)
    ensures r.Some? ==> r.value in dict && r.value.tri == tri
  {
    var lo, hi := 0, |dict|;
    while lo < hi
      invariant 0 <= lo <= hi <= |dict|
      invariant forall i :: 0 <= i < lo ==> TriLess(dict[i].tri, tri)
      invariant forall i :: hi <= i < |dict| ==> TriLess(tri, dict[i].tri)
    {
      var mid := (lo + hi) / 2;
      if TriLess(dict[mid].tri, tri) { lo := mid + 1; }
      else if TriLess(tri, dict[mid].tri) { hi := mid; }
      else { return Some(dict[mid]); }
    }
    r := None;
  }

  // ---------------------------------------------------------------- decoding

  lemma SubAt(q: seq<byte>, p: nat, s: seq<byte>, x: nat, y: nat)
    requires BytesAt(q, p, s) && x <= y <= |s|
    ensures BytesAt(q, p + x, s[x..y])
  {
    forall i | 0 <= i < y - x ensures q[p + x..p + y][i] == s[x..y][i] {
      assert q[p + x + i] == q[p..p + |s|][x + i];
    }
    assert q[p + x..p + y] == s[x..y];
  }

  lemma PackedSlice(ids: seq<nat>, k: nat)
    requires Ascending(ids) && k < |ids|
    ensures |Packed(ids, k)| + |Encode(Delta(ids, k))| == |Packed(ids, k + 1)| <= |Packed(ids, |ids|)|
    ensures Packed(ids, |ids|)[|Packed(ids, k)|..|Packed(ids, k + 1)|] == Encode(Delta(ids, k))
  {
    hide Encode;
    PackedExtends(ids, k + 1, |ids|);
    var all, upto, before := Packed(ids, |ids|), Packed(ids, k + 1), Packed(ids, k);
    assert all[|before|..|upto|] == all[..|upto|][|before|..];
  }

  /** Gap-delta `k` of a finished region sits right behind the earlier ones. */
  lemma DeltaAt(post: seq<byte>, off: nat, ids: seq<nat>, k: nat)
    requires RegionOk(post, off, ids) && k < |ids|
    ensures var at := off + TrigramBuild.PackedAt(ids, k);
            at <= |post| && Decode(post, at) == Some((Delta(ids, k), |Encode(Delta(ids, k))|))
    ensures TrigramBuild.PackedAt(ids, k + 1) == TrigramBuild.PackedAt(ids, k) + |Encode(Delta(ids, k))|
  {
    hide Encode, Packed, Decode;
    PackedSlice(ids, k);
    SubAt(post, off + SKIP_ENTRY * Blocks(|ids|), Packed(ids, |ids|), |Packed(ids, k)|, |Packed(ids, k + 1)|);
    DecodeEncode(post, off + TrigramBuild.PackedAt(ids, k), Delta(ids, k));
  }

  /** One block: an absolute id, then gaps. */
  method DecodeBlock(post: seq<byte>, off: nat, pos0: nat, now: nat, before: seq<nat>, ghost ids: seq<nat>) returns (out: seq<nat>, pos: nat)
    requires Ascending(ids) && RegionOk(post, off, ids)
    requires before <= ids && |before| + now <= |ids| && now <= BLOCK && (now > 0 ==> |before| % BLOCK == 0)
    requires pos0 == off + TrigramBuild.PackedAt(ids, |before|)
    ensures out == ids[..|before| + now] && pos == off + TrigramBuild.PackedAt(ids, |before| + now)
  {
    hide RegionPartial, Packed, Encode, Decode, TrigramBuild.PackedAt, RegionOk;
    out, pos := before, pos0;
    var acc := 0;
    for i := 0 to now
      invariant out == ids[..|before| + i]
      invariant i > 0 ==> acc == ids[|before| + i - 1]
      invariant pos == off + TrigramBuild.PackedAt(ids, |before| + i)
    {
      DeltaAt(post, off, ids, |before| + i);
      BlockRemainder(|before|, i);
      var delta, used := Read(post, pos);
      pos := pos + used;
      acc := if i == 0 then delta else acc + delta;
      out := out + [acc];
    }
  }

  lemma BlockRemainder(n: nat, i: nat)
    requires n % BLOCK == 0 && i < BLOCK
    ensures (n + i) % BLOCK == 0 <==> i == 0
  {
  }

  /** `trigram_postings`: the region decodes to exactly the ids it was built from. */
  method DecodePostings(post: seq<byte>, p: DictRow, ghost ids: seq<nat>) returns (out: seq<nat>)
    requires Ascending(ids) && RegionOk(post, p.postOff, ids) && p.count == |ids|
    ensures out == ids
  {
    hide RegionPartial, Packed, Encode, Decode, TrigramBuild.PackedAt, RegionOk, Ascending;
    out := [];
    var pos := p.postOff + Blocks(p.count) * SKIP_ENTRY;
    var remaining := p.count;
    PackedStart(ids);
    while remaining > 0
      invariant remaining == |ids| - |out| && |out| <= |ids| && out == ids[..|out|]
      invariant remaining > 0 ==> |out| % BLOCK == 0
      invariant pos == p.postOff + TrigramBuild.PackedAt(ids, |out|)
    {
      var now := if remaining < BLOCK then remaining else BLOCK;
      out, pos := DecodeBlock(post, p.postOff, pos, now, out, ids);
      remaining := remaining - now;
    }
  }

  lemma PackedStart(ids: seq<nat>)
    requires Ascending(ids)
    ensures TrigramBuild.PackedAt(ids, 0) == Blocks(|ids|) * SKIP_ENTRY
  {
  }

  // ---------------------------------------------------------------- the probe

  function ReadWord(post: seq<byte>, at: nat): nat
    requires at + 4 <= |post|
  {
    FromBigEndian(post[at..at + 4])
  }

  lemma WordAt(post: seq<byte>, at: nat, v: nat)
    requires v < U32 && BytesAt(post, at, Word(v))
    ensures ReadWord(post, at) == v
  {
    PowValues();
    BigEndianRoundTrip(4, v);
  }

  /** What the reader finds in skip entry `b`. */
  lemma SkipEntry(post: seq<byte>, off: nat, ids: seq<nat>, b: nat)
    requires RegionOk(post, off, ids) && b < Blocks(|ids|)
    ensures off + b * SKIP_ENTRY + 8 <= |post|
    ensures ReadWord(post, off + b * SKIP_ENTRY) == BlockMax(ids, |ids|, b)
    ensures ReadWord(post, off + b * SKIP_ENTRY + 4) == TrigramBuild.PackedAt(ids, b * BLOCK)
  {
    assert EntryOk(post, off, ids, |ids|, b);
    WordAt(post, off + b * SKIP_ENTRY, BlockMax(ids, |ids|, b));
    WordAt(post, off + b * SKIP_ENTRY + 4, BlockOffset(ids, b));
  }

  /** The cursor contract: every block before the hint lies below the candidate. */
  ghost predicate HintOk(ids: seq<nat>, hint: nat, cand: nat)
  {
    forall b: nat | b < hint && b < Blocks(|ids|) :: BlockMax(ids, |ids|, b) < cand
  }

  /** A cursor good for one candidate is good for every larger one. */
  lemma HintMonotone(ids: seq<nat>, hint: nat, cand: nat, later: nat)
    requires HintOk(ids, hint, cand) && cand <= later
    ensures HintOk(ids, hint, later)
  {
  }

  lemma BlockMaxAscends(ids: seq<nat>, b: nat, c: nat)
    requires Ascending(ids) && b < c < Blocks(|ids|)
    ensures BlockMax(ids, |ids|, b) < BlockMax(ids, |ids|, c)
  {
  }

  lemma HintFrom(ids: seq<nat>, lo: nat, cand: nat)
    requires Ascending(ids) && lo < Blocks(|ids|) && BlockMax(ids, |ids|, lo) < cand
    ensures HintOk(ids, lo + 1, cand)
  {
    forall b: nat | b < lo + 1 && b < Blocks(|ids|) ensures BlockMax(ids, |ids|, b) < cand {
      if b < lo { BlockMaxAscends(ids, b, lo); }
    }
  }

  /** Galloping search from `hint` for the first block whose maximum reaches `cand`. */
  method Gallop(post: seq<byte>, p: DictRow, cand: nat, hint: nat, ghost ids: seq<nat>) returns (lo: nat)
    requires Ascending(ids) && RegionOk(post, p.postOff, ids) && p.count == |ids|
    requires HintOk(ids, hint, cand)
    ensures lo <= Blocks(|ids|) && HintOk(ids, lo, cand)
    ensures lo < Blocks(|ids|) ==> BlockMax(ids, |ids|, lo) >= cand
  {
    hide RegionPartial, Packed, HintOk, BlockMax, ReadWord;
    var n := Blocks(p.count);
    lo := if hint < n then hint else n;
    HintClamp(ids, hint, lo, cand);
    if lo == n { return; }
    SkipEntry(post, p.postOff, ids, lo);
    if ReadWord(post, p.postOff + lo * SKIP_ENTRY) >= cand { return; }
    var step, hi := 1, lo + 1;
    while hi < n
      invariant lo < hi && lo < n && step >= 1
      invariant BlockMax(ids, |ids|, lo) < cand
      decreases n - lo
    {
      SkipEntry(post, p.postOff, ids, hi);
      if ReadWord(post, p.postOff + hi * SKIP_ENTRY) >= cand { break; }
      lo := hi;
      step := step * 2;
      hi := lo + step;
    }
    if hi > n { hi := n; }
    if hi < n { SkipEntry(post, p.postOff, ids, hi); }
    var a, b := lo + 1, hi;
    HintFrom(ids, lo, cand);
    while a < b
      invariant lo + 1 <= a <= b <= n
      invariant HintOk(ids, a, cand)
      invariant b < n ==> BlockMax(ids, |ids|, b) >= cand
    {
      var mid := (a + b) / 2;
      SkipEntry(post, p.postOff, ids, mid);
      if ReadWord(post, p.postOff + mid * SKIP_ENTRY) < cand {
        HintFrom(ids, mid, cand);
        a := mid + 1;
      } else { b := mid; }
    }
    lo := a;
  }

  lemma HintClamp(ids: seq<nat>, hint: nat, lo: nat, cand: nat)
    requires HintOk(ids, hint, cand) && lo <= hint
    ensures HintOk(ids, lo, cand)
  {
  }

  /** Where block `b` ends: its postings, and the bytes they take. */
  ghost function BlockEnd(ids: seq<nat>, b: nat): nat
    requires b < Blocks(|ids|)
  {
    if BLOCK * (b + 1) <= |ids| then BLOCK * (b + 1) else |ids|
  }

  lemma {:induction false} PackedGrows(ids: seq<nat>, n: nat, m: nat)
    requires Ascending(ids) && n <= m <= |ids|
    ensures |Packed(ids, n)| + (m - n) <= |Packed(ids, m)|
  {
    if n < m { PackedGrows(ids, n, m - 1); }
  }

  /** Every id of an earlier block is below a candidate the hint condition excludes
      those blocks for. */
  lemma BelowBlock(ids: seq<nat>, b: nat, cand: nat, k: nat)
    requires Ascending(ids) && b < Blocks(|ids|) && HintOk(ids, b, cand) && k < b * BLOCK
    ensures k < |ids| && ids[k] < cand
  {
    assert BlockMax(ids, |ids|, k / BLOCK) < cand;
  }

  lemma NotBetween(ids: seq<nat>, b: nat, cand: nat, k: nat)
    requires Ascending(ids) && b < Blocks(|ids|) && HintOk(ids, b, cand)
    requires b * BLOCK <= k < |ids| && cand < ids[k]
    requires forall j :: b * BLOCK <= j < k ==> ids[j] < cand
    ensures cand !in ids
  {
    forall j | 0 <= j < |ids| ensures ids[j] != cand {
      if j < b * BLOCK { BelowBlock(ids, b, cand, j); }
    }
  }

  /** Decode the one block at `b` and look for `cand`. */
  method ScanBlock(post: seq<byte>, p: DictRow, cand: nat, b: nat, ghost ids: seq<nat>) returns (found: bool)
    requires Ascending(ids) && RegionOk(post, p.postOff, ids) && p.count == |ids| && p.postLen == RegionLength(ids)
    requires b < Blocks(|ids|) && HintOk(ids, b, cand) && BlockMax(ids, |ids|, b) >= cand
    ensures found <==> cand in ids
  {
    hide RegionPartial, Packed, Encode, Decode, ReadWord, HintOk;
    var n := Blocks(p.count);
    SkipEntry(post, p.postOff, ids, b);
    var start := p.postOff + ReadWord(post, p.postOff + b * SKIP_ENTRY + 4);
    var end;
    ghost var k, kend := b * BLOCK, BlockEnd(ids, b);
    if b + 1 < n {
      SkipEntry(post, p.postOff, ids, b + 1);
      end := p.postOff + ReadWord(post, p.postOff + (b + 1) * SKIP_ENTRY + 4);
    } else {
      end := p.postOff + p.postLen;
    }
    assert end == p.postOff + TrigramBuild.PackedAt(ids, kend);
    var pos, acc, first := start, 0, true;
    found := false;
    while pos < end
      invariant b * BLOCK <= k <= kend && first == (k == b * BLOCK)
      invariant !first ==> acc == ids[k - 1]
      invariant pos == p.postOff + TrigramBuild.PackedAt(ids, k)
      invariant forall j :: b * BLOCK <= j < k ==> ids[j] < cand
      invariant !found
      decreases kend - k
    {
      PackedGrows(ids, k, kend);
      assert k != kend;
      DeltaAt(post, p.postOff, ids, k);
      var delta, used := Read(post, pos);
      pos := pos + used;
      acc := if first then delta else acc + delta;
      first := false;
      if acc == cand { found := true; break; }
      if acc > cand { NotBetween(ids, b, cand, k); break; }
      k := k + 1;
    }
    PackedGrows(ids, k, kend);
  }

  lemma PastEveryBlock(ids: seq<nat>, cand: nat)
    requires Ascending(ids) && HintOk(ids, Blocks(|ids|), cand)
    ensures cand !in ids
  {
    forall j | 0 <= j < |ids| ensures ids[j] != cand {
      assert BlockMax(ids, |ids|, j / BLOCK) < cand;
    }
  }

  /** `trigram_contains`: membership by decoding one block, and a cursor position that
      meets the hint condition again for this and every larger candidate. (The source
      re-checks the found block's maximum; the gallop already established it.) */
  method Probe(post: seq<byte>, p: DictRow, cand: nat, hint: nat, ghost ids: seq<nat>) returns (found: bool, blockIdx: nat)
    requires Ascending(ids) && RegionOk(post, p.postOff, ids)
    requires p.count == |ids| && p.postLen == RegionLength(ids)
    requires HintOk(ids, hint, cand)
    ensures found <==> cand in ids
    ensures forall later :: cand <= later ==> HintOk(ids, blockIdx, later)
  {
    hide RegionPartial, Packed, BlockMax, ReadWord;
    var n := Blocks(p.count);
    if n == 0 { return false, 0; }
    var lo := Gallop(post, p, cand, hint, ids);
    if lo >= n {
      PastEveryBlock(ids, cand);
      return false, n;
    }
    found := ScanBlock(post, p, cand, lo, ids);
    blockIdx := lo;
  }

  // ---------------------------------------------------------------- the query

  /** `memmem`: does the needle occur. */
  method Find(s: seq<byte>, needle: seq<byte>) returns (r: bool)
    ensures r <==> Contains(s, needle)
  {
    r := false;
    var i := 0;
    while i + |needle| <= |s|
      invariant forall k: nat :: k < i ==> !ContainsAt(s, needle, k)
      decreases |s| - i
    {
      if s[i..i + |needle|] == needle {
        assert ContainsAt(s, needle, i);
        return true;
      }
      i := i + 1;
    }
  }

  /** A matching name holds, lowercased, every trigram of the lowercased needle:
      the intersection of posting lists can lose no match. */
  lemma MatchHasTri(name: seq<byte>, needle: seq<byte>, ignoreCase: bool, i: nat)
    requires Matches(name, needle, ignoreCase) && i + 2 < |needle|
    ensures HasTri(LowerAll(name), TriAt(LowerAll(needle), i))
  {
    hide Matches;
    FoldedSearch(name, needle);
    var low, lowNeedle := LowerAll(name), LowerAll(needle);
    if ignoreCase {
      var at: nat :| ContainsAt(low, lowNeedle, at);
      var cut := low[at..at + |lowNeedle|];
      assert cut[i] == low[at + i] && cut[i + 1] == low[at + i + 1] && cut[i + 2] == low[at + i + 2];
      assert TriAt(low, at + i) == TriAt(lowNeedle, i);
    } else {
      var at: nat :| ContainsAt(name, needle, at);
      var cut := name[at..at + |needle|];
      assert cut[i] == name[at + i] && cut[i + 1] == name[at + i + 1] && cut[i + 2] == name[at + i + 2];
      assert TriAt(low, at + i) == TriAt(lowNeedle, i);
    }
  }

  /** The distinct lowercased trigrams of the needle. */
  method NeedleTris(needle: seq<byte>) returns (tris: seq<Tri>)
    requires |needle| >= 3
    ensures tris != []
    ensures forall t :: t in tris <==> HasTri(LowerAll(needle), t)
  {
    var lower := LowerAll(needle);
    var all: seq<Tri> := [];
    for i := 0 to |lower| - 2
      invariant |all| == i
      invariant forall k: nat :: k < i ==> all[k] == TriAt(lower, k)
    {
      all := all + [TriAt(lower, i)];
    }
    TrigramBuild.TriOrder();
    tris := Order.SortDedup(TriLess, all);
    forall t ensures t in tris <==> HasTri(lower, t) {
      if t in all {
        var k :| 0 <= k < |all| && all[k] == t;
        assert TriAt(lower, k) == t;
      }
      if HasTri(lower, t) {
        var k: nat :| k + 2 < |lower| && TriAt(lower, k) == t;
        assert all[k] == t;
      }
    }
    assert HasTri(lower, TriAt(lower, 0));
  }

  /** Resolve every trigram to its dictionary row, or report one no name holds. */
  method Resolve(dict: seq<DictRow>, tris: seq<Tri>) returns (posts: Option<seq<DictRow>>)
    requires forall i, j :: 0 <= i < j < |dict| ==> TriLess(dict[i].tri, dict[j].tri)
    ensures posts.Some? ==> |posts.value| == |tris|
    ensures posts.Some? ==> forall k :: 0 <= k < |tris| ==> posts.value[k] in dict && posts.value[k].tri == tris[k]
    ensures posts.None? ==> exists k :: 0 <= k < |tris| && !Keyed(dict, tris[k])
  {
    var found: seq<DictRow> := [];
    for k := 0 to |tris|
      invariant |found| == k
      invariant forall j :: 0 <= j < k ==> found[j] in dict && found[j].tri == tris[j]
    {
      var p := Lookup(dict, tris[k]);
      if p.None? { return None; }
      found := found + [p.value];
    }
    posts := Some(found);
  }

  /** The first of the shortest lists, as `min_by_key` picks it. */
  method Driver(posts: seq<DictRow>) returns (d: nat)
    requires posts != []
    ensures d < |posts|
    ensures forall k :: 0 <= k < |posts| ==> posts[d].count <= posts[k].count
    ensures forall k :: 0 <= k < d ==> posts[d].count < posts[k].count
  {
    d := 0;
    for k := 1 to |posts|
      invariant d < k
      invariant forall j :: 0 <= j < k ==> posts[d].count <= posts[j].count
      invariant forall j :: 0 <= j < d ==> posts[d].count < posts[j].count
    {
      if posts[k].count < posts[d].count { d := k; }
    }
  }

  /** Probe every other list for one candidate, each from its own forward cursor. */
  method InAll(rows: seq<NameRow>, post: seq<byte>, others: seq<DictRow>, cand: nat, cursors: seq<nat>)
    returns (all: bool, after: seq<nat>)
    requires |cursors| == |others|
    requires forall k :: 0 <= k < |others| ==> RowOk(rows, others[k], post)
    requires forall k :: 0 <= k < |others| ==> HintOk(AllPostings(rows, others[k].tri), cursors[k], cand)
    ensures all <==> forall k :: 0 <= k < |others| ==> cand in AllPostings(rows, others[k].tri)
    ensures |after| == |others|
    ensures forall k, later :: 0 <= k < |others| && cand <= later ==>
      HintOk(AllPostings(rows, others[k].tri), after[k], later)
  {
    hide RegionPartial, HintOk, AllPostings, RegionLength;
    forall k, later | 0 <= k < |others| && cand <= later
      ensures HintOk(AllPostings(rows, others[k].tri), cursors[k], later)
    {
      HintMonotone(AllPostings(rows, others[k].tri), cursors[k], cand, later);
    }
    after := cursors;
    for k := 0 to |others|
      invariant |after| == |others|
      invariant forall j :: 0 <= j < k ==> cand in AllPostings(rows, others[j].tri)
      invariant forall j, later :: 0 <= j < |others| && cand <= later ==>
        HintOk(AllPostings(rows, others[j].tri), after[j], later)
    {
      assert RowOk(rows, others[k], post);
      var found, blockIdx := Probe(post, others[k], cand, after[k], AllPostings(rows, others[k].tri));
      after := after[k := blockIdx];
      if !found { return false, after; }
    }
    all := true;
  }
}
