/** `syms_matching_substring_linear`: the fallback scan, split over threads. Each
    thread keeps the first `limit` matching ROWS of its contiguous chunk; the parts are
    concatenated in row order, deduplicated by sym and cut at `limit`. */
module LinearScan {
  import opened Bytes
  import opened TrigramSpec
  import TrigramQuery

  /** Distinct elements of `s[..n]` in order of first occurrence. */
  ghost function Distinct(s: seq<nat>, n: nat): (out: seq<nat>)
    requires n <= |s|
    ensures forall x :: x in out <==> x in s[..n]
  {
    if n == 0 then []
    else
      assert s[..n] == s[..n - 1] + [s[n - 1]];
      var before := Distinct(s, n - 1);
      if s[n - 1] in before then before else before + [s[n - 1]]
  }

  /** Syms of the matching rows of `rows[lo..hi]`, repeats kept, cut at `limit`. */
  method Chunk(rows: seq<NameRow>, needle: seq<byte>, ignoreCase: bool, lo: nat, hi: nat, limit: nat)
    returns (part: seq<nat>)
    requires lo <= hi <= |rows| && limit >= 1
    ensures part == Take(Hits(rows, needle, ignoreCase, lo, hi), limit)
  {
    hide Matches;
    part := [];
    for i := lo to hi
      invariant part == Hits(rows, needle, ignoreCase, lo, i) && |part| < limit
    {
      var hit := TrigramQuery.Verify(rows[i].name, needle, ignoreCase);
      if hit {
        part := part + [rows[i].sym];
        if |part| >= limit {
          HitsExtend(rows, needle, ignoreCase, lo, i + 1, hi);
          return;
        }
      }
    }
  }

  ghost function Hits(rows: seq<NameRow>, needle: seq<byte>, ignoreCase: bool, lo: nat, hi: nat): seq<nat>
    requires lo <= hi <= |rows|
  {
    if lo == hi then []
    else
      var before := Hits(rows, needle, ignoreCase, lo, hi - 1);
      if Matches(rows[hi - 1].name, needle, ignoreCase) then before + [rows[hi - 1].sym] else before
  }

  lemma {:induction false} HitsExtend(rows: seq<NameRow>, needle: seq<byte>, ignoreCase: bool, lo: nat, mid: nat, hi: nat)
    requires lo <= mid <= hi <= |rows|
    ensures Hits(rows, needle, ignoreCase, lo, hi) ==
            Hits(rows, needle, ignoreCase, lo, mid) + Hits(rows, needle, ignoreCase, mid, hi)
  {
    if mid < hi { HitsExtend(rows, needle, ignoreCase, lo, mid, hi - 1); }
  }

  /** The serial scan is the distinct syms of all hits. */
  lemma {:induction false} ScanIsDistinctHits(rows: seq<NameRow>, needle: seq<byte>, ignoreCase: bool, n: nat)
    requires n <= |rows|
    ensures var h := Hits(rows, needle, ignoreCase, 0, n);
            Scan(rows, needle, ignoreCase, n) == Distinct(h, |h|)
  {
    if n != 0 {
      ScanIsDistinctHits(rows, needle, ignoreCase, n - 1);
      var h, before := Hits(rows, needle, ignoreCase, 0, n), Hits(rows, needle, ignoreCase, 0, n - 1);
      if Matches(rows[n - 1].name, needle, ignoreCase) { DistinctPrefix(before, [rows[n - 1].sym], |before|); }
    }
  }

  lemma {:induction false} DistinctPrefix(s: seq<nat>, more: seq<nat>, n: nat)
    requires n <= |s|
    ensures Distinct(s + more, n) == Distinct(s, n)
  {
    if n != 0 { DistinctPrefix(s, more, n - 1); }
  }

  // ---------------------------------------------------------------- the threads

  function Lo(n: nat, chunk: nat, t: nat): nat
  {
    if t * chunk <= n then t * chunk else n
  }

  /** What the first `t` threads hand back, concatenated in row order. */
  ghost function Kept(rows: seq<NameRow>, needle: seq<byte>, ignoreCase: bool, chunk: nat, limit: nat, t: nat): seq<nat>
  {
    if t == 0 then []
    else
      LoAscends(|rows|, chunk, t - 1);
      Kept(rows, needle, ignoreCase, chunk, limit, t - 1)
      + Take(Hits(rows, needle, ignoreCase, Lo(|rows|, chunk, t - 1), Lo(|rows|, chunk, t)), limit)
  }

  lemma LoAscends(n: nat, chunk: nat, t: nat)
    ensures Lo(n, chunk, t) <= Lo(n, chunk, t + 1) <= n
  {
    assert (t + 1) * chunk == t * chunk + chunk;
  }

  function ChunkSize(n: nat, threads: nat): (chunk: nat)
    requires threads >= 1
    ensures threads * chunk >= n
    ensures n > 0 ==> chunk >= 1 && threads * (chunk - 1) < n
  {
    (n + threads - 1) / threads
  }

  ghost function LinearResult(rows: seq<NameRow>, needle: seq<byte>, ignoreCase: bool, limit: nat, threads: nat): seq<nat>
    requires threads >= 1
  {
    var k := Kept(rows, needle, ignoreCase, ChunkSize(|rows|, threads), limit, threads);
    Take(Distinct(k, |k|), limit)
  }

  lemma {:induction false} DistinctExtends(s: seq<nat>, n: nat, m: nat)
    requires n <= m <= |s|
    ensures Distinct(s, n) <= Distinct(s, m)
  {
    if n < m { DistinctExtends(s, n, m - 1); }
  }

  /** What the threads hand back, in thread order. */
  method Gather(rows: seq<NameRow>, needle: seq<byte>, ignoreCase: bool, limit: nat, threads: nat, chunk: nat) returns (parts: seq<nat>)
    requires limit >= 1
    ensures parts == Kept(rows, needle, ignoreCase, chunk, limit, threads)
  {
    hide Matches, Lo;
    parts := [];
    for t := 0 to threads
      invariant parts == Kept(rows, needle, ignoreCase, chunk, limit, t)
    {
      LoAscends(|rows|, chunk, t);
      var part := Chunk(rows, needle, ignoreCase, Lo(|rows|, chunk, t), Lo(|rows|, chunk, t + 1), limit);
      parts := parts + part;
    }
  }

  method Linear(rows: seq<NameRow>, needle: seq<byte>, ignoreCase: bool, limit: nat, threads: nat) returns (out: seq<nat>)
    requires limit >= 1 && threads >= 1
    ensures out == LinearResult(rows, needle, ignoreCase, limit, threads)
  {
    hide Matches, Lo, ChunkSize, Kept;
    var parts := Gather(rows, needle, ignoreCase, limit, threads, ChunkSize(|rows|, threads));
    out := [];
    for i := 0 to |parts|
      invariant out == Distinct(parts, i) && |out| < limit
    {
      if parts[i] !in out {
        out := out + [parts[i]];
        if |out| >= limit {
          DistinctExtends(parts, i + 1, |parts|);
          return;
        }
      }
    }
  }

  /** An empty table or a limit of zero has no answer. */
  lemma NothingAsked(rows: seq<NameRow>, needle: seq<byte>, ignoreCase: bool, limit: nat, threads: nat)
    requires threads >= 1
    ensures rows == [] || limit == 0 ==>
      LinearResult(rows, needle, ignoreCase, limit, threads) == [] && SerialScan(rows, needle, ignoreCase, limit) == []
  {
    hide Matches;
    if rows == [] { NothingKept(needle, ignoreCase, ChunkSize(0, threads), limit, threads); }
  }

  lemma {:induction false} NothingKept(needle: seq<byte>, ignoreCase: bool, chunk: nat, limit: nat, t: nat)
    ensures Kept([], needle, ignoreCase, chunk, limit, t) == []
  {
    if t > 0 { NothingKept(needle, ignoreCase, chunk, limit, t - 1); }
  }

  // ---------------------------------------------------------------- when it is the serial scan

  /** No thread meets its row cap early, or one sym is all that was asked for. */
  ghost predicate CapsHarmless(rows: seq<NameRow>, needle: seq<byte>, ignoreCase: bool, limit: nat, threads: nat)
    requires threads >= 1
  {
    limit == 1 ||
    forall t | 0 <= t < threads :: ChunkHits(rows, needle, ignoreCase, ChunkSize(|rows|, threads), t) <= limit
  }

  ghost function ChunkHits(rows: seq<NameRow>, needle: seq<byte>, ignoreCase: bool, chunk: nat, t: nat): nat
  {
    LoAscends(|rows|, chunk, t);
    |Hits(rows, needle, ignoreCase, Lo(|rows|, chunk, t), Lo(|rows|, chunk, t + 1))|
  }

  lemma {:induction false} KeptAll(rows: seq<NameRow>, needle: seq<byte>, ignoreCase: bool, chunk: nat, limit: nat, t: nat)
    requires forall u | 0 <= u < t :: ChunkHits(rows, needle, ignoreCase, chunk, u) <= limit
    ensures Kept(rows, needle, ignoreCase, chunk, limit, t) == Hits(rows, needle, ignoreCase, 0, Lo(|rows|, chunk, t))
  {
    hide Matches;
    if t != 0 {
      KeptAll(rows, needle, ignoreCase, chunk, limit, t - 1);
      LoAscends(|rows|, chunk, t - 1);
      assert ChunkHits(rows, needle, ignoreCase, chunk, t - 1) <= limit;
      HitsExtend(rows, needle, ignoreCase, 0, Lo(|rows|, chunk, t - 1), Lo(|rows|, chunk, t));
    }
  }

  /** With `limit` 1 the first hit survives every cap. */
  lemma {:induction false} KeptFirst(rows: seq<NameRow>, needle: seq<byte>, ignoreCase: bool, chunk: nat, t: nat)
    ensures var k, h := Kept(rows, needle, ignoreCase, chunk, 1, t), Hits(rows, needle, ignoreCase, 0, Lo(|rows|, chunk, t));
            (k == [] <==> h == []) && (k != [] ==> k[0] == h[0])
  {
    hide Matches;
    if t != 0 {
      KeptFirst(rows, needle, ignoreCase, chunk, t - 1);
      LoAscends(|rows|, chunk, t - 1);
      HitsExtend(rows, needle, ignoreCase, 0, Lo(|rows|, chunk, t - 1), Lo(|rows|, chunk, t));
    }
  }

  lemma DistinctFirst(s: seq<nat>)
    ensures Take(Distinct(s, |s|), 1) == if s == [] then [] else [s[0]]
  {
    if s != [] {
      DistinctExtends(s, 1, |s|);
      assert Distinct(s, 1) == [s[0]];
    }
  }

  lemma CapsHarmlessSerial(rows: seq<NameRow>, needle: seq<byte>, ignoreCase: bool, limit: nat, threads: nat)
    requires threads >= 1 && limit >= 1 && CapsHarmless(rows, needle, ignoreCase, limit, threads)
    ensures LinearResult(rows, needle, ignoreCase, limit, threads) == SerialScan(rows, needle, ignoreCase, limit)
  {
    hide Matches;
    var chunk := ChunkSize(|rows|, threads);
    ScanIsDistinctHits(rows, needle, ignoreCase, |rows|);
    assert Lo(|rows|, chunk, threads) == |rows|;
    if limit == 1 {
      KeptFirst(rows, needle, ignoreCase, chunk, threads);
      DistinctFirst(Kept(rows, needle, ignoreCase, chunk, 1, threads));
      DistinctFirst(Hits(rows, needle, ignoreCase, 0, |rows|));
    } else {
      KeptAll(rows, needle, ignoreCase, chunk, limit, threads);
    }
  }

  // -- the converse: a biting cap loses a sym for some assignment of syms to rows

  ghost function Relabel(rows: seq<NameRow>, syms: seq<nat>): (r: seq<NameRow>)
    requires |syms| == |rows|
    ensures |r| == |rows|
    ensures forall i :: 0 <= i < |rows| ==> r[i] == NameRow(rows[i].name, syms[i])
  {
    seq(|rows|, i requires 0 <= i < |rows| && |syms| == |rows| => NameRow(rows[i].name, syms[i]))
  }

  lemma {:induction false} HitCount(rows: seq<NameRow>, syms: seq<nat>, needle: seq<byte>, ignoreCase: bool, lo: nat, hi: nat)
    requires |syms| == |rows| && lo <= hi <= |rows|
    ensures |Hits(Relabel(rows, syms), needle, ignoreCase, lo, hi)| == |Hits(rows, needle, ignoreCase, lo, hi)|
  {
    if lo < hi { HitCount(rows, syms, needle, ignoreCase, lo, hi - 1); }
  }

  /** The last matching row of a range with a match. */
  lemma {:induction false} LastHit(rows: seq<NameRow>, needle: seq<byte>, ignoreCase: bool, lo: nat, hi: nat) returns (r: nat)
    requires lo <= hi <= |rows| && Hits(rows, needle, ignoreCase, lo, hi) != []
    ensures lo <= r < hi && Matches(rows[r].name, needle, ignoreCase)
    ensures Hits(rows, needle, ignoreCase, lo, hi) == Hits(rows, needle, ignoreCase, lo, r) + [rows[r].sym]
  {
    if Matches(rows[hi - 1].name, needle, ignoreCase) { r := hi - 1; }
    else { r := LastHit(rows, needle, ignoreCase, lo, hi - 1); }
  }

  /** Hits come from rows; a hit of row `r` shows up in every range that spans it. */
  lemma {:induction false} HitFrom(rows: seq<NameRow>, needle: seq<byte>, ignoreCase: bool, lo: nat, hi: nat, x: nat)
    requires lo <= hi <= |rows| && x in Hits(rows, needle, ignoreCase, lo, hi)
    ensures exists r :: lo <= r < hi && rows[r].sym == x
  {
    if lo < hi && x in Hits(rows, needle, ignoreCase, lo, hi - 1) { HitFrom(rows, needle, ignoreCase, lo, hi - 1, x); }
  }

  lemma {:induction false} HitIn(rows: seq<NameRow>, needle: seq<byte>, ignoreCase: bool, lo: nat, hi: nat, r: nat)
    requires lo <= r < hi <= |rows| && Matches(rows[r].name, needle, ignoreCase)
    ensures rows[r].sym in Hits(rows, needle, ignoreCase, lo, hi)
  {
    if r < hi - 1 { HitIn(rows, needle, ignoreCase, lo, hi - 1, r); }
  }

  /** When only the last hit of chunk `c` carries sym 1, the row cap drops it. */
  lemma {:induction false} KeptWithout(rows: seq<NameRow>, needle: seq<byte>, ignoreCase: bool, chunk: nat, limit: nat,
                                       c: nat, r: nat, t: nat)
    requires ChunkHits(rows, needle, ignoreCase, chunk, c) > limit
    requires Lo(|rows|, chunk, c) <= r < Lo(|rows|, chunk, c + 1) <= |rows|
    requires forall i :: 0 <= i < |rows| ==> rows[i].sym == if i == r then 1 else 0
    requires Hits(rows, needle, ignoreCase, Lo(|rows|, chunk, c), Lo(|rows|, chunk, c + 1))
             == Hits(rows, needle, ignoreCase, Lo(|rows|, chunk, c), r) + [1]
    ensures 1 !in Kept(rows, needle, ignoreCase, chunk, limit, t)
  {
    hide Matches;
    if t != 0 {
      KeptWithout(rows, needle, ignoreCase, chunk, limit, c, r, t - 1);
      LoAscends(|rows|, chunk, t - 1);
      var lo, hi := Lo(|rows|, chunk, t - 1), Lo(|rows|, chunk, t);
      var part := Take(Hits(rows, needle, ignoreCase, lo, hi), limit);
      if 1 in part {
        if t - 1 == c {
          assert part == Hits(rows, needle, ignoreCase, lo, r)[..limit];
          HitFrom(rows, needle, ignoreCase, lo, r, 1);
        } else {
          HitFrom(rows, needle, ignoreCase, lo, hi, 1);
          if t - 1 < c { LoMonotone(|rows|, chunk, t, c); } else { LoMonotone(|rows|, chunk, c + 1, t - 1); }
        }
      }
    }
  }

  lemma {:induction false} LoMonotone(n: nat, chunk: nat, t: nat, u: nat)
    requires t <= u
    ensures Lo(n, chunk, t) <= Lo(n, chunk, u)
  {
    if t < u {
      LoMonotone(n, chunk, t, u - 1);
      LoAscends(n, chunk, u - 1);
    }
  }

  lemma BitingCapLoses(rows: seq<NameRow>, needle: seq<byte>, ignoreCase: bool, limit: nat, threads: nat)
    returns (syms: seq<nat>)
    requires threads >= 1 && limit >= 1 && !CapsHarmless(rows, needle, ignoreCase, limit, threads)
    ensures |syms| == |rows|
    ensures LinearResult(Relabel(rows, syms), needle, ignoreCase, limit, threads)
            != SerialScan(Relabel(rows, syms), needle, ignoreCase, limit)
  {
    hide Matches;
    var chunk := ChunkSize(|rows|, threads);
    var c: nat :| c < threads && ChunkHits(rows, needle, ignoreCase, chunk, c) > limit;
    LoAscends(|rows|, chunk, c);
    var lo, hi := Lo(|rows|, chunk, c), Lo(|rows|, chunk, c + 1);
    var r := LastHit(rows, needle, ignoreCase, lo, hi);
    syms := seq(|rows|, i => if i == r then 1 else 0);
    var labelled := Relabel(rows, syms);
    HitCount(rows, syms, needle, ignoreCase, lo, hi);
    HitCount(rows, syms, needle, ignoreCase, lo, r);
    LastHitRelabelled(rows, syms, needle, ignoreCase, lo, hi, r);
    KeptWithout(labelled, needle, ignoreCase, chunk, limit, c, r, threads);
    var kept := Kept(labelled, needle, ignoreCase, chunk, limit, threads);
    assert kept[..|kept|] == kept;
    assert 1 !in LinearResult(labelled, needle, ignoreCase, limit, threads);
    SerialHasOne(labelled, needle, ignoreCase, limit, r);
  }

  lemma {:induction false} LastHitRelabelled(rows: seq<NameRow>, syms: seq<nat>, needle: seq<byte>, ignoreCase: bool,
                                             lo: nat, hi: nat, r: nat)
    requires |syms| == |rows| && lo <= r < hi <= |rows| && Matches(rows[r].name, needle, ignoreCase)
    requires |Hits(rows, needle, ignoreCase, lo, hi)| == |Hits(rows, needle, ignoreCase, lo, r)| + 1
    ensures Hits(Relabel(rows, syms), needle, ignoreCase, lo, hi)
            == Hits(Relabel(rows, syms), needle, ignoreCase, lo, r) + [syms[r]]
  {
    hide Matches;
    if r < hi - 1 {
      HitsExtend(rows, needle, ignoreCase, lo, r + 1, hi - 1);
      LastHitRelabelled(rows, syms, needle, ignoreCase, lo, hi - 1, r);
    }
  }

  lemma {:induction false} DistinctSmall(s: seq<nat>, n: nat)
    requires n <= |s| && forall x :: x in s ==> x <= 1
    ensures var d := Distinct(s, n);
            |d| == (if 0 in d then 1 else 0) + (if 1 in d then 1 else 0)
  {
    if n != 0 {
      DistinctSmall(s, n - 1);
      assert s[n - 1] in s;
    }
  }

  lemma SerialHasOne(rows: seq<NameRow>, needle: seq<byte>, ignoreCase: bool, limit: nat, r: nat)
    requires r < |rows| && limit >= 2 && Matches(rows[r].name, needle, ignoreCase)
    requires forall i :: 0 <= i < |rows| ==> rows[i].sym == if i == r then 1 else 0
    ensures 1 in SerialScan(rows, needle, ignoreCase, limit)
  {
    hide Matches;
    ScanIsDistinctHits(rows, needle, ignoreCase, |rows|);
    var h := Hits(rows, needle, ignoreCase, 0, |rows|);
    HitIn(rows, needle, ignoreCase, 0, |rows|, r);
    assert h[..|h|] == h;
    forall x | x in h ensures x <= 1 { HitFrom(rows, needle, ignoreCase, 0, |rows|, x); }
    DistinctSmall(h, |h|);
  }

  /** When the names alone tell: the threaded scan equals the serial one whatever syms the
      rows carry, if and only if no chunk holds more matching rows than `limit` (or `limit`
      is 1). */
  lemma AnySymsIff(rows: seq<NameRow>, needle: seq<byte>, ignoreCase: bool, limit: nat, threads: nat)
    requires threads >= 1 && limit >= 1
    ensures CapsHarmless(rows, needle, ignoreCase, limit, threads) <==>
      forall syms: seq<nat> | |syms| == |rows| ::
        LinearResult(Relabel(rows, syms), needle, ignoreCase, limit, threads)
        == SerialScan(Relabel(rows, syms), needle, ignoreCase, limit)
  {
    hide Matches, LinearResult, SerialScan;
    if CapsHarmless(rows, needle, ignoreCase, limit, threads) {
      forall syms: seq<nat> | |syms| == |rows|
        ensures LinearResult(Relabel(rows, syms), needle, ignoreCase, limit, threads)
                == SerialScan(Relabel(rows, syms), needle, ignoreCase, limit)
      {
        CapsRelabel(rows, syms, needle, ignoreCase, limit, threads);
        CapsHarmlessSerial(Relabel(rows, syms), needle, ignoreCase, limit, threads);
      }
    } else {
      var syms := BitingCapLoses(rows, needle, ignoreCase, limit, threads);
    }
  }

  lemma CapsRelabel(rows: seq<NameRow>, syms: seq<nat>, needle: seq<byte>, ignoreCase: bool, limit: nat, threads: nat)
    requires threads >= 1 && |syms| == |rows| && CapsHarmless(rows, needle, ignoreCase, limit, threads)
    ensures CapsHarmless(Relabel(rows, syms), needle, ignoreCase, limit, threads)
  {
    hide Matches;
    var chunk := ChunkSize(|rows|, threads);
    forall t | 0 <= t < threads
      ensures ChunkHits(Relabel(rows, syms), needle, ignoreCase, chunk, t) == ChunkHits(rows, needle, ignoreCase, chunk, t)
    {
      LoAscends(|rows|, chunk, t);
      HitCount(rows, syms, needle, ignoreCase, Lo(|rows|, chunk, t), Lo(|rows|, chunk, t + 1));
    }
  }
}
