/** Exactly when the threaded scan of a table is its serial scan. The cap of a thread counts
    rows, so a thread may drop a row whose sym the serial scan would have shown. */
module LinearExact {
  import opened Bytes
  import opened TrigramSpec
  import opened LinearScan

  // ---------------------------------------------------------------- rows and caps

  /** A row of the table: its sym, whether it matches, whether its thread keeps it. */
  datatype Mark = Mark(sym: nat, hit: bool, kept: bool)

  /** Distinct syms of the matching rows among the first `n`. */
  ghost function Shown(e: seq<Mark>, n: nat): (r: seq<nat>)
    requires n <= |e|
  {
    if n == 0 then []
    else
      var before := Shown(e, n - 1);
      if e[n - 1].hit && e[n - 1].sym !in before then before + [e[n - 1].sym] else before
  }

  /** Distinct syms of the kept rows among the first `n`. */
  ghost function Kept1(e: seq<Mark>, n: nat): (r: seq<nat>)
    requires n <= |e|
  {
    if n == 0 then []
    else
      var before := Kept1(e, n - 1);
      if e[n - 1].kept && e[n - 1].sym !in before then before + [e[n - 1].sym] else before
  }

  ghost predicate OnlyHitsKept(e: seq<Mark>)
  {
    forall i | 0 <= i < |e| && e[i].kept :: e[i].hit
  }

  /** Row `i` is dropped, and with it the first sight of one of the first `limit` syms. */
  ghost predicate Misses(e: seq<Mark>, limit: nat, i: nat)
  {
    i < |e| && e[i].hit && !e[i].kept && e[i].sym !in Shown(e, i) && |Shown(e, i)| < limit
  }

  /** The sym turns up again in row `j`, kept, before any kept row brings another new sym. */
  ghost predicate Recovers(e: seq<Mark>, i: nat, j: nat)
  {
    && i < j < |e| && e[j].kept && e[j].sym == e[i].sym
    && (forall k | i < k < j && e[k].kept :: e[k].sym in Shown(e, i))
  }

  /** Every sym missed is recovered in time. */
  ghost predicate Patched(e: seq<Mark>, limit: nat)
  {
    forall i | Misses(e, limit, i) :: exists j: nat :: Recovers(e, i, j)
  }

  lemma {:induction false} ShownGrows(e: seq<Mark>, n: nat, m: nat)
    requires n <= m <= |e|
    ensures Shown(e, n) <= Shown(e, m)
  {
    if n < m { ShownGrows(e, n, m - 1); }
  }

  lemma {:induction false} Kept1Grows(e: seq<Mark>, n: nat, m: nat)
    requires n <= m <= |e|
    ensures Kept1(e, n) <= Kept1(e, m)
  {
    if n < m { Kept1Grows(e, n, m - 1); }
  }

  lemma {:induction false} HitShown(e: seq<Mark>, n: nat, i: nat)
    requires i < n <= |e| && e[i].hit
    ensures e[i].sym in Shown(e, n)
  {
    if i < n - 1 { HitShown(e, n - 1, i); }
  }

  lemma {:induction false} RowKept(e: seq<Mark>, n: nat, i: nat)
    requires i < n <= |e| && e[i].kept
    ensures e[i].sym in Kept1(e, n)
  {
    if i < n - 1 { RowKept(e, n - 1, i); }
  }

  /** The row that first brought the sym at place `p`. */
  lemma {:induction false} FirstShown(e: seq<Mark>, n: nat, p: nat) returns (i: nat)
    requires n <= |e| && p < |Shown(e, n)|
    ensures i < n && e[i].hit && Shown(e, i) == Shown(e, n)[..p] && e[i].sym == Shown(e, n)[p] && e[i].sym !in Shown(e, i)
  {
    if p < |Shown(e, n - 1)| { i := FirstShown(e, n - 1, p); } else { i := n - 1; }
  }

  lemma {:induction false} FirstKept(e: seq<Mark>, n: nat, p: nat) returns (i: nat)
    requires n <= |e| && p < |Kept1(e, n)|
    ensures i < n && e[i].kept && Kept1(e, i) == Kept1(e, n)[..p] && e[i].sym == Kept1(e, n)[p]
  {
    if p < |Kept1(e, n - 1)| { i := FirstKept(e, n - 1, p); } else { i := n - 1; }
  }

  /** The first sym the kept rows lag behind with was missed, and its recovery is still to
      come. */
  lemma Lagging(e: seq<Mark>, limit: nat, n: nat) returns (i: nat, j: nat)
    requires OnlyHitsKept(e) && Patched(e, limit) && n <= |e|
    requires Kept1(e, n) <= Shown(e, n) && |Kept1(e, n)| < |Shown(e, n)| && |Kept1(e, n)| < limit
    ensures i < n <= j && Recovers(e, i, j) && Shown(e, i) == Kept1(e, n) && e[i].sym == Shown(e, n)[|Kept1(e, n)|]
    ensures e[i].sym !in Kept1(e, n)
  {
    var p := |Kept1(e, n)|;
    i := FirstShown(e, n, p);
    if e[i].kept { RowKept(e, n, i); }
    assert Misses(e, limit, i);
    j :| Recovers(e, i, j);
    if j < n { RowKept(e, n, j); }
  }

  /** A kept row that brings a new sym brings the next one of the serial order. */
  lemma NextKept(e: seq<Mark>, limit: nat, n: nat)
    requires OnlyHitsKept(e) && Patched(e, limit) && n < |e| && Kept1(e, n) <= Shown(e, n) && |Kept1(e, n)| < limit
    requires e[n].kept && e[n].sym !in Kept1(e, n)
    ensures Kept1(e, n) + [e[n].sym] <= Shown(e, n + 1)
  {
    var k, s := Kept1(e, n), Shown(e, n);
    ShownGrows(e, n, n + 1);
    if |k| < |s| {
      var i, j := Lagging(e, limit, n);
      hide Patched, Shown, Kept1;
      assert j == n;
    } else {
      assert k == s;
    }
  }

  lemma PrefixCut(a: seq<nat>, b: seq<nat>, c: seq<nat>, limit: nat)
    requires Take(a, limit) <= b && b <= c
    ensures Take(a, limit) <= c
    ensures |a| < limit ==> a <= b
    ensures |a| >= limit ==> forall x :: Take(a + [x], limit) == Take(a, limit)
  {
  }

  /** The first `limit` kept syms are a prefix of the shown ones. */
  lemma {:induction false} KeptIsPrefix(e: seq<Mark>, limit: nat, n: nat)
    requires OnlyHitsKept(e) && Patched(e, limit) && n <= |e|
    ensures Take(Kept1(e, n), limit) <= Shown(e, n)
  {
    hide Patched;
    if n > 0 {
      KeptIsPrefix(e, limit, n - 1);
      ShownGrows(e, n - 1, n);
      var k := Kept1(e, n - 1);
      PrefixCut(k, Shown(e, n - 1), Shown(e, n), limit);
      hide Shown;
      if |k| < limit && e[n - 1].kept && e[n - 1].sym !in k { NextKept(e, limit, n - 1); }
    }
  }

  lemma PatchedAgrees(e: seq<Mark>, limit: nat)
    requires OnlyHitsKept(e) && Patched(e, limit)
    ensures Take(Kept1(e, |e|), limit) == Take(Shown(e, |e|), limit)
  {
    KeptIsPrefix(e, limit, |e|);
    var k, s := Kept1(e, |e|), Shown(e, |e|);
    if |k| < |s| && |k| < limit {
      var i, j := Lagging(e, limit, |e|);
      assert false;
    }
  }

  lemma SameAt(k: seq<nat>, s: seq<nat>, limit: nat, p: nat)
    requires Take(k, limit) == Take(s, limit) && p < |s| && p < limit
    ensures p < |k| && k[p] == s[p] && k[..p] == s[..p]
  {
    assert k[p] == Take(k, limit)[p] == Take(s, limit)[p] == s[p];
    assert k[..p] == Take(k, limit)[..p] == Take(s, limit)[..p] == s[..p];
  }

  lemma MissedAt(e: seq<Mark>, limit: nat, i: nat)
    requires Misses(e, limit, i)
    ensures var s, p := Shown(e, |e|), |Shown(e, i)|; p < |s| && s[p] == e[i].sym && s[..p] == Shown(e, i)
  {
    ShownGrows(e, i + 1, |e|);
    assert Shown(e, i + 1) == Shown(e, i) + [e[i].sym];
  }

  lemma AgreesPatched(e: seq<Mark>, limit: nat, i: nat)
    requires OnlyHitsKept(e) && Take(Kept1(e, |e|), limit) == Take(Shown(e, |e|), limit) && Misses(e, limit, i)
    ensures exists j: nat :: Recovers(e, i, j)
  {
    hide Shown, Kept1;
    var k, s, p := Kept1(e, |e|), Shown(e, |e|), |Shown(e, i)|;
    MissedAt(e, limit, i);
    SameAt(k, s, limit, p);
    var j := FirstKept(e, |e|, p);
    if j < i { HitShown(e, i, j); }
    forall m | i < m < j && e[m].kept ensures e[m].sym in Shown(e, i) { RowKept(e, j, m); }
    assert Recovers(e, i, j);
  }

  /** The kept rows show the first `limit` syms if and only if every sym missed is recovered
      in time. */
  lemma PatchedIff(e: seq<Mark>, limit: nat)
    requires OnlyHitsKept(e)
    ensures Take(Kept1(e, |e|), limit) == Take(Shown(e, |e|), limit) <==> Patched(e, limit)
  {
    hide Kept1, Shown, Recovers, Misses;
    if Patched(e, limit) { PatchedAgrees(e, limit); }
    if Take(Kept1(e, |e|), limit) == Take(Shown(e, |e|), limit) {
      forall i | Misses(e, limit, i) ensures exists j: nat :: Recovers(e, i, j) { AgreesPatched(e, limit, i); }
    }
  }

  // ---------------------------------------------------------------- the table

  ghost function Chunked(rows: seq<NameRow>, threads: nat): (chunk: nat)
    requires threads >= 1
    ensures rows != [] ==> chunk >= 1
  {
    ChunkSize(|rows|, threads)
  }

  /** The thread of row `i` has not met its cap before it. */
  ghost predicate UnderCap(rows: seq<NameRow>, needle: seq<byte>, ignoreCase: bool, limit: nat, chunk: nat, i: nat)
    requires i < |rows| && chunk >= 1
  {
    StartOf(i, chunk);
    |Hits(rows, needle, ignoreCase, i / chunk * chunk, i)| < limit
  }

  lemma StartOf(i: nat, chunk: nat)
    requires chunk >= 1
    ensures 0 <= i / chunk * chunk <= i
  {
    assert i == chunk * (i / chunk) + i % chunk;
  }

  ghost function Marks(rows: seq<NameRow>, needle: seq<byte>, ignoreCase: bool, limit: nat, threads: nat): (e: seq<Mark>)
    requires threads >= 1
    ensures |e| == |rows| && OnlyHitsKept(e)
  {
    seq(|rows|, i requires 0 <= i < |rows| =>
      var hit := Matches(rows[i].name, needle, ignoreCase);
      Mark(rows[i].sym, hit, hit && UnderCap(rows, needle, ignoreCase, limit, Chunked(rows, threads), i)))
  }

  lemma {:induction false} ShownIsScan(rows: seq<NameRow>, needle: seq<byte>, ignoreCase: bool, limit: nat, threads: nat, n: nat)
    requires threads >= 1 && n <= |rows|
    ensures Shown(Marks(rows, needle, ignoreCase, limit, threads), n) == Scan(rows, needle, ignoreCase, n)
  {
    hide Matches, UnderCap;
    if n > 0 { ShownIsScan(rows, needle, ignoreCase, limit, threads, n - 1); }
  }

  /** The kept rows' syms, repeats included. */
  ghost function KeptSyms(e: seq<Mark>, n: nat): (r: seq<nat>)
    requires n <= |e|
  {
    if n == 0 then []
    else if e[n - 1].kept then KeptSyms(e, n - 1) + [e[n - 1].sym] else KeptSyms(e, n - 1)
  }

  lemma {:induction false} Kept1IsDistinct(e: seq<Mark>, n: nat)
    requires n <= |e|
    ensures Kept1(e, n) == Distinct(KeptSyms(e, n), |KeptSyms(e, n)|)
  {
    if n > 0 {
      Kept1IsDistinct(e, n - 1);
      var before := KeptSyms(e, n - 1);
      if e[n - 1].kept { DistinctAppend(before, e[n - 1].sym); }
    }
  }

  lemma DistinctAppend(s: seq<nat>, x: nat)
    ensures var d := Distinct(s, |s|); Distinct(s + [x], |s| + 1) == if x in d then d else d + [x]
  {
    DistinctPrefix(s, [x], |s|);
  }

  lemma DivIs(i: nat, chunk: nat, t: nat)
    requires chunk >= 1 && t * chunk <= i < (t + 1) * chunk
    ensures i / chunk == t
  {
    var q := i / chunk;
    assert i == chunk * q + i % chunk;
    MulMono(q + 1, t, chunk);
    MulMono(t + 1, q, chunk);
  }

  lemma MulMono(a: nat, b: nat, c: nat)
    ensures a <= b ==> a * c <= b * c
  {
    if a <= b { assert b * c == a * c + (b - a) * c; }
  }

  /** Within a chunk the kept rows are the first `limit` hits. */
  lemma {:induction false} ChunkKeeps(rows: seq<NameRow>, needle: seq<byte>, ignoreCase: bool, limit: nat, threads: nat, t: nat, n: nat)
    requires threads >= 1
    requires var chunk := Chunked(rows, threads); Lo(|rows|, chunk, t) <= n <= Lo(|rows|, chunk, t + 1)
    ensures var e := Marks(rows, needle, ignoreCase, limit, threads); var lo := Lo(|rows|, Chunked(rows, threads), t);
      lo <= n <= |rows| && KeptSyms(e, n) == KeptSyms(e, lo) + Take(Hits(rows, needle, ignoreCase, lo, n), limit)
    decreases n
  {
    hide Matches;
    var chunk := Chunked(rows, threads);
    var lo := Lo(|rows|, chunk, t);
    LoAscends(|rows|, chunk, t);
    if n > lo {
      ChunkKeeps(rows, needle, ignoreCase, limit, threads, t, n - 1);
      InChunk(|rows|, chunk, t, n - 1);
    }
  }

  lemma InChunk(n: nat, chunk: nat, t: nat, i: nat)
    requires Lo(n, chunk, t) <= i < Lo(n, chunk, t + 1)
    ensures chunk >= 1 && i / chunk * chunk == t * chunk == Lo(n, chunk, t)
  {
    assert (t + 1) * chunk == t * chunk + chunk;
    if chunk >= 1 { DivIs(i, chunk, t); }
  }

  lemma {:induction false} ThreadsKeep(rows: seq<NameRow>, needle: seq<byte>, ignoreCase: bool, limit: nat, threads: nat, t: nat)
    requires threads >= 1
    ensures var e, chunk := Marks(rows, needle, ignoreCase, limit, threads), Chunked(rows, threads);
      Lo(|rows|, chunk, t) <= |rows| && KeptSyms(e, Lo(|rows|, chunk, t)) == Kept(rows, needle, ignoreCase, chunk, limit, t)
  {
    hide Matches, UnderCap, Hits;
    var chunk := Chunked(rows, threads);
    if t > 0 {
      ThreadsKeep(rows, needle, ignoreCase, limit, threads, t - 1);
      LoAscends(|rows|, chunk, t - 1);
      ChunkKeeps(rows, needle, ignoreCase, limit, threads, t - 1, Lo(|rows|, chunk, t));
    }
  }

  /** For this very table: the threaded scan returns what the serial scan returns, if and only
      if every sym whose first matching row lies past its thread's cap, among the first `limit`,
      turns up in a later kept row before any kept row brings another new sym. */
  lemma LinearIsSerialIff(rows: seq<NameRow>, needle: seq<byte>, ignoreCase: bool, limit: nat, threads: nat)
    requires threads >= 1
    ensures LinearResult(rows, needle, ignoreCase, limit, threads) == SerialScan(rows, needle, ignoreCase, limit)
      <==> Patched(Marks(rows, needle, ignoreCase, limit, threads), limit)
  {
    var e, chunk := Marks(rows, needle, ignoreCase, limit, threads), Chunked(rows, threads);
    assert Lo(|rows|, chunk, threads) == |rows|;
    hide Matches, UnderCap, Hits, Patched, Marks, Kept, Scan, Distinct;
    ShownIsScan(rows, needle, ignoreCase, limit, threads, |rows|);
    ThreadsKeep(rows, needle, ignoreCase, limit, threads, threads);
    Kept1IsDistinct(e, |rows|);
    PatchedIff(e, limit);
  }

  // ---------------------------------------------------------------- when nothing need be recovered

  /** A dropped row is harmless: enough syms are kept before it, or its own already is. */
  ghost predicate DropsHarmless(e: seq<Mark>, limit: nat)
  {
    forall i | 0 <= i < |e| && e[i].hit && !e[i].kept :: |Kept1(e, i)| >= limit || e[i].sym in Kept1(e, i)
  }

  lemma {:induction false} KeptShown(e: seq<Mark>, n: nat)
    requires OnlyHitsKept(e) && n <= |e|
    ensures |Kept1(e, n)| <= |Shown(e, n)| && forall x | x in Kept1(e, n) :: x in Shown(e, n)
  {
    if n > 0 {
      KeptShown(e, n - 1);
      if |Kept1(e, n - 1)| == |Shown(e, n - 1)| { SameSize(e, n - 1); }
    }
  }

  ghost predicate NoRepeats(s: seq<nat>)
  {
    forall i, j | 0 <= i < j < |s| :: s[i] != s[j]
  }

  lemma {:induction false} Unrepeated(e: seq<Mark>, n: nat)
    requires n <= |e|
    ensures NoRepeats(Shown(e, n)) && NoRepeats(Kept1(e, n))
  {
    if n > 0 { Unrepeated(e, n - 1); }
  }

  /** As many kept syms as shown ones: then they are the same syms. */
  lemma SameSize(e: seq<Mark>, n: nat)
    requires n <= |e| && |Kept1(e, n)| == |Shown(e, n)| && forall x | x in Kept1(e, n) :: x in Shown(e, n)
    ensures forall x | x in Shown(e, n) :: x in Kept1(e, n)
  {
    Unrepeated(e, n);
    hide Shown, Kept1;
    var k, s := Kept1(e, n), Shown(e, n);
    NoRepeatsCount(k);
    NoRepeatsCount(s);
    EqualSize(SetOf(k), SetOf(s));
    forall x | x in s ensures x in k { assert x in SetOf(s); }
  }

  ghost function SetOf(s: seq<nat>): (r: set<nat>)
    ensures forall x :: x in r <==> x in s
  {
    set x | x in s
  }

  lemma {:induction false} NoRepeatsCount(s: seq<nat>)
    requires NoRepeats(s)
    ensures |SetOf(s)| == |s|
  {
    if s != [] {
      var n := |s| - 1;
      NoRepeatsCount(s[..n]);
      assert SetOf(s) == SetOf(s[..n]) + {s[n]};
      assert s[n] !in SetOf(s[..n]);
    }
  }

  lemma EqualSize(a: set<nat>, b: set<nat>)
    requires a <= b && |a| == |b|
    ensures a == b
  {
    assert b == a + (b - a);
    assert |a + (b - a)| == |a| + |b - a|;
  }

  lemma HarmlessPatched(e: seq<Mark>, limit: nat)
    requires OnlyHitsKept(e) && DropsHarmless(e, limit)
    ensures Patched(e, limit)
  {
    hide Shown, Kept1;
    forall i: nat ensures !Misses(e, limit, i) {
      if i < |e| { KeptShown(e, i); }
    }
  }

  /** Every chunk whose cap bites keeps `limit` distinct syms or drops only syms already kept:
      then the threaded scan is the serial one. */
  lemma HarmlessSerial(rows: seq<NameRow>, needle: seq<byte>, ignoreCase: bool, limit: nat, threads: nat)
    requires threads >= 1 && DropsHarmless(Marks(rows, needle, ignoreCase, limit, threads), limit)
    ensures LinearResult(rows, needle, ignoreCase, limit, threads) == SerialScan(rows, needle, ignoreCase, limit)
  {
    hide LinearResult, SerialScan, Patched, DropsHarmless, Marks;
    HarmlessPatched(Marks(rows, needle, ignoreCase, limit, threads), limit);
    LinearIsSerialIff(rows, needle, ignoreCase, limit, threads);
  }

  /** No two matching rows share a sym. */
  ghost predicate DistinctHits(rows: seq<NameRow>, needle: seq<byte>, ignoreCase: bool)
  {
    forall i, j | 0 <= i < j < |rows| && Matches(rows[i].name, needle, ignoreCase) && Matches(rows[j].name, needle, ignoreCase) ::
      rows[i].sym != rows[j].sym
  }

  lemma {:induction false} KeptSymsFrom(e: seq<Mark>, n: nat, x: nat)
    requires n <= |e| && x in KeptSyms(e, n)
    ensures exists i :: 0 <= i < n && e[i].kept && e[i].sym == x
  {
    if n > 0 && x in KeptSyms(e, n - 1) { KeptSymsFrom(e, n - 1, x); }
  }

  /** With distinct syms every kept row counts. */
  lemma {:induction false} AllCount(e: seq<Mark>, n: nat)
    requires n <= |e| && OnlyHitsKept(e) && forall i, j | 0 <= i < j < |e| && e[i].hit && e[j].hit :: e[i].sym != e[j].sym
    ensures Kept1(e, n) == KeptSyms(e, n)
  {
    if n > 0 {
      AllCount(e, n - 1);
      if e[n - 1].kept && e[n - 1].sym in KeptSyms(e, n - 1) { KeptSymsFrom(e, n - 1, e[n - 1].sym); }
    }
  }

  /** A row is dropped only after its thread has kept `limit` rows. */
  lemma DropAfterCap(rows: seq<NameRow>, needle: seq<byte>, ignoreCase: bool, limit: nat, threads: nat, i: nat)
    requires threads >= 1 && i < |rows|
    requires var m := Marks(rows, needle, ignoreCase, limit, threads)[i]; m.hit && !m.kept
    ensures |KeptSyms(Marks(rows, needle, ignoreCase, limit, threads), i)| >= limit
  {
    hide Matches;
    var chunk := Chunked(rows, threads);
    var t := i / chunk;
    StartOf(i, chunk);
    RowOfThread(|rows|, chunk, i);
    ChunkKeeps(rows, needle, ignoreCase, limit, threads, t, i);
  }

  lemma RowOfThread(n: nat, chunk: nat, i: nat)
    requires chunk >= 1 && i < n
    ensures var t := i / chunk; Lo(n, chunk, t) == t * chunk <= i < Lo(n, chunk, t + 1)
  {
    var t := i / chunk;
    assert i == chunk * t + i % chunk;
    assert (t + 1) * chunk == t * chunk + chunk;
  }

  /** Distinct matching syms are enough, whatever the limit and the number of threads. */
  lemma DistinctHitsSerial(rows: seq<NameRow>, needle: seq<byte>, ignoreCase: bool, limit: nat, threads: nat)
    requires threads >= 1 && DistinctHits(rows, needle, ignoreCase)
    ensures LinearResult(rows, needle, ignoreCase, limit, threads) == SerialScan(rows, needle, ignoreCase, limit)
  {
    var e := Marks(rows, needle, ignoreCase, limit, threads);
    assert forall i | 0 <= i < |e| :: e[i].sym == rows[i].sym && (e[i].hit <==> Matches(rows[i].name, needle, ignoreCase));
    hide Matches, Marks, LinearResult, SerialScan, Kept1;
    forall i | 0 <= i < |e| && e[i].hit && !e[i].kept ensures |Kept1(e, i)| >= limit {
      DropAfterCap(rows, needle, ignoreCase, limit, threads, i);
      AllCount(e, i);
    }
    HarmlessSerial(rows, needle, ignoreCase, limit, threads);
  }

  /** So is a limit no thread reaches, or a limit of one. */
  lemma CapsHarmlessPatched(rows: seq<NameRow>, needle: seq<byte>, ignoreCase: bool, limit: nat, threads: nat)
    requires threads >= 1 && limit >= 1 && CapsHarmless(rows, needle, ignoreCase, limit, threads)
    ensures Patched(Marks(rows, needle, ignoreCase, limit, threads), limit)
  {
    hide Patched, LinearResult, SerialScan, Marks, CapsHarmless;
    CapsHarmlessSerial(rows, needle, ignoreCase, limit, threads);
    LinearIsSerialIff(rows, needle, ignoreCase, limit, threads);
  }
}
