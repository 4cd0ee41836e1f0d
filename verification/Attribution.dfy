/** Attributing call sites to the innermost enclosing body anchor. */
module Attribution {
  import opened Bytes

  datatype Anchor = Anchor(file: nat, start: nat, end: nat, sym: nat)

  /** Key order of the sort: (file, start) only. */
  predicate KeyLe(f: nat, s: nat, g: nat, t: nat)
  {
    f < g || (f == g && s <= t)
  }

  ghost predicate Sorted(a: seq<Anchor>)
  {
    forall i, j :: 0 <= i < j < |a| ==> KeyLe(a[i].file, a[i].start, a[j].file, a[j].start)
  }

  predicate Contains(x: Anchor, file: nat, off: nat)
  {
    x.file == file && x.start <= off < x.end
  }

  /** Ranges are half-open: cut in two anywhere inside, a range contains a point if and only
      if exactly one part does; its start is in it and its end is not. */
  lemma ContainsHalfOpen(x: Anchor, cut: nat, off: nat)
    requires x.start <= cut <= x.end
    ensures var a, b := x.(end := cut), x.(start := cut);
      && (Contains(x, x.file, off) <==> Contains(a, x.file, off) != Contains(b, x.file, off))
      && !(Contains(a, x.file, off) && Contains(b, x.file, off))
    ensures x.start < x.end ==> Contains(x, x.file, x.start) && !Contains(x, x.file, x.end)
    ensures x.end <= x.start ==> !Contains(x, x.file, off)
    ensures forall file | file != x.file :: !Contains(x, file, off)
  {
  }

  ghost predicate Empty(x: Anchor)
  {
    x.end <= x.start
  }

  /** Two ranges are apart, or one lies within the other. */
  ghost predicate NestedPair(x: Anchor, y: Anchor)
  {
    || x.file != y.file || Empty(x) || Empty(y)
    || x.end <= y.start || y.end <= x.start
    || (x.start <= y.start && y.end <= x.end) || (y.start <= x.start && x.end <= y.end)
  }

  ghost predicate Nested(a: seq<Anchor>)
  {
    forall i, j :: 0 <= i < |a| && 0 <= j < |a| ==> NestedPair(a[i], a[j])
  }

  /** Any order the unstable sort may leave the anchors in. */
  ghost predicate Arrangement(b: seq<Anchor>, a: seq<Anchor>)
  {
    Sorted(b) && multiset(b) == multiset(a)
  }

  /** `k` contains the point and no container has a smaller span. */
  ghost predicate Innermost(a: seq<Anchor>, file: nat, off: nat, k: nat)
  {
    && k < |a| && Contains(a[k], file, off)
    && (forall j :: 0 <= j < |a| && Contains(a[j], file, off) ==> a[k].end - a[k].start <= a[j].end - a[j].start)
  }

  /** The last container in table order: what the backward scan stops at. */
  ghost predicate LastContainer(a: seq<Anchor>, file: nat, off: nat, k: nat)
  {
    k < |a| && Contains(a[k], file, off) && forall j :: k < j < |a| ==> !Contains(a[j], file, off)
  }

  // ---------------------------------------------------------------- the query

  /** `partition_point`: how many leading anchors have (file, start) at most the given. */
  function Upper(a: seq<Anchor>, file: nat, off: nat): (n: nat)
    ensures n <= |a|
    ensures forall i :: 0 <= i < n ==> KeyLe(a[i].file, a[i].start, file, off)
    ensures n < |a| ==> !KeyLe(a[n].file, a[n].start, file, off)
  {
    if a == [] || !KeyLe(a[0].file, a[0].start, file, off) then 0 else 1 + Upper(a[1..], file, off)
  }

  /** `partition_point`: how many leading anchors belong to earlier files. */
  function FileStart(a: seq<Anchor>, file: nat): (n: nat)
    ensures n <= |a|
    ensures forall i :: 0 <= i < n ==> a[i].file < file
    ensures n < |a| ==> a[n].file >= file
  {
    if a == [] || a[0].file >= file then 0 else 1 + FileStart(a[1..], file)
  }

  /** On any sorted table: nothing exactly when no range contains the point, and otherwise
      the sym of the last container. */
  method InnermostContaining(a: seq<Anchor>, file: nat, off: nat) returns (r: Option<nat>)
    requires Sorted(a)
    ensures r == None <==> forall j :: 0 <= j < |a| ==> !Contains(a[j], file, off)
    ensures r.Some? ==> exists k: nat :: LastContainer(a, file, off, k) && r.value == a[k].sym
  {
    var upper := Upper(a, file, off);
    var fileStart := FileStart(a, file);
    var i := upper;
    while i > fileStart
      invariant 0 <= i <= upper
      invariant forall j :: i <= j < |a| ==> !Contains(a[j], file, off)
    {
      i := i - 1;
      assert a[i].file == file && a[i].start <= off;
      if a[i].end > off {
        assert LastContainer(a, file, off, i);
        return Some(a[i].sym);
      }
    }
    return None;
  }

  // ---------------------------------------------------------------- what the answer means

  lemma {:induction false} LastExists(a: seq<Anchor>, file: nat, off: nat, k: nat)
    requires k < |a| && Contains(a[k], file, off)
    ensures exists m: nat :: LastContainer(a, file, off, m)
    decreases |a| - k
  {
    if m :| k < m < |a| && Contains(a[m], file, off) {
      LastExists(a, file, off, m);
    } else {
      assert LastContainer(a, file, off, k);
    }
  }

  /** Ranges of one file that start together end together. */
  ghost predicate StartsAgree(a: seq<Anchor>)
  {
    forall i, j :: 0 <= i < |a| && 0 <= j < |a| && SameStart(a[i], a[j]) ==> a[i].end == a[j].end
  }

  /** Ranges of one file that start together name the same sym. */
  ghost predicate SymsAgree(a: seq<Anchor>)
  {
    forall i, j :: 0 <= i < |a| && 0 <= j < |a| && SameStart(a[i], a[j]) ==> a[i].sym == a[j].sym
  }

  ghost predicate SameStart(x: Anchor, y: Anchor)
  {
    !Empty(x) && !Empty(y) && x.file == y.file && x.start == y.start
  }

  /** The scan answers with a smallest range at every point. */
  ghost predicate AlwaysInnermost(b: seq<Anchor>)
  {
    forall file: nat, off: nat, k: nat :: LastContainer(b, file, off, k) ==> Innermost(b, file, off, k)
  }

  ghost predicate InnermostHowever(a: seq<Anchor>)
  {
    forall b :: Arrangement(b, a) ==> AlwaysInnermost(b)
  }

  lemma NestedScan(b: seq<Anchor>)
    requires Sorted(b) && Nested(b) && StartsAgree(b)
    ensures AlwaysInnermost(b)
  {
    forall file: nat, off: nat, k: nat | LastContainer(b, file, off, k) ensures Innermost(b, file, off, k) {
      forall j | 0 <= j < |b| && Contains(b[j], file, off) ensures b[k].end - b[k].start <= b[j].end - b[j].start {
        assert NestedPair(b[k], b[j]);
        if j != k { assert j < k; assert KeyLe(b[j].file, b[j].start, b[k].file, b[k].start); }
        if b[j].start == b[k].start { assert SameStart(b[j], b[k]); }
      }
    }
  }

  /** The hypotheses do not depend on the arrangement. */
  lemma Rearranged(b: seq<Anchor>, a: seq<Anchor>)
    requires multiset(b) == multiset(a)
    ensures Nested(a) ==> Nested(b)
    ensures StartsAgree(a) ==> StartsAgree(b)
    ensures SymsAgree(a) ==> SymsAgree(b)
  {
    forall i | 0 <= i < |b| ensures b[i] in a { assert b[i] in multiset(b); }
  }

  /** The last non-empty range among those that start where `i` does. */
  lemma {:induction false} LastOfStart(a: seq<Anchor>, i: nat) returns (m: nat)
    requires i < |a| && !Empty(a[i])
    ensures i <= m < |a| && SameStart(a[i], a[m])
    ensures forall j :: m < j < |a| ==> !SameStart(a[m], a[j])
    decreases |a| - i
  {
    if j :| i < j < |a| && SameStart(a[i], a[j]) {
      m := LastOfStart(a, j);
    } else {
      m := i;
    }
  }

  /** At its own start, that one is what the scan answers with. */
  lemma LastAtStart(a: seq<Anchor>, m: nat)
    requires Sorted(a) && m < |a| && !Empty(a[m]) && forall j :: m < j < |a| ==> !SameStart(a[m], a[j])
    ensures LastContainer(a, a[m].file, a[m].start, m)
  {
    forall j | m < j < |a| ensures !Contains(a[j], a[m].file, a[m].start) {
      assert KeyLe(a[m].file, a[m].start, a[j].file, a[j].start) && !SameStart(a[m], a[j]);
    }
  }

  ghost function Swapped(a: seq<Anchor>, i: nat, m: nat): (b: seq<Anchor>)
    requires i < |a| && m < |a|
  {
    a[i := a[m]][m := a[i]]
  }

  /** Two ranges that start together may end up in either order. */
  lemma SwapArranges(a: seq<Anchor>, i: nat, m: nat)
    requires Sorted(a) && i <= m < |a| && SameStart(a[i], a[m])
    requires forall j :: m < j < |a| ==> !SameStart(a[m], a[j])
    ensures Arrangement(Swapped(a, i, m), a)
    ensures LastContainer(Swapped(a, i, m), a[i].file, a[i].start, m)
    ensures Swapped(a, i, m)[m] == a[i] && Swapped(a, i, m)[i] == a[m]
  {
    var b := Swapped(a, i, m);
    forall j, k | 0 <= j < k < |b| ensures KeyLe(b[j].file, b[j].start, b[k].file, b[k].start) {
      assert KeyLe(a[j].file, a[j].start, a[k].file, a[k].start);
    }
    LastAtStart(b, m);
  }

  /** On properly nested anchors the backward scan finds the innermost range at every point
      however the sort leaves equal keys, exactly when ranges that start together end
      together. */
  lemma InnermostIff(a: seq<Anchor>)
    requires Sorted(a) && Nested(a)
    ensures InnermostHowever(a) <==> StartsAgree(a)
  {
    if StartsAgree(a) {
      forall b | Arrangement(b, a) ensures AlwaysInnermost(b) {
        Rearranged(b, a);
        NestedScan(b);
      }
    }
    if InnermostHowever(a) {
      forall i, j | 0 <= i < |a| && 0 <= j < |a| && SameStart(a[i], a[j]) ensures a[i].end == a[j].end {
        StartsMustAgree(a, i, j);
        StartsMustAgree(a, j, i);
      }
    }
  }

  lemma StartsMustAgree(a: seq<Anchor>, i: nat, j: nat)
    requires Sorted(a) && InnermostHowever(a) && i < |a| && j < |a| && SameStart(a[i], a[j])
    ensures a[i].end <= a[j].end
  {
    var m := LastOfStart(a, i);
    SwapArranges(a, i, m);
    var b := Swapped(a, i, m);
    assert Innermost(b, a[i].file, a[i].start, m);
    var k := if j == i then m else if j == m then i else j;
    assert b[k] == a[j] && Contains(b[k], a[i].file, a[i].start);
  }

  /** Every arrangement answers every point with the same sym. */
  ghost predicate SymHowever(a: seq<Anchor>)
  {
    forall b: seq<Anchor>, c: seq<Anchor>, file: nat, off: nat, k: nat, m: nat ::
      Arrangement(b, a) && Arrangement(c, a) && LastContainer(b, file, off, k) && LastContainer(c, file, off, m) ==> b[k].sym == c[m].sym
  }

  /** The last container starts no earlier than any other. */
  lemma LastStartsLatest(b: seq<Anchor>, file: nat, off: nat, k: nat, x: Anchor)
    requires Sorted(b) && LastContainer(b, file, off, k) && x in b && Contains(x, file, off)
    ensures x.start <= b[k].start
  {
    var j :| 0 <= j < |b| && b[j] == x;
    assert j <= k;
    if j < k { assert KeyLe(b[j].file, b[j].start, b[k].file, b[k].start); }
  }

  /** The answer's sym is independent of how the sort leaves equal keys exactly when ranges
      that start together name the same sym; nesting is not needed for this. */
  lemma SymIff(a: seq<Anchor>)
    requires Sorted(a)
    ensures SymHowever(a) <==> SymsAgree(a)
  {
    if SymsAgree(a) {
      forall b: seq<Anchor>, c: seq<Anchor>, file: nat, off: nat, k: nat, m: nat
        | Arrangement(b, a) && Arrangement(c, a) && LastContainer(b, file, off, k) && LastContainer(c, file, off, m)
        ensures b[k].sym == c[m].sym
      {
        SymSettled(a, b, c, file, off, k, m);
      }
    }
    if SymHowever(a) {
      forall i, j | 0 <= i < |a| && 0 <= j < |a| && SameStart(a[i], a[j]) ensures a[i].sym == a[j].sym {
        var m := LastOfStart(a, i);
        SwapArranges(a, i, m);
        var n := LastOfStart(a, j);
        SwapArranges(a, j, n);
      }
    }
  }

  lemma SymSettled(a: seq<Anchor>, b: seq<Anchor>, c: seq<Anchor>, file: nat, off: nat, k: nat, m: nat)
    requires SymsAgree(a) && Arrangement(b, a) && Arrangement(c, a)
    requires LastContainer(b, file, off, k) && LastContainer(c, file, off, m)
    ensures b[k].sym == c[m].sym
  {
    assert b[k] in multiset(b) && c[m] in multiset(c);
    assert c[m] in multiset(b) && b[k] in multiset(c);
    LastStartsLatest(b, file, off, k, c[m]);
    LastStartsLatest(c, file, off, m, b[k]);
    assert b[k] in multiset(a) && c[m] in multiset(a);
    var i :| 0 <= i < |a| && a[i] == b[k];
    var j :| 0 <= j < |a| && a[j] == c[m];
    assert SameStart(a[i], a[j]);
  }

  /** A nested pair that shares a start: the sort may leave the wider one last, and the
      scan then answers with it although the narrower one encloses the point more tightly. */
  lemma WiderMayWin()
    ensures var inner, outer := Anchor(0, 10, 20, 1), Anchor(0, 10, 90, 2);
      Arrangement([inner, outer], [outer, inner]) && Nested([inner, outer])
      && LastContainer([inner, outer], 0, 15, 1) && !Innermost([inner, outer], 0, 15, 1)
  {
    var inner, outer := Anchor(0, 10, 20, 1), Anchor(0, 10, 90, 2);
    var b := [inner, outer];
    assert b[0] == inner && Contains(b[0], 0, 15);
    assert multiset(b) == multiset{inner, outer} == multiset([outer, inner]);
  }
}
