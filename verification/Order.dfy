/** Strictly ascending sequences: the one shape every table of the index has after
    `sort_unstable(); dedup()`, and the shape the streaming merge preserves. */
module Order {

  ghost predicate StrictOrder<T(!new)>(lt: (T, T) -> bool)
  {
    && (forall x :: !lt(x, x))
    && (forall x, y, z :: lt(x, y) && lt(y, z) ==> lt(x, z))
    && (forall x, y :: lt(x, y) || x == y || lt(y, x))
  }

  ghost predicate Ascending<T>(lt: (T, T) -> bool, s: seq<T>)
  {
    forall i, j :: 0 <= i < j < |s| ==> lt(s[i], s[j])
  }

  /** An ascending sequence is determined by its elements: sorting in any way, from
      any arrangement of the input, gives one result. */
  lemma {:induction false} AscendingUnique<T(!new)>(lt: (T, T) -> bool, a: seq<T>, b: seq<T>)
    requires StrictOrder(lt) && Ascending(lt, a) && Ascending(lt, b)
    requires forall x :: x in a <==> x in b
    ensures a == b
  {
    if a == [] {
      assert forall i :: 0 <= i < |b| ==> b[i] in b;
    } else {
      assert a[0] in b && b != [];
      assert b[0] in a;
      var i :| 0 <= i < |b| && b[i] == a[0];
      var j :| 0 <= j < |a| && a[j] == b[0];
      assert a[0] == b[0];
      forall x ensures x in a[1..] <==> x in b[1..] {
        TailMember(lt, a, x);
        TailMember(lt, b, x);
      }
      AscendingUnique(lt, a[1..], b[1..]);
      assert a == [a[0]] + a[1..] && b == [b[0]] + b[1..];
    }
  }

  lemma TailMember<T(!new)>(lt: (T, T) -> bool, a: seq<T>, x: T)
    requires StrictOrder(lt) && Ascending(lt, a) && a != []
    ensures x in a[1..] <==> x in a && x != a[0]
  {
    if x in a[1..] {
      var i :| 0 <= i < |a[1..]| && a[1..][i] == x;
      assert a[i + 1] == x && lt(a[0], a[i + 1]);
    }
    if x in a && x != a[0] {
      var i :| 0 <= i < |a| && a[i] == x;
      assert a[1..][i - 1] == x;
    }
  }

  /** Where `x` belongs in an ascending sequence. */
  method InsertionPoint<T>(lt: (T, T) -> bool, s: seq<T>, x: T) returns (k: nat)
    ensures k <= |s|
    ensures forall i :: 0 <= i < k ==> lt(s[i], x)
    ensures k < |s| ==> !lt(s[k], x)
  {
    k := 0;
    while k < |s| && lt(s[k], x)
      invariant k <= |s|
      invariant forall i :: 0 <= i < k ==> lt(s[i], x)
    {
      k := k + 1;
    }
  }

  lemma InsertAscending<T(!new)>(lt: (T, T) -> bool, s: seq<T>, x: T, k: nat)
    requires StrictOrder(lt) && Ascending(lt, s) && k <= |s|
    requires forall i :: 0 <= i < k ==> lt(s[i], x)
    requires k < |s| ==> lt(x, s[k])
    ensures Ascending(lt, s[..k] + [x] + s[k..])
  {
    var r := s[..k] + [x] + s[k..];
    forall i, j | 0 <= i < j < |r| ensures lt(r[i], r[j]) {
      if i == k { assert k < |s| && (j - 1 == k || lt(s[k], s[j - 1])); }
    }
  }

  /** `sort_unstable(); dedup()`: the ascending sequence of the distinct elements. */
  method SortDedup<T(!new, ==)>(lt: (T, T) -> bool, s: seq<T>) returns (r: seq<T>)
    requires StrictOrder(lt)
    ensures Ascending(lt, r)
    ensures forall x :: x in r <==> x in s
  {
    r := [];
    for n := 0 to |s|
      invariant Ascending(lt, r)
      invariant forall x :: x in r <==> x in s[..n]
    {
      var x := s[n];
      assert s[..n + 1] == s[..n] + [x];
      var k := InsertionPoint(lt, r, x);
      if k == |r| || r[k] != x {
        InsertAscending(lt, r, x, k);
        ghost var was := r;
        assert was == was[..k] + was[k..];
        r := r[..k] + [x] + r[k..];
      }
    }
    assert s[..|s|] == s;
  }

  /** One pass of the `merge_sorted_dedup` iterator: two peeked cursors and the last
      value yielded. The result is the ascending sequence of the union. */
  method MergeSortedDedup<T(!new, ==)>(lt: (T, T) -> bool, a: seq<T>, b: seq<T>) returns (out: seq<T>)
    requires StrictOrder(lt) && Ascending(lt, a) && Ascending(lt, b)
    ensures Ascending(lt, out)
    ensures forall x :: x in out <==> x in a || x in b
  {
    out := [];
    var i, j := 0, 0;
    while i < |a| || j < |b|
      invariant 0 <= i <= |a| && 0 <= j <= |b|
      invariant Ascending(lt, out)
      invariant forall x :: x in out <==> x in a[..i] || x in b[..j]
      invariant forall p, q :: 0 <= p < |out| && i <= q < |a| ==> lt(out[p], a[q])
      invariant forall p, q :: 0 <= p < |out| && j <= q < |b| ==> lt(out[p], b[q])
      decreases |a| - i + |b| - j
    {
      var v;
      ghost var i0, j0 := i, j;
      if i < |a| && j < |b| {
        if lt(a[i], b[j]) { v, i := a[i], i + 1; }
        else if lt(b[j], a[i]) { v, j := b[j], j + 1; }
        else { v, i, j := a[i], i + 1, j + 1; }
      } else if i < |a| { v, i := a[i], i + 1; }
      else { v, j := b[j], j + 1; }
      PrefixStep(a, i0, i, v);
      PrefixStep(b, j0, j, v);
      if out != [] && out[|out| - 1] == v {
        // the peeked value repeats the last one yielded
        continue;
      }
      out := out + [v];
    }
    assert a[..i] == a && b[..j] == b;
  }

  lemma PrefixStep<T>(s: seq<T>, i0: nat, i: nat, v: T)
    requires i0 <= i <= i0 + 1 && i <= |s|
    requires i == i0 + 1 ==> s[i0] == v
    ensures forall x :: x in s[..i] <==> x in s[..i0] || (i != i0 && x == v)
  {
    if i != i0 { assert s[..i] == s[..i0] + [v]; }
  }

  /** Take an element out of a rearrangement of a sequence that ends in it. */
  lemma TakeOut<T>(gs: seq<T>, x: T, fs: seq<T>) returns (a: seq<T>, b: seq<T>)
    requires multiset(fs + [x]) == multiset(gs)
    ensures gs == a + [x] + b && multiset(fs) == multiset(a + b)
  {
    assert x in multiset(fs + [x]);
    var j :| 0 <= j < |gs| && gs[j] == x;
    a, b := gs[..j], gs[j + 1..];
    assert gs == a + [x] + b;
    assert multiset(fs) == multiset(fs + [x]) - multiset{x};
    assert multiset(a + [x] + b) == multiset(a + b) + multiset{x};
  }
}
