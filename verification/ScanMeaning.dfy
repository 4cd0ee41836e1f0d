/** What a serial scan answers, said of the rows themselves: which syms, in which order, and
    which are left out. One sequence fits the description. */
module ScanMeaning {
  import opened Bytes
  import opened TrigramSpec
  import TrigramQuery

  ghost predicate Hit(rows: seq<NameRow>, needle: seq<byte>, ignoreCase: bool, k: nat, s: nat)
  {
    k < |rows| && rows[k].sym == s && Matches(rows[k].name, needle, ignoreCase)
  }

  /** Every matching row of `s` comes after some matching row of `o`. */
  ghost predicate Ahead(rows: seq<NameRow>, needle: seq<byte>, ignoreCase: bool, o: nat, s: nat)
  {
    forall k: nat | Hit(rows, needle, ignoreCase, k, s) :: exists j: nat :: j < k && Hit(rows, needle, ignoreCase, j, o)
  }

  /** The syms of matching rows by first row, up to the limit: none is left out while there is
      room, nor for one that comes later. */
  ghost predicate FirstSyms(rows: seq<NameRow>, needle: seq<byte>, ignoreCase: bool, limit: nat, out: seq<nat>)
  {
    && |out| <= limit
    && (forall s | s in out :: exists k: nat :: Hit(rows, needle, ignoreCase, k, s))
    && (forall i, j | 0 <= i < j < |out| :: Ahead(rows, needle, ignoreCase, out[i], out[j]))
    && (forall k: nat, s | Hit(rows, needle, ignoreCase, k, s) && s !in out ::
          |out| == limit && forall o | o in out :: Ahead(rows, needle, ignoreCase, o, s))
  }

  /** Two syms are not each ahead of the other. */
  lemma {:induction false} NotBothAhead(rows: seq<NameRow>, needle: seq<byte>, ignoreCase: bool, o: nat, s: nat, k: nat)
    requires Hit(rows, needle, ignoreCase, k, s) && Ahead(rows, needle, ignoreCase, o, s) && Ahead(rows, needle, ignoreCase, s, o)
    ensures false
    decreases k
  {
    hide Hit;
    var j: nat :| j < k && Hit(rows, needle, ignoreCase, j, o);
    var i: nat :| i < j && Hit(rows, needle, ignoreCase, i, s);
    NotBothAhead(rows, needle, ignoreCase, o, s, i);
  }

  lemma {:induction false} ScanMember(rows: seq<NameRow>, needle: seq<byte>, ignoreCase: bool, n: nat, s: nat)
    requires n <= |rows|
    ensures s in Scan(rows, needle, ignoreCase, n) <==> exists k: nat :: k < n && Hit(rows, needle, ignoreCase, k, s)
  {
    hide Matches;
    if n > 0 {
      ScanMember(rows, needle, ignoreCase, n - 1, s);
      if k: nat :| k < n && Hit(rows, needle, ignoreCase, k, s) { assert k < n - 1 || rows[n - 1].sym == s; }
      assert s in Scan(rows, needle, ignoreCase, n) <==>
        s in Scan(rows, needle, ignoreCase, n - 1) || Hit(rows, needle, ignoreCase, n - 1, s);
    }
  }

  lemma {:induction false} ScanAhead(rows: seq<NameRow>, needle: seq<byte>, ignoreCase: bool, n: nat, i: nat, j: nat)
    requires n <= |rows| && i < j < |Scan(rows, needle, ignoreCase, n)|
    ensures Ahead(rows, needle, ignoreCase, Scan(rows, needle, ignoreCase, n)[i], Scan(rows, needle, ignoreCase, n)[j])
  {
    hide Matches;
    var before, all := Scan(rows, needle, ignoreCase, n - 1), Scan(rows, needle, ignoreCase, n);
    if j < |before| {
      ScanAhead(rows, needle, ignoreCase, n - 1, i, j);
    } else {
      assert all[i] == before[i] && all[j] == rows[n - 1].sym;
      ScanMember(rows, needle, ignoreCase, n - 1, all[i]);
      ScanMember(rows, needle, ignoreCase, n - 1, all[j]);
      assert all[i] in before;
    }
  }

  /** A matching row whose sym is not answered: the rows before it already fill the answer. */
  lemma AllBefore(rows: seq<NameRow>, needle: seq<byte>, ignoreCase: bool, limit: nat, k: nat, s: nat)
    requires Hit(rows, needle, ignoreCase, k, s) && s !in SerialScan(rows, needle, ignoreCase, limit)
    ensures var out := SerialScan(rows, needle, ignoreCase, limit);
      |out| == limit && forall o | o in out :: o in Scan(rows, needle, ignoreCase, k)
  {
    hide Matches;
    var upto, before := Scan(rows, needle, ignoreCase, k + 1), Scan(rows, needle, ignoreCase, k);
    TrigramQuery.ScanExtends(rows, needle, ignoreCase, k + 1, |rows|);
    assert upto == before || upto == before + [s];
    hide Scan;
    ScanMember(rows, needle, ignoreCase, k + 1, s);
    PrefixHolds(upto, Scan(rows, needle, ignoreCase, |rows|), limit, s, before);
  }

  lemma PrefixHolds(upto: seq<nat>, all: seq<nat>, limit: nat, s: nat, before: seq<nat>)
    requires upto <= all && s in upto && s !in Take(all, limit) && (upto == before || upto == before + [s])
    ensures |Take(all, limit)| == limit && forall o | o in Take(all, limit) :: o in before
  {
    var i :| 0 <= i < |upto| && upto[i] == s;
    assert all[i] == s;
    assert limit <= i;
    forall o | o in all[..limit] ensures o in before {
      var j :| 0 <= j < limit && all[j] == o;
      assert upto[j] == o;
    }
  }

  lemma ScanFirst(rows: seq<NameRow>, needle: seq<byte>, ignoreCase: bool, limit: nat)
    ensures FirstSyms(rows, needle, ignoreCase, limit, SerialScan(rows, needle, ignoreCase, limit))
  {
    hide Matches, Scan, Hit;
    var all, out := Scan(rows, needle, ignoreCase, |rows|), SerialScan(rows, needle, ignoreCase, limit);
    forall s | s in out ensures exists k: nat :: Hit(rows, needle, ignoreCase, k, s) {
      ScanMember(rows, needle, ignoreCase, |rows|, s);
    }
    forall i, j | 0 <= i < j < |out| ensures Ahead(rows, needle, ignoreCase, out[i], out[j]) {
      ScanAhead(rows, needle, ignoreCase, |rows|, i, j);
    }
    forall k: nat, s | Hit(rows, needle, ignoreCase, k, s) && s !in out
      ensures |out| == limit && forall o | o in out :: Ahead(rows, needle, ignoreCase, o, s)
    {
      AllBefore(rows, needle, ignoreCase, limit, k, s);
      forall o, m: nat | o in out && Hit(rows, needle, ignoreCase, m, s)
        ensures exists j: nat :: j < m && Hit(rows, needle, ignoreCase, j, o)
      {
        AllBefore(rows, needle, ignoreCase, limit, m, s);
        HitInside(rows, needle, ignoreCase, m, s);
        ScanMember(rows, needle, ignoreCase, m, o);
      }
    }
  }

  lemma HitInside(rows: seq<NameRow>, needle: seq<byte>, ignoreCase: bool, k: nat, s: nat)
    requires Hit(rows, needle, ignoreCase, k, s)
    ensures k < |rows|
  {
  }

  /** Two descriptions that agree on a prefix agree on what comes next. */
  lemma SameNext(rows: seq<NameRow>, needle: seq<byte>, ignoreCase: bool, limit: nat, a: seq<nat>, b: seq<nat>, k: nat)
    requires FirstSyms(rows, needle, ignoreCase, limit, a) && FirstSyms(rows, needle, ignoreCase, limit, b)
    requires k < |a| && k <= |b| && a[..k] == b[..k]
    ensures k < |b| && b[k] == a[k]
  {
    hide Ahead, Hit;
    var x := a[k];
    assert x in a;
    var m: nat :| Hit(rows, needle, ignoreCase, m, x);
    Distinct(rows, needle, ignoreCase, limit, a);
    Distinct(rows, needle, ignoreCase, limit, b);
    forall j | 0 <= j < k ensures a[j] == b[j] { assert a[..k][j] == b[..k][j]; }
    if x in b {
      var j :| 0 <= j < |b| && b[j] == x;
      assert j >= k;
    }
    assert k < |b|;
    if b[k] != x {
      var y := b[k];
      assert y in b;
      assert Ahead(rows, needle, ignoreCase, y, x);
      if y in a {
        var j :| 0 <= j < |a| && a[j] == y;
        assert j > k;
      } else {
        var i: nat :| Hit(rows, needle, ignoreCase, i, y);
      }
      assert Ahead(rows, needle, ignoreCase, x, y);
      NotBothAhead(rows, needle, ignoreCase, y, x, m);
    }
  }

  lemma Distinct(rows: seq<NameRow>, needle: seq<byte>, ignoreCase: bool, limit: nat, a: seq<nat>)
    requires FirstSyms(rows, needle, ignoreCase, limit, a)
    ensures forall i, j :: 0 <= i < j < |a| ==> a[i] != a[j]
  {
    hide Ahead, Hit;
    forall i, j | 0 <= i < j < |a| ensures a[i] != a[j] {
      if a[i] == a[j] {
        assert Ahead(rows, needle, ignoreCase, a[i], a[j]);
        assert a[j] in a;
        var k: nat :| Hit(rows, needle, ignoreCase, k, a[j]);
        NotBothAhead(rows, needle, ignoreCase, a[i], a[j], k);
      }
    }
  }

  lemma {:induction false} SamePrefix(rows: seq<NameRow>, needle: seq<byte>, ignoreCase: bool, limit: nat, a: seq<nat>, b: seq<nat>, k: nat)
    requires FirstSyms(rows, needle, ignoreCase, limit, a) && FirstSyms(rows, needle, ignoreCase, limit, b) && k <= |a|
    ensures k <= |b| && a[..k] == b[..k]
  {
    hide FirstSyms;
    if k > 0 {
      SamePrefix(rows, needle, ignoreCase, limit, a, b, k - 1);
      SameNext(rows, needle, ignoreCase, limit, a, b, k - 1);
      assert a[..k] == a[..k - 1] + [a[k - 1]] && b[..k] == b[..k - 1] + [b[k - 1]];
    }
  }

  /** The serial scan's answer is the one sequence that fits. */
  lemma ScanIsFirst(rows: seq<NameRow>, needle: seq<byte>, ignoreCase: bool, limit: nat, out: seq<nat>)
    ensures out == SerialScan(rows, needle, ignoreCase, limit) <==> FirstSyms(rows, needle, ignoreCase, limit, out)
  {
    hide FirstSyms, SerialScan;
    var scan := SerialScan(rows, needle, ignoreCase, limit);
    ScanFirst(rows, needle, ignoreCase, limit);
    if FirstSyms(rows, needle, ignoreCase, limit, out) {
      SamePrefix(rows, needle, ignoreCase, limit, out, scan, |out|);
      SamePrefix(rows, needle, ignoreCase, limit, scan, out, |scan|);
      assert out[..|out|] == out && scan[..|scan|] == scan;
    }
  }
}
