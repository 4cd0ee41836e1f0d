/** Tables with one row per key, sorted by key: symbols, files, types, signatures. */
module Keyed {
  import opened Facts
  import opened Bytes
  import Order

  ghost predicate KeysAscend<V>(s: seq<(nat, V)>)
  {
    forall i, j :: 0 <= i < j < |s| ==> s[i].0 < s[j].0
  }

  ghost function ToMap<V>(s: seq<(nat, V)>): map<nat, V>
  {
    if s == [] then map[] else ToMap(s[..|s| - 1])[s[|s| - 1].0 := s[|s| - 1].1]
  }

  lemma ToMapAppend<V>(s: seq<(nat, V)>, k: nat, v: V)
    ensures ToMap(s + [(k, v)]) == ToMap(s)[k := v]
  {
    assert (s + [(k, v)])[..|s|] == s;
  }

  lemma {:induction false} ToMapBound<V>(s: seq<(nat, V)>, bound: nat)
    requires forall i :: 0 <= i < |s| ==> s[i].0 < bound
    ensures forall k :: k in ToMap(s) ==> k < bound
  {
    if s != [] { ToMapBound(s[..|s| - 1], bound); }
  }

  lemma NonEmptyMap<V>(s: seq<(nat, V)>)
    ensures s != [] ==> s[|s| - 1].0 in ToMap(s)
  {
  }

  lemma LastKey<V>(s: seq<(nat, V)>)
    requires KeysAscend(s) && s != []
    ensures var k := s[|s| - 1].0;
            && k in ToMap(s) && ToMap(s)[k] == s[|s| - 1].1
            && ToMap(s[..|s| - 1]) == ToMap(s) - {k}
            && (forall x :: x in ToMap(s) ==> x <= k)
  {
    var n := |s| - 1;
    var before := ToMap(s[..n]);
    assert ToMap(s) == before[s[n].0 := s[n].1];
    hide ToMap;
    ToMapBound(s[..n], s[n].0);
    AddRemove(before, s[n].0, s[n].1);
  }

  lemma AddRemove<V>(m: map<nat, V>, k: nat, v: V)
    requires k !in m
    ensures m[k := v] - {k} == m
  {
  }

  /** A key-sorted table maps exactly what its rows say. */
  lemma {:induction false} MapOfRows<V>(t: seq<(nat, V)>, k: nat, v: V)
    requires KeysAscend(t)
    ensures (k in ToMap(t) && ToMap(t)[k] == v) <==> (k, v) in t
  {
    if t != [] {
      var n := |t| - 1;
      MapOfRows(t[..n], k, v);
      assert t == t[..n] + [t[n]];
      if k == t[n].0 && (k, v) in t[..n] { assert false; }
    }
  }

  /** A key-sorted table is determined by what it maps. */
  lemma {:induction false} KeyedUnique<V>(a: seq<(nat, V)>, b: seq<(nat, V)>)
    requires KeysAscend(a) && KeysAscend(b) && ToMap(a) == ToMap(b)
    ensures a == b
  {
    NonEmptyMap(a);
    NonEmptyMap(b);
    if a != [] && b != [] {
      hide ToMap;
      var n, m := |a| - 1, |b| - 1;
      LastKey(a);
      LastKey(b);
      assert a[n].0 == b[m].0;
      KeyedUnique(a[..n], b[..m]);
      assert a == a[..n] + [a[n]] && b == b[..m] + [b[m]];
    }
  }

  /** The entries of `m` under the listed keys. */
  ghost function Only<V>(m: map<nat, V>, ks: seq<nat>): map<nat, V>
  {
    map k | k in ks && k in m :: m[k]
  }

  lemma OnlyMore<V>(m: map<nat, V>, ks: seq<nat>, k: nat)
    requires k in m
    ensures Only(m, ks + [k]) == Only(m, ks)[k := m[k]]
  {
  }

  lemma OnlyAll<V>(m: map<nat, V>, ks: seq<nat>)
    requires forall k :: k in m.Keys <==> k in ks
    ensures Only(m, ks) == m
  {
  }

  method DrainKeys(rest0: set<nat>) returns (any: seq<nat>)
    ensures forall k :: k in rest0 <==> k in any
  {
    any := [];
    var rest := rest0;
    while rest != {}
      invariant forall k :: k in rest0 <==> k in any || k in rest
    {
      var k :| k in rest;
      any, rest := any + [k], rest - {k};
    }
  }

  /** `drain().collect()` then `sort_unstable_by_key`. */
  method SortMap<V>(m: map<nat, V>) returns (r: seq<(nat, V)>)
    ensures KeysAscend(r) && ToMap(r) == m
  {
    hide ToMap, Only;
    var any := DrainKeys(m.Keys);
    var keys := Order.SortDedup((x: nat, y: nat) => x < y, any);
    r := [];
    NothingMapped(m);
    for i := 0 to |keys|
      invariant |r| == i
      invariant forall j :: 0 <= j < i ==> r[j].0 == keys[j]
      invariant ToMap(r) == Only(m, keys[..i])
    {
      assert keys[i] in keys;
      assert keys[..i + 1] == keys[..i] + [keys[i]];
      OnlyMore(m, keys[..i], keys[i]);
      ToMapAppend(r, keys[i], m[keys[i]]);
      r := r + [(keys[i], m[keys[i]])];
    }
    assert keys[..|keys|] == keys;
    OnlyAll(m, keys);
  }

  lemma NothingMapped<V>(m: map<nat, V>)
    ensures ToMap<V>([]) == map[] && Only(m, []) == map[]
  {
  }

  lemma JoinMapLeft<V>(f: (V, V) -> V, x: map<nat, V>, y: map<nat, V>, k: nat, v: V)
    requires k !in x && k !in y
    ensures JoinMap(f, x[k := v], y) == JoinMap(f, x, y)[k := v]
    ensures JoinMap(f, x, y[k := v]) == JoinMap(f, x, y)[k := v]
  {
  }

  lemma JoinMapBoth<V>(f: (V, V) -> V, x: map<nat, V>, y: map<nat, V>, k: nat, v: V, w: V)
    requires k !in x && k !in y
    ensures JoinMap(f, x[k := v], y[k := w]) == JoinMap(f, x, y)[k := f(v, w)]
  {
  }

  /** Every key before both cursors is below every key at or after either. */
  ghost predicate Below<V>(s: seq<(nat, V)>, i: nat, t: seq<(nat, V)>, j: nat)
    requires i <= |s| && j <= |t|
  {
    forall p, q :: 0 <= p < i && j <= q < |t| ==> s[p].0 < t[q].0
  }

  lemma PrefixMap<V>(s: seq<(nat, V)>, i: nat)
    requires KeysAscend(s) && i < |s|
    ensures ToMap(s[..i + 1]) == ToMap(s[..i])[s[i].0 := s[i].1]
    ensures s[i].0 !in ToMap(s[..i])
  {
    assert s[..i + 1] == s[..i] + [(s[i].0, s[i].1)];
    ToMapAppend(s[..i], s[i].0, s[i].1);
    ToMapBound(s[..i], s[i].0);
  }

  /** One step of the two-cursor merge: what is yielded, and where the cursors go. */
  method MergeStep<V>(f: (V, V) -> V, a: seq<(nat, V)>, i: nat, b: seq<(nat, V)>, j: nat)
    returns (row: (nat, V), i': nat, j': nat)
    requires KeysAscend(a) && KeysAscend(b) && i <= |a| && j <= |b| && (i < |a| || j < |b|)
    requires Below(a, i, b, j) && Below(b, j, a, i)
    ensures i <= i' <= |a| && j <= j' <= |b| && i + j < i' + j'
    ensures Below(a, i', b, j') && Below(b, j', a, i')
    ensures JoinMap(f, ToMap(a[..i']), ToMap(b[..j'])) == JoinMap(f, ToMap(a[..i]), ToMap(b[..j]))[row.0 := row.1]
    ensures (i < |a| && row.0 == a[i].0) || (j < |b| && row.0 == b[j].0)
    ensures i' < |a| ==> row.0 < a[i'].0
    ensures j' < |b| ==> row.0 < b[j'].0
  {
    hide JoinMap, ToMap;
    if i < |a| { PrefixMap(a, i); ToMapBound(b[..j], a[i].0); }
    if j < |b| { PrefixMap(b, j); ToMapBound(a[..i], b[j].0); }
    if i < |a| && (j == |b| || a[i].0 < b[j].0) {
      JoinMapLeft(f, ToMap(a[..i]), ToMap(b[..j]), a[i].0, a[i].1);
      row, i', j' := a[i], i + 1, j;
    } else if j < |b| && (i == |a| || b[j].0 < a[i].0) {
      JoinMapLeft(f, ToMap(a[..i]), ToMap(b[..j]), b[j].0, b[j].1);
      row, i', j' := b[j], i, j + 1;
    } else {
      JoinMapBoth(f, ToMap(a[..i]), ToMap(b[..j]), a[i].0, a[i].1, b[j].1);
      row, i', j' := (a[i].0, f(a[i].1, b[j].1)), i + 1, j + 1;
    }
  }

  /** The merge behind `merge_syms_refine`, `merge_files_first_wins` and
      `merge_typed_by_sym`: they differ only in what they do with equal keys. */
  method MergeKeyed<V>(f: (V, V) -> V, a: seq<(nat, V)>, b: seq<(nat, V)>) returns (out: seq<(nat, V)>)
    requires KeysAscend(a) && KeysAscend(b)
    ensures KeysAscend(out) && ToMap(out) == JoinMap(f, ToMap(a), ToMap(b))
  {
    hide JoinMap, ToMap;
    out := [];
    var i, j := 0, 0;
    assert ToMap(out) == JoinMap(f, ToMap(a[..i]), ToMap(b[..j])) by { EmptyJoin(f, a[..i], b[..j]); }
    while i < |a| || j < |b|
      invariant 0 <= i <= |a| && 0 <= j <= |b|
      invariant Below(a, i, b, j) && Below(b, j, a, i)
      invariant KeysAscend(out)
      invariant ToMap(out) == JoinMap(f, ToMap(a[..i]), ToMap(b[..j]))
      invariant out != [] && i < |a| ==> out[|out| - 1].0 < a[i].0
      invariant out != [] && j < |b| ==> out[|out| - 1].0 < b[j].0
      decreases |a| - i + |b| - j
    {
      var row, i', j' := MergeStep(f, a, i, b, j);
      ToMapAppend(out, row.0, row.1);
      assert row == (row.0, row.1);
      out := out + [row];
      i, j := i', j';
    }
    assert a[..i] == a && b[..j] == b;
  }

  lemma EmptyJoin<V>(f: (V, V) -> V, a: seq<(nat, V)>, b: seq<(nat, V)>)
    requires a == [] && b == []
    ensures ToMap<V>([]) == JoinMap(f, ToMap(a), ToMap(b))
  {
  }

  // ---------------------------------------------------------------- one string per sym

  /** The string each sym keeps out of raw (sym, string) rows. */
  ghost function Best(rows: seq<Row>): map<nat, Str>
  {
    if rows == [] then map[]
    else
      var n := |rows| - 1;
      JoinMap(Smaller, Best(rows[..n]), map[SymOf(rows[n]) := rows[n].text])
  }

  lemma {:induction false} BestConcat(a: seq<Row>, b: seq<Row>)
    ensures Best(a + b) == JoinMap(Smaller, Best(a), Best(b))
  {
    if b == [] {
      assert a + b == a;
      JoinMapEmpty(Smaller, Best(a));
    } else {
      var n := |b| - 1;
      assert (a + b)[..|a + b| - 1] == a + b[..n];
      BestConcat(a, b[..n]);
      SmallerAssociative();
      JoinMapAssociative(Smaller, Best(a), Best(b[..n]), map[SymOf(b[n]) := b[n].text]);
    }
  }

  /** It is the lexically smallest of the sym's strings. */
  ghost predicate IsBest(rows: seq<Row>, m: map<nat, Str>)
  {
    && (forall i :: 0 <= i < |rows| ==> SymOf(rows[i]) in m && !LexLess(rows[i].text, m[SymOf(rows[i])]))
    && (forall k :: k in m ==> HasRow(rows, k, m[k]))
  }

  ghost predicate HasRow(rows: seq<Row>, k: nat, text: Str)
  {
    exists i :: 0 <= i < |rows| && SymOf(rows[i]) == k && rows[i].text == text
  }

  lemma {:induction false} BestIsBest(rows: seq<Row>)
    requires forall i :: 0 <= i < |rows| ==> rows[i].text != []
    ensures IsBest(rows, Best(rows))
  {
    if rows != [] {
      var n := |rows| - 1;
      var before, m := Best(rows[..n]), Best(rows);
      BestIsBest(rows[..n]);
      var s, t := SymOf(rows[n]), rows[n].text;
      LexIrreflexive(t);
      forall i | 0 <= i < |rows| ensures SymOf(rows[i]) in m && !LexLess(rows[i].text, m[SymOf(rows[i])]) {
        if i < n {
          assert rows[..n][i] == rows[i];
          if SymOf(rows[i]) == s && LexLess(rows[i].text, t) && LexLess(t, before[s]) {
            LexTransitive(rows[i].text, t, before[s]);
          }
        }
      }
      forall k | k in m ensures HasRow(rows, k, m[k]) {
        if k in before && m[k] == before[k] {
          var i :| 0 <= i < n && SymOf(rows[..n][i]) == k && rows[..n][i].text == before[k];
          assert rows[i] == rows[..n][i];
        } else {
          assert SymOf(rows[n]) == k && rows[n].text == m[k];
        }
      }
    }
  }

  /** Any rearrangement or duplication of the rows keeps the same strings. */
  lemma BestUnique(a: seq<Row>, m: map<nat, Str>, b: seq<Row>, n: map<nat, Str>)
    requires IsBest(a, m) && IsBest(b, n)
    requires forall r :: r in a <==> r in b
    ensures m == n
  {
    forall k | k in m ensures k in n && m[k] == n[k] { BestBelow(a, m, b, n, k); BestBelow(b, n, a, m, k); LexTotal(m[k], n[k]); }
    forall k | k in n ensures k in m { BestBelow(b, n, a, m, k); }
  }

  lemma BestBelow(a: seq<Row>, m: map<nat, Str>, b: seq<Row>, n: map<nat, Str>, k: nat)
    requires IsBest(a, m) && IsBest(b, n) && k in m
    requires forall r :: r in a ==> r in b
    ensures k in n && !LexLess(m[k], n[k])
  {
    assert HasRow(a, k, m[k]);
    var i :| 0 <= i < |a| && SymOf(a[i]) == k && a[i].text == m[k];
    assert a[i] in b;
    var j :| 0 <= j < |b| && b[j] == a[i];
  }

  /** The one-row-per-sym collapse of sorted (sym, string) rows. */
  method FirstPerSym(rows: seq<Row>) returns (out: seq<(nat, Str)>)
    requires Order.Ascending(RowLess, rows)
    requires forall i :: 0 <= i < |rows| ==> |rows[i].cols| == 1 && rows[i].text != []
    ensures KeysAscend(out) && ToMap(out) == Best(rows)
  {
    hide RowLess, Best, Smaller, IsBest, ToMap;
    out := [];
    var last: Option<nat> := None;
    NoneBest(rows);
    for i := 0 to |rows|
      invariant KeysAscend(out)
      invariant last == if out == [] then None else Some(out[|out| - 1].0)
      invariant out == [] <==> i == 0
      invariant i > 0 ==> out[|out| - 1].0 == SymOf(rows[i - 1]) && SymOf(rows[i - 1]) in ToMap(out)
      invariant IsBest(rows[..i], ToMap(out))
    {
      var s := SymOf(rows[i]);
      SortedSyms(rows, i);
      if last != Some(s) {
        if out != [] { ToMapBound(out, s); } else { NoneIn(out, s); }
        FirstStep(rows, i, ToMap(out));
        ToMapAppend(out, s, rows[i].text);
        last := Some(s);
        out := out + [(s, rows[i].text)];
      } else {
        FirstStep(rows, i, ToMap(out));
      }
    }
    assert rows[..|rows|] == rows;
    BestIsBest(rows);
    BestUnique(rows, ToMap(out), rows, Best(rows));
  }

  lemma NoneBest(rows: seq<Row>)
    ensures IsBest(rows[..0], ToMap([]))
  {
  }

  lemma NoneIn(out: seq<(nat, Str)>, s: nat)
    requires out == []
    ensures s !in ToMap(out)
  {
  }

  /** Sorted rows: syms do not decrease, and within a sym strings do not. */
  lemma SortedSyms(rows: seq<Row>, i: nat)
    requires Order.Ascending(RowLess, rows) && 0 <= i < |rows|
    requires forall k :: 0 <= k < |rows| ==> |rows[k].cols| == 1
    ensures forall k :: 0 <= k < i ==> SymOf(rows[k]) <= SymOf(rows[i])
    ensures forall k :: 0 <= k < i && SymOf(rows[k]) == SymOf(rows[i]) ==> !LexLess(rows[i].text, rows[k].text)
  {
    forall k | 0 <= k < i
      ensures SymOf(rows[k]) <= SymOf(rows[i])
      ensures SymOf(rows[k]) == SymOf(rows[i]) ==> !LexLess(rows[i].text, rows[k].text)
    {
      var a, b := rows[k], rows[i];
      assert RowLess(a, b);
      OneColumn(a.cols, b.cols);
      if LexLess(a.text, b.text) && LexLess(b.text, a.text) { LexTransitive(a.text, b.text, a.text); LexIrreflexive(a.text); }
    }
  }

  lemma OneColumn(a: seq<nat>, b: seq<nat>)
    requires |a| == |b| == 1
    ensures LexLess(a, b) <==> a[0] < b[0]
    ensures a == b <==> a[0] == b[0]
  {
  }

  lemma FirstStep(rows: seq<Row>, i: nat, m: map<nat, Str>)
    requires i < |rows| && IsBest(rows[..i], m)
    requires forall k :: 0 <= k < i && SymOf(rows[k]) == SymOf(rows[i]) ==> !LexLess(rows[i].text, rows[k].text)
    ensures SymOf(rows[i]) in m ==> IsBest(rows[..i + 1], m)
    ensures SymOf(rows[i]) !in m ==> IsBest(rows[..i + 1], m[SymOf(rows[i]) := rows[i].text])
  {
    hide LexLess, SymOf;
    var s := SymOf(rows[i]);
    var m' := if s in m then m else m[s := rows[i].text];
    LexIrreflexive(rows[i].text);
    var pre, post := rows[..i], rows[..i + 1];
    assert forall k :: 0 <= k < i ==> pre[k] == post[k] == rows[k];
    if s in m { assert HasRow(pre, s, m[s]); }
    forall k | 0 <= k < |post| ensures SymOf(post[k]) in m' && !LexLess(post[k].text, m'[SymOf(post[k])]) {
      if k < i { assert SymOf(pre[k]) in m; }
    }
    forall k | k in m' ensures HasRow(post, k, m'[k]) {
      if k in m {
        assert HasRow(pre, k, m[k]);
        var q :| 0 <= q < |pre| && SymOf(pre[q]) == k && pre[q].text == m[k];
        assert SymOf(post[q]) == k;
      } else {
        assert SymOf(post[i]) == s;
      }
    }
  }
}
