/** The sorted tables of a file, and `finish`: one builder sorted, collapsed and filtered. */
module Store {
  import opened Bytes
  import opened Facts
  import opened Keyed
  import opened Builder
  import Order

  /** The sorted tables of a file, strings inline. */
  datatype Canon = Canon(
    xrefs: seq<Row>, syms: seq<(nat, Meta)>, aliases: seq<Row>, files: seq<(nat, Str)>, inherits: seq<Row>,
    calls: seq<Row>, typed: seq<(nat, Str)>, childof: seq<Row>, sig: seq<(nat, Str)>)

  ghost predicate CanonOk(c: Canon)
  {
    && Order.Ascending(RowLess, c.xrefs) && Order.Ascending(RowLess, c.aliases) && Order.Ascending(RowLess, c.inherits)
    && Order.Ascending(RowLess, c.calls) && Order.Ascending(RowLess, c.childof)
    && KeysAscend(c.syms) && KeysAscend(c.files) && KeysAscend(c.typed) && KeysAscend(c.sig)
  }

  ghost function CanonFacts(c: Canon): Facts
  {
    Facts(RowSet(c.xrefs), RowSet(c.inherits), RowSet(c.calls), RowSet(c.childof), RowSet(c.aliases),
          ToMap(c.syms), ToMap(c.files), ToMap(c.typed), ToMap(c.sig))
  }

  lemma RowsUnique(a: seq<Row>, b: seq<Row>)
    requires Order.Ascending(RowLess, a) && Order.Ascending(RowLess, b) && RowSet(a) == RowSet(b)
    ensures a == b
  {
    hide RowLess;
    RowOrder();
    forall x ensures x in a <==> x in b { assert x in RowSet(a) <==> x in RowSet(b); }
    Order.AscendingUnique(RowLess, a, b);
  }

  /** Sorted tables are determined by what they say. */
  lemma CanonUnique(a: Canon, b: Canon)
    requires CanonOk(a) && CanonOk(b) && CanonFacts(a) == CanonFacts(b)
    ensures a == b
  {
    hide RowLess, RowSet, ToMap, Order.Ascending, KeysAscend;
    RowsUnique(a.xrefs, b.xrefs);
    RowsUnique(a.aliases, b.aliases);
    RowsUnique(a.inherits, b.inherits);
    RowsUnique(a.calls, b.calls);
    RowsUnique(a.childof, b.childof);
    KeyedUnique(a.syms, b.syms);
    KeyedUnique(a.files, b.files);
    KeyedUnique(a.typed, b.typed);
    KeyedUnique(a.sig, b.sig);
  }

  // ---------------------------------------------------------------- shared steps

  method SortRows(s: seq<Row>) returns (r: seq<Row>)
    ensures Order.Ascending(RowLess, r) && RowSet(r) == RowSet(s) && SameRows(s, r)
  {
    hide RowLess;
    RowOrder();
    r := Order.SortDedup(RowLess, s);
  }

  method MergeRows(a: seq<Row>, b: seq<Row>) returns (r: seq<Row>)
    requires Order.Ascending(RowLess, a) && Order.Ascending(RowLess, b)
    ensures Order.Ascending(RowLess, r) && RowSet(r) == RowSet(a) + RowSet(b)
  {
    hide RowLess;
    RowOrder();
    r := Order.MergeSortedDedup(RowLess, a, b);
  }

  /** The syms of variable kind. */
  method VarSyms(syms: seq<(nat, Meta)>) returns (vars: set<nat>)
    requires KeysAscend(syms)
    ensures forall s :: s in vars <==> s in ToMap(syms) && ToMap(syms)[s].kind == VARIABLE
  {
    vars := {};
    for i := 0 to |syms|
      invariant forall s :: s in vars <==> s in ToMap(syms[..i]) && ToMap(syms[..i])[s].kind == VARIABLE
    {
      PrefixMap(syms, i);
      if syms[i].1.kind == VARIABLE { vars := vars + {syms[i].0}; }
    }
    assert syms[..|syms|] == syms;
  }

  /** Keep the aliases of everything else, in order. */
  method Retain(aliases: seq<Row>, vars: set<nat>) returns (r: seq<Row>)
    requires Order.Ascending(RowLess, aliases)
    ensures Order.Ascending(RowLess, r)
    ensures forall x :: x in r <==> x in aliases && SymOf(x) !in vars
  {
    hide RowLess;
    r := [];
    for i := 0 to |aliases|
      invariant Order.Ascending(RowLess, r)
      invariant forall x :: x in r <==> x in aliases[..i] && SymOf(x) !in vars
      invariant forall p, q :: 0 <= p < |r| && i <= q < |aliases| ==> RowLess(r[p], aliases[q])
    {
      assert aliases[..i + 1] == aliases[..i] + [aliases[i]];
      if SymOf(aliases[i]) !in vars { r := r + [aliases[i]]; }
    }
    assert aliases[..|aliases|] == aliases;
  }

  lemma RetainIsSuppress(f: Facts, kept: set<Row>, vars: set<nat>)
    requires forall s :: s in vars <==> s in f.syms && f.syms[s].kind == VARIABLE
    requires forall x :: x in kept <==> x in f.aliases && SymOf(x) !in vars
    ensures f.(aliases := kept) == Suppress(f)
  {
    assert kept == Suppress(f).aliases;
  }

  // ---------------------------------------------------------------- finish

  /** Sort and collapse a builder's tables, aliases left as they are. */
  method SortBuilder(r: Rows) returns (c: Canon)
    requires Shaped(r)
    ensures CanonOk(c) && CanonFacts(c) == FactsOf(r)
  {
    hide RowLess, Order.Ascending, Best, ToMap, RowSet;
    var xrefs := SortRows(r.xrefs);
    var inherits := SortRows(r.inherits);
    var calls := SortRows(r.calls);
    var childof := SortRows(r.childof);
    var aliases := SortRows(r.aliases);
    var syms := SortMap(r.syms);
    var files := SortMap(r.files);
    var typed := Collapse(r.typed);
    var sig := Collapse(r.sig);
    c := Canon(xrefs, syms, aliases, files, inherits, calls, typed, childof, sig);
  }

  method Collapse(rows: seq<Row>) returns (out: seq<(nat, Str)>)
    requires Strings(rows)
    ensures KeysAscend(out) && ToMap(out) == Best(rows)
  {
    hide RowLess, Best;
    var sorted := SortRows(rows);
    ShapeKept(rows, sorted, 1);
    BestKept(rows, sorted);
    out := FirstPerSym(sorted);
  }

  method SuppressAliases(c: Canon) returns (r: Canon)
    requires CanonOk(c)
    ensures CanonOk(r) && CanonFacts(r) == Suppress(CanonFacts(c))
  {
    hide RowLess, Suppress, ToMap;
    var vars := VarSyms(c.syms);
    var kept := Retain(c.aliases, vars);
    r := c.(aliases := kept);
    RetainIsSuppress(CanonFacts(c), RowSet(kept), vars);
  }

  /** `finish`: one sorted file from one builder. */
  method Finish(r: Rows) returns (c: Canon)
    requires Shaped(r)
    ensures CanonOk(c) && CanonFacts(c) == Suppress(FactsOf(r))
  {
    hide CanonOk, CanonFacts, FactsOf;
    var sorted := SortBuilder(r);
    c := SuppressAliases(sorted);
  }

  // ---------------------------------------------------------------- files as sources

  lemma NoRows()
    ensures Order.Ascending(RowLess, []) && RowSet([]) == {}
  {
  }

  ghost function EachFacts(cs: seq<Canon>): (r: seq<Facts>)
    ensures |r| == |cs|
    ensures forall i :: 0 <= i < |cs| ==> r[i] == CanonFacts(cs[i])
  {
    seq(|cs|, i requires 0 <= i < |cs| => CanonFacts(cs[i]))
  }

  // ---------------------------------------------------------------- one build

  /** `c` is the file `finish` writes for the builder `r`. */
  ghost predicate Finished(r: Rows, c: Canon)
  {
    CanonOk(c) && CanonFacts(c) == Suppress(FactsOf(r))
  }

  ghost function MergedAll(rs: seq<Rows>): Rows
  {
    if rs == [] then Rows([], map[], map[], [], [], [], [], [], [])
    else Merged(MergedAll(rs[..|rs| - 1]), rs[|rs| - 1])
  }

  ghost function EachBuilder(rs: seq<Rows>): (r: seq<Facts>)
    ensures |r| == |rs|
    ensures forall i :: 0 <= i < |rs| ==> r[i] == FactsOf(rs[i])
  {
    seq(|rs|, i requires 0 <= i < |rs| => FactsOf(rs[i]))
  }

  lemma {:induction false} MergedAllIsJoinAll(rs: seq<Rows>)
    ensures FactsOf(MergedAll(rs)) == JoinAll(EachBuilder(rs))
  {
    if rs != [] {
      var n := |rs| - 1;
      MergedAllIsJoinAll(rs[..n]);
      MergedIsJoin(MergedAll(rs[..n]), rs[n]);
      assert EachBuilder(rs)[..n] == EachBuilder(rs[..n]);
    }
  }
}
