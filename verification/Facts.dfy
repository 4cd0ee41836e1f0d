/** What a set of index rows says, and how two such sets combine.

    Sorting, deduplication and streaming merges only ever act on this content: the
    append-only tables are sets, the keyed tables are maps with a rule for equal keys.
    The results here say when merging finished shards loses nothing. */
module Facts {
  import opened Bytes
  import Names
  import Order

  type Str = seq<byte>

  /** One row of an append-only table: its numeric columns, then its string if any. */
  datatype Row = Row(cols: seq<nat>, text: Str)

  function RowLess(a: Row, b: Row): bool
  {
    LexLess(a.cols, b.cols) || (a.cols == b.cols && LexLess(a.text, b.text))
  }

  lemma RowOrder()
    ensures Order.StrictOrder(RowLess)
  {
    forall x: Row ensures !RowLess(x, x) {
      LexIrreflexive(x.cols);
      LexIrreflexive(x.text);
    }
    forall x: Row, y: Row, z: Row | RowLess(x, y) && RowLess(y, z) ensures RowLess(x, z) {
      if LexLess(x.cols, y.cols) && LexLess(y.cols, z.cols) { LexTransitive(x.cols, y.cols, z.cols); }
      if LexLess(x.text, y.text) && LexLess(y.text, z.text) { LexTransitive(x.text, y.text, z.text); }
    }
    forall x: Row, y: Row ensures RowLess(x, y) || x == y || RowLess(y, x) {
      LexTotal(x.cols, y.cols);
      LexTotal(x.text, y.text);
    }
  }

  ghost function RowSet(s: seq<Row>): (r: set<Row>)
    ensures forall x :: x in r <==> x in s
  {
    set x | x in s
  }

  /** The sym a row is about. */
  function SymOf(r: Row): nat
  {
    if r.cols == [] then 0 else r.cols[0]
  }

  const UNK: nat := 0
  const VARIABLE: nat := 3
  const FIELD: nat := 4

  datatype Meta = Meta(kind: nat, lang: nat, name: Str)

  // ---------------------------------------------------------------- combining keyed rows

  function Known(a: nat, b: nat): nat
  {
    if a != UNK then a else b
  }

  /** Refine on a tied sym: the first known kind and language, the preferred name. */
  function Refine(a: Meta, b: Meta): Meta
  {
    Meta(Known(a.kind, b.kind), Known(a.lang, b.lang), Names.Pick(a.name, b.name))
  }

  function FirstWins(a: Str, b: Str): Str
  {
    a
  }

  /** The better of two rendered strings: non-empty first, then lexically smaller. */
  function Smaller(a: Str, b: Str): Str
  {
    if a != [] && b == [] then a
    else if a == [] && b != [] then b
    else if LexLess(b, a) then b else a
  }

  ghost predicate Associative<V(!new)>(f: (V, V) -> V)
  {
    forall x, y, z :: f(f(x, y), z) == f(x, f(y, z))
  }

  lemma RefineAssociative()
    ensures Associative(Refine)
  {
    forall x: Meta, y: Meta, z: Meta ensures Refine(Refine(x, y), z) == Refine(x, Refine(y, z)) {
      Names.PickAssociative(x.name, y.name, z.name);
    }
  }

  lemma SmallerAssociative()
    ensures Associative(Smaller)
  {
    forall x: Str, y: Str, z: Str ensures Smaller(Smaller(x, y), z) == Smaller(x, Smaller(y, z)) {
      if LexLess(z, y) && LexLess(y, x) { LexTransitive(z, y, x); }
      LexTotal(x, y);
      LexTotal(y, z);
      if LexLess(x, y) && LexLess(y, z) { LexTransitive(x, y, z); }
      if LexLess(x, z) && LexLess(z, x) { LexTransitive(x, z, x); LexIrreflexive(x); }
    }
  }

  function JoinMap<V>(f: (V, V) -> V, a: map<nat, V>, b: map<nat, V>): map<nat, V>
  {
    map k | k in a.Keys + b.Keys :: if k in a then if k in b then f(a[k], b[k]) else a[k] else b[k]
  }

  lemma JoinMapAssociative<V(!new)>(f: (V, V) -> V, a: map<nat, V>, b: map<nat, V>, c: map<nat, V>)
    requires Associative(f)
    ensures JoinMap(f, JoinMap(f, a, b), c) == JoinMap(f, a, JoinMap(f, b, c))
  {
  }

  // ---------------------------------------------------------------- facts

  datatype Facts = Facts(
    xrefs: set<Row>, inherits: set<Row>, calls: set<Row>, childof: set<Row>, aliases: set<Row>,
    syms: map<nat, Meta>, files: map<nat, Str>, typed: map<nat, Str>, sig: map<nat, Str>)

  const EMPTY: Facts := Facts({}, {}, {}, {}, {}, map[], map[], map[], map[])

  function Join(a: Facts, b: Facts): Facts
  {
    Facts(a.xrefs + b.xrefs, a.inherits + b.inherits, a.calls + b.calls, a.childof + b.childof, a.aliases + b.aliases,
          JoinMap(Refine, a.syms, b.syms), JoinMap(FirstWins, a.files, b.files),
          JoinMap(Smaller, a.typed, b.typed), JoinMap(Smaller, a.sig, b.sig))
  }

  /** Grouping never matters. */
  lemma JoinAssociative(a: Facts, b: Facts, c: Facts)
    ensures Join(Join(a, b), c) == Join(a, Join(b, c))
  {
    RefineAssociative();
    SmallerAssociative();
    JoinMapAssociative(Refine, a.syms, b.syms, c.syms);
    JoinMapAssociative(FirstWins, a.files, b.files, c.files);
    JoinMapAssociative(Smaller, a.typed, b.typed, c.typed);
    JoinMapAssociative(Smaller, a.sig, b.sig, c.sig);
  }

  lemma JoinMapEmpty<V>(f: (V, V) -> V, a: map<nat, V>)
    ensures JoinMap(f, map[], a) == a == JoinMap(f, a, map[])
  {
  }

  lemma JoinEmpty(a: Facts)
    ensures Join(EMPTY, a) == a == Join(a, EMPTY)
  {
    hide Refine, FirstWins, Smaller, JoinMap;
    JoinMapEmpty(Refine, a.syms);
    JoinMapEmpty(FirstWins, a.files);
    JoinMapEmpty(Smaller, a.typed);
    JoinMapEmpty(Smaller, a.sig);
  }

  function JoinAll(fs: seq<Facts>): Facts
  {
    if fs == [] then EMPTY else Join(JoinAll(fs[..|fs| - 1]), fs[|fs| - 1])
  }

  lemma {:induction false} JoinAllConcat(a: seq<Facts>, b: seq<Facts>)
    ensures JoinAll(a + b) == Join(JoinAll(a), JoinAll(b))
  {
    if b == [] {
      assert a + b == a;
      JoinEmpty(JoinAll(a));
    } else {
      var n := |b| - 1;
      assert (a + b)[..|a + b| - 1] == a + b[..n];
      JoinAllConcat(a, b[..n]);
      JoinAssociative(JoinAll(a), JoinAll(b[..n]), b[n]);
    }
  }

  lemma JoinAllSnoc(fs: seq<Facts>, last: Facts)
    ensures JoinAll(fs + [last]) == Join(JoinAll(fs), last)
  {
    hide Join;
    assert (fs + [last])[..|fs|] == fs;
  }

  // ---------------------------------------------------------------- display names

  /** One sym's metadata, as `upsert_sym` or `set_sym_name` offers it. */
  function OneSym(s: nat, m: Meta): Facts
  {
    EMPTY.(syms := map[s := m])
  }

  /** The names the sources offer for a sym, in their order. */
  ghost function NamesSaid(fs: seq<Facts>, s: nat): (r: seq<Str>)
  {
    if fs == [] then []
    else
      var before, last := NamesSaid(fs[..|fs| - 1], s), fs[|fs| - 1];
      if s in last.syms then before + [last.syms[s].name] else before
  }

  /** Whatever joined them - single calls, drained builders, merged files - the name a sym ends
      up with is the one chosen from all that was offered, in order. */
  lemma {:induction false} JoinAllName(fs: seq<Facts>, s: nat)
    ensures s in JoinAll(fs).syms <==> NamesSaid(fs, s) != []
    ensures s in JoinAll(fs).syms ==> JoinAll(fs).syms[s].name == Names.Chosen(NamesSaid(fs, s))
  {
    if fs != [] {
      var n := |fs| - 1;
      var before := NamesSaid(fs[..n], s);
      JoinAllName(fs[..n], s);
      if s in fs[n].syms {
        assert (before + [fs[n].syms[s].name])[..|before|] == before;
      }
    }
  }

  lemma {:induction false} NamesConcat(a: seq<Facts>, b: seq<Facts>, s: nat)
    ensures NamesSaid(a + b, s) == NamesSaid(a, s) + NamesSaid(b, s)
  {
    if b == [] {
      assert a + b == a;
    } else {
      assert (a + b)[..|a + b| - 1] == a + b[..|b| - 1];
      NamesConcat(a, b[..|b| - 1], s);
    }
  }

  lemma NamesOfOne(f: Facts, s: nat)
    ensures NamesSaid([f], s) == if s in f.syms then [f.syms[s].name] else []
  {
    assert [f][..0] == [];
  }

  /** Rearranging the sources rearranges the offers. */
  lemma {:induction false} NamesRearranged(fs: seq<Facts>, gs: seq<Facts>, s: nat)
    requires multiset(fs) == multiset(gs)
    ensures multiset(NamesSaid(fs, s)) == multiset(NamesSaid(gs, s))
  {
    if fs == [] {
      assert |multiset(gs)| == 0 && gs == [];
    } else {
      var n := |fs| - 1;
      assert fs == fs[..n] + [fs[n]];
      var a, b := Order.TakeOut(gs, fs[n], fs[..n]);
      NamesRearranged(fs[..n], a + b, s);
      NamesConcat(fs[..n], [fs[n]], s);
      NamesConcat(a, b, s);
      NamesConcat(a, [fs[n]], s);
      NamesConcat(a + [fs[n]], b, s);
      hide NamesSaid;
    }
  }

  /** Any order and grouping of the sources gives a sym the same name, when a usable name is
      among those offered or only one non-empty name is. */
  lemma NameOrderFree(fs: seq<Facts>, gs: seq<Facts>, s: nat)
    requires multiset(fs) == multiset(gs) && Names.OrderFree(NamesSaid(fs, s))
    ensures s in JoinAll(fs).syms <==> s in JoinAll(gs).syms
    ensures s in JoinAll(fs).syms ==> JoinAll(fs).syms[s].name == JoinAll(gs).syms[s].name
  {
    hide JoinAll, NamesSaid;
    NamesRearranged(fs, gs, s);
    JoinAllName(fs, s);
    JoinAllName(gs, s);
    var a, b := NamesSaid(fs, s), NamesSaid(gs, s);
    assert |multiset(a)| == |a| && |multiset(b)| == |b|;
    Names.OrderFreeChoice(a, b);
  }

  lemma {:induction false} NameFrom(fs: seq<Facts>, s: nat, k: nat) returns (i: nat)
    requires k < |NamesSaid(fs, s)|
    ensures i < |fs| && s in fs[i].syms && fs[i].syms[s].name == NamesSaid(fs, s)[k]
  {
    var n := |fs| - 1;
    if k < |NamesSaid(fs[..n], s)| { i := NameFrom(fs[..n], s, k); } else { i := n; }
  }

  /** With nothing usable on offer, the source that comes first settles the name. */
  lemma FirstSettles(fs: seq<Facts>, s: nat, i: nat) returns (gs: seq<Facts>)
    requires i < |fs| && s in fs[i].syms && fs[i].syms[s].name != []
    requires forall k :: 0 <= k < |NamesSaid(fs, s)| ==> !Names.Usable(NamesSaid(fs, s)[k])
    ensures multiset(gs) == multiset(fs) && s in JoinAll(gs).syms && JoinAll(gs).syms[s].name == fs[i].syms[s].name
  {
    gs := Names.MoveFirst(fs, i);
    NamesRearranged(fs, gs, s);
    NamesConcat([gs[0]], gs[1..], s);
    NamesOfOne(gs[0], s);
    assert gs == [gs[0]] + gs[1..];
    hide NamesSaid, JoinAll;
    var a, b := NamesSaid(fs, s), NamesSaid(gs, s);
    forall k | 0 <= k < |b| ensures !Names.Usable(b[k]) {
      assert b[k] in multiset(b);
      assert b[k] in multiset(a);
    }
    Names.ChosenDegenerate(b, 0);
    JoinAllName(gs, s);
  }

  /** The exact condition, for the operations themselves: every order of the sources gives the
      sym one name if and only if the names offered for it are free of order. */
  lemma NameOrderIff(fs: seq<Facts>, s: nat)
    requires s in JoinAll(fs).syms
    ensures Names.OrderFree(NamesSaid(fs, s)) <==>
      forall gs: seq<Facts> | multiset(gs) == multiset(fs) :: s in JoinAll(gs).syms && JoinAll(gs).syms[s].name == JoinAll(fs).syms[s].name
  {
    hide JoinAll, NamesSaid;
    var names := NamesSaid(fs, s);
    if Names.OrderFree(names) {
      forall gs: seq<Facts> | multiset(gs) == multiset(fs)
        ensures s in JoinAll(gs).syms && JoinAll(gs).syms[s].name == JoinAll(fs).syms[s].name
      {
        NameOrderFree(fs, gs, s);
      }
    } else {
      var i, j :| 0 <= i < |names| && 0 <= j < |names| && names[i] != [] && names[j] != [] && names[i] != names[j];
      var p := NameFrom(fs, s, i);
      var q := NameFrom(fs, s, j);
      var a := FirstSettles(fs, s, p);
      var b := FirstSettles(fs, s, q);
    }
  }

  // ---------------------------------------------------------------- kinds and suppression

  function KindOf(f: Facts, s: nat): nat
  {
    if s in f.syms then f.syms[s].kind else UNK
  }

  /** Drop the aliases of variables: `finish` and the merge both do this last, each by
      the kinds it can see. */
  ghost function Suppress(f: Facts): Facts
  {
    f.(aliases := set r | r in f.aliases && KindOf(f, SymOf(r)) != VARIABLE)
  }

  /** An alias stays unless its sym is there with the kind of a variable. */
  lemma SuppressedAre(f: Facts, r: Row)
    ensures r in Suppress(f).aliases <==>
      r in f.aliases && !(SymOf(r) in f.syms && f.syms[SymOf(r)].kind == VARIABLE)
  {
  }

  lemma JoinKind(a: Facts, b: Facts, s: nat)
    ensures KindOf(Join(a, b), s) == Known(KindOf(a, s), KindOf(b, s))
  {
  }

  // ---------------------------------------------------------------- merging shards, flat

  ghost function SuppressEach(fs: seq<Facts>): (r: seq<Facts>)
    ensures |r| == |fs|
    ensures forall i :: 0 <= i < |fs| ==> r[i] == Suppress(fs[i])
  {
    seq(|fs|, i requires 0 <= i < |fs| => Suppress(fs[i]))
  }

  lemma {:induction false} JoinAllAliases(fs: seq<Facts>, r: Row)
    ensures r in JoinAll(fs).aliases <==> exists i :: 0 <= i < |fs| && r in fs[i].aliases
  {
    if fs != [] {
      var n := |fs| - 1;
      JoinAllAliases(fs[..n], r);
      if r in fs[n].aliases {}
      if i :| 0 <= i < n && r in fs[..n][i].aliases { assert r in fs[i].aliases; }
      if i :| 0 <= i < |fs| && r in fs[i].aliases { assert i < n ==> r in fs[..n][i].aliases; }
    }
  }

  /** Suppression touches nothing but aliases, so every other table joins the same. */
  lemma {:induction false} SuppressEachElsewhere(fs: seq<Facts>)
    ensures JoinAll(SuppressEach(fs)).(aliases := {}) == JoinAll(fs).(aliases := {})
  {
    if fs != [] {
      var n := |fs| - 1;
      SuppressEachElsewhere(fs[..n]);
      assert SuppressEach(fs)[..n] == SuppressEach(fs[..n]);
    }
  }

  /** Every alias of a sym that one shard knows as a variable, but the whole build does
      not, also comes from the delta or from a shard that does not suppress it. */
  ghost predicate AliasesSurvive(fs: seq<Facts>, delta: Facts)
  {
    forall i, r | 0 <= i < |fs| && r in fs[i].aliases && KindOf(fs[i], SymOf(r)) == VARIABLE ::
      || KindOf(JoinAll(fs + [delta]), SymOf(r)) == VARIABLE
      || r in delta.aliases
      || Unsuppressed(fs, r)
  }

  ghost predicate Unsuppressed(fs: seq<Facts>, r: Row)
  {
    exists j :: 0 <= j < |fs| && r in fs[j].aliases && KindOf(fs[j], SymOf(r)) != VARIABLE
  }

  lemma MergedAlias(fs: seq<Facts>, delta: Facts, r: Row)
    ensures JoinAll(SuppressEach(fs) + [delta]).(aliases := {}) == JoinAll(fs + [delta]).(aliases := {})
    ensures r in JoinAll(SuppressEach(fs) + [delta]).aliases <==> r in delta.aliases || Unsuppressed(fs, r)
    ensures r in JoinAll(fs + [delta]).aliases <==>
      r in delta.aliases || exists i :: 0 <= i < |fs| && r in fs[i].aliases
  {
    hide JoinMap, Refine, Smaller, FirstWins, JoinAll, KindOf;
    JoinAllAliases(fs, r);
    JoinAllAliases(SuppressEach(fs), r);
    SuppressEachElsewhere(fs);
    JoinAllSnoc(fs, delta);
    JoinAllSnoc(SuppressEach(fs), delta);
  }

  /** The exact condition under which merging finished shards with a delta gives what
      one `finish` over all the rows would give: the documented equivalence holds for a
      list of sources if and only if their suppressed aliases survive elsewhere. */
  lemma MergeIsFinishIff(fs: seq<Facts>, delta: Facts)
    ensures AliasesSurvive(fs, delta) <==>
      Suppress(JoinAll(SuppressEach(fs) + [delta])) == Suppress(JoinAll(fs + [delta]))
  {
    var merged, whole := JoinAll(SuppressEach(fs) + [delta]), JoinAll(fs + [delta]);
    MergedTables(fs, delta);
    SameButAliases(Suppress(merged), Suppress(whole));
    if AliasesSurvive(fs, delta) {
      hide JoinAll, SuppressEach;
      forall r ensures r in Suppress(merged).aliases <==> r in Suppress(whole).aliases {
        if r in Suppress(whole).aliases && r !in delta.aliases {
          var i :| 0 <= i < |fs| && r in fs[i].aliases;
          if KindOf(fs[i], SymOf(r)) != VARIABLE { assert Unsuppressed(fs, r); }
        }
      }
    } else {
      hide JoinAll, SuppressEach;
      var i, r :| 0 <= i < |fs| && r in fs[i].aliases && KindOf(fs[i], SymOf(r)) == VARIABLE
        && KindOf(whole, SymOf(r)) != VARIABLE && r !in delta.aliases && !Unsuppressed(fs, r);
      assert r in Suppress(whole).aliases && r !in Suppress(merged).aliases;
    }
  }

  /** The merged sources and the joined builders differ in aliases only. */
  lemma MergedTables(fs: seq<Facts>, delta: Facts)
    ensures var merged, whole := JoinAll(SuppressEach(fs) + [delta]), JoinAll(fs + [delta]);
      && merged.(aliases := {}) == whole.(aliases := {})
      && Suppress(merged).(aliases := {}) == Suppress(whole).(aliases := {})
      && (forall s: nat :: KindOf(merged, s) == KindOf(whole, s))
      && (forall r: Row :: r in merged.aliases <==> r in delta.aliases || Unsuppressed(fs, r))
      && (forall r: Row :: r in whole.aliases <==> r in delta.aliases || exists i :: 0 <= i < |fs| && r in fs[i].aliases)
  {
    hide JoinAll, SuppressEach, Unsuppressed;
    var merged, whole := JoinAll(SuppressEach(fs) + [delta]), JoinAll(fs + [delta]);
    forall r: Row
      ensures r in merged.aliases <==> r in delta.aliases || Unsuppressed(fs, r)
      ensures r in whole.aliases <==> r in delta.aliases || exists i :: 0 <= i < |fs| && r in fs[i].aliases
    {
      MergedAlias(fs, delta, r);
    }
    MergedAlias(fs, delta, Row([], []));
    assert merged.syms == merged.(aliases := {}).syms == whole.(aliases := {}).syms;
    assert Suppress(merged).(aliases := {}) == merged.(aliases := {});
    assert Suppress(whole).(aliases := {}) == whole.(aliases := {});
  }

  lemma SameButAliases(x: Facts, y: Facts)
    requires x.(aliases := {}) == y.(aliases := {})
    ensures x == y <==> x.aliases == y.aliases
  {
    assert x == x.(aliases := {}).(aliases := x.aliases);
    assert y == y.(aliases := {}).(aliases := y.aliases);
  }

  lemma NoFacts()
    ensures JoinAll([]) == EMPTY && forall s: nat :: KindOf(EMPTY, s) == UNK
  {
  }

  lemma PairKind(f: Facts, v: Facts, s: nat)
    ensures KindOf(JoinAll([f, v] + [EMPTY]), s) == Known(KindOf(f, s), KindOf(v, s))
  {
    hide Join, JoinAll, KindOf;
    JoinAllSnoc([f, v], EMPTY);
    JoinKind(JoinAll([f, v]), EMPTY, s);
    assert [f, v] == ([] + [f]) + [v];
    JoinAllSnoc([] + [f], v);
    JoinKind(JoinAll([] + [f]), v, s);
    JoinAllSnoc([], f);
    JoinKind(JoinAll([]), f, s);
    NoFacts();
  }

  /** The documented claim fails for a sym of another known kind in one shard and seen
      as a variable, with an alias, in a later one: that alias is lost. */
  lemma MergeLosesAlias(f: Facts, v: Facts, row: Row)
    requires KindOf(f, SymOf(row)) != UNK && KindOf(f, SymOf(row)) != VARIABLE && row !in f.aliases
    requires KindOf(v, SymOf(row)) == VARIABLE && row in v.aliases
    ensures row in Suppress(JoinAll([f, v] + [EMPTY])).aliases
    ensures row !in Suppress(JoinAll(SuppressEach([f, v]) + [EMPTY])).aliases
  {
    hide JoinAll, Join, KindOf;
    var fs := [f, v];
    MergedAlias(fs, EMPTY, row);
    assert row in fs[1].aliases;
    PairKind(f, v, SymOf(row));
  }

  /** Such shards exist. */
  lemma MergeLosesAliasExample(s: nat, alias: Str)
    ensures var f := EMPTY.(syms := map[s := Meta(1, UNK, [])]);
            var v := EMPTY.(syms := map[s := Meta(VARIABLE, UNK, [])], aliases := {Row([s], alias)});
            Suppress(JoinAll(SuppressEach([f, v]) + [EMPTY])) != Suppress(JoinAll([f, v] + [EMPTY]))
  {
    hide JoinAll, Suppress;
    MergeLosesAlias(EMPTY.(syms := map[s := Meta(1, UNK, [])]),
      EMPTY.(syms := map[s := Meta(VARIABLE, UNK, [])], aliases := {Row([s], alias)}), Row([s], alias));
  }

  // ---------------------------------------------------------------- merging shards, any tree

  /** A tree of merges: leaves are finished shards of CUs, or the in-memory delta a merge
      writes along with its sources; inner nodes are merged groups. */
  datatype Tree = Leaf(facts: Facts) | Delta(facts: Facts) | Node(children: seq<Tree>)

  function Leaves(t: Tree): seq<Facts>
    decreases t, 0
  {
    match t
    case Leaf(f) => [f]
    case Delta(f) => [f]
    case Node(children) => AllLeaves(children)
  }

  function AllLeaves(ts: seq<Tree>): seq<Facts>
    decreases ts, 1
  {
    if ts == [] then [] else AllLeaves(ts[..|ts| - 1]) + Leaves(ts[|ts| - 1])
  }

  /** What a tree is merged into: every file, leaf or inner, suppresses by the kinds it can
      see; a delta has not been written yet. */
  ghost function Coalesced(t: Tree): Facts
    decreases t, 0
  {
    match t
    case Leaf(f) => Suppress(f)
    case Delta(f) => f
    case Node(children) => Suppress(JoinAll(EachCoalesced(children)))
  }

  ghost function EachCoalesced(ts: seq<Tree>): (r: seq<Facts>)
    ensures |r| == |ts|
    decreases ts, 1
  {
    if ts == [] then [] else EachCoalesced(ts[..|ts| - 1]) + [Coalesced(ts[|ts| - 1])]
  }

  /** Some source holds the alias, and no file on its way to the root sees its sym as a
      variable. */
  ghost predicate Survives(t: Tree, r: Row)
    decreases t, 0
  {
    match t
    case Leaf(f) => r in f.aliases && KindOf(f, SymOf(r)) != VARIABLE
    case Delta(f) => r in f.aliases
    case Node(children) => KindOf(JoinAll(Leaves(t)), SymOf(r)) != VARIABLE && SomeSurvives(children, r)
  }

  ghost predicate SomeSurvives(ts: seq<Tree>, r: Row)
    decreases ts, 1
  {
    ts != [] && (SomeSurvives(ts[..|ts| - 1], r) || Survives(ts[|ts| - 1], r))
  }

  /** An alias one `finish` over all the sources would keep. */
  ghost predicate Owed(fs: seq<Facts>, r: Row)
  {
    r in JoinAll(fs).aliases && KindOf(JoinAll(fs), SymOf(r)) != VARIABLE
  }

  ghost predicate AllSurvive(t: Tree)
  {
    forall r | Owed(Leaves(t), r) :: Survives(t, r)
  }

  lemma JoinAllOne(f: Facts)
    ensures JoinAll([f]) == f
  {
    hide Join;
    assert [f] == [] + [f];
    JoinAllSnoc([], f);
    NoFacts();
    JoinEmpty(f);
  }

  lemma JoinElsewhere(a: Facts, b: Facts, c: Facts, d: Facts)
    requires a.(aliases := {}) == c.(aliases := {}) && b.(aliases := {}) == d.(aliases := {})
    ensures Join(a, b).(aliases := {}) == Join(c, d).(aliases := {})
  {
    hide JoinMap, Refine, Smaller, FirstWins;
    assert Join(a, b).(aliases := {}) == Join(a.(aliases := {}), b.(aliases := {}));
    assert Join(c, d).(aliases := {}) == Join(c.(aliases := {}), d.(aliases := {}));
  }

  lemma SuppressAliases(f: Facts, g: Facts, r: Row)
    requires f.(aliases := {}) == g.(aliases := {})
    ensures Suppress(f).(aliases := {}) == g.(aliases := {})
    ensures r in Suppress(f).aliases <==> r in f.aliases && KindOf(g, SymOf(r)) != VARIABLE
  {
    assert f.syms == f.(aliases := {}).syms == g.(aliases := {}).syms;
  }

  /** Every table but the aliases is what one `finish` says; an alias is there if and only
      if it survives. */
  lemma {:induction false} CoalescedSays(t: Tree, r: Row)
    ensures Coalesced(t).(aliases := {}) == JoinAll(Leaves(t)).(aliases := {})
    ensures r in Coalesced(t).aliases <==> Survives(t, r)
    decreases t, 0
  {
    hide Suppress, KindOf, JoinAll;
    match t
    case Leaf(f) =>
      JoinAllOne(f);
      SuppressAliases(f, f, r);
    case Delta(f) =>
      JoinAllOne(f);
    case Node(children) =>
      EachSays(children, r);
      SuppressAliases(JoinAll(EachCoalesced(children)), JoinAll(AllLeaves(children)), r);
  }

  lemma {:induction false} EachSays(ts: seq<Tree>, r: Row)
    ensures JoinAll(EachCoalesced(ts)).(aliases := {}) == JoinAll(AllLeaves(ts)).(aliases := {})
    ensures r in JoinAll(EachCoalesced(ts)).aliases <==> SomeSurvives(ts, r)
    decreases ts, 1
  {
    hide Suppress, KindOf, JoinAll;
    NoFacts();
    if ts != [] {
      var n := |ts| - 1;
      EachSays(ts[..n], r);
      CoalescedSays(ts[n], r);
      JoinAllSnoc(EachCoalesced(ts[..n]), Coalesced(ts[n]));
      JoinAllConcat(AllLeaves(ts[..n]), Leaves(ts[n]));
      hide Coalesced, Survives, Leaves;
      JoinElsewhere(JoinAll(EachCoalesced(ts[..n])), Coalesced(ts[n]), JoinAll(AllLeaves(ts[..n])), JoinAll(Leaves(ts[n])));
    }
  }

  /** Partition invariance, exactly: however the sources are grouped, level upon level, the
      file at the root says what one `finish` over all of them in order says, if and only if
      every alias owed survives on some way to the root. */
  lemma TreeIsFinishIff(t: Tree)
    requires t.Node?
    ensures Coalesced(t) == Suppress(JoinAll(Leaves(t))) <==> AllSurvive(t)
  {
    var got, whole := Coalesced(t), JoinAll(Leaves(t));
    forall r: Row
      ensures got.(aliases := {}) == whole.(aliases := {})
      ensures r in got.aliases <==> Survives(t, r)
      ensures Suppress(whole).(aliases := {}) == whole.(aliases := {})
      ensures r in Suppress(whole).aliases <==> Owed(Leaves(t), r)
    {
      CoalescedSays(t, r);
      SuppressAliases(whole, whole, r);
    }
    CoalescedSays(t, Row([], []));
    SuppressAliases(whole, whole, Row([], []));
    SurvivorsOwed(t);
    hide Coalesced, Survives, JoinAll, Suppress, Owed;
    SameButAliases(got, Suppress(whole));
  }

  /** A tree of merges names every sym as one list of its sources in order does. */
  lemma TreeName(t: Tree, s: nat)
    ensures s in Coalesced(t).syms <==> NamesSaid(Leaves(t), s) != []
    ensures s in Coalesced(t).syms ==> Coalesced(t).syms[s].name == Names.Chosen(NamesSaid(Leaves(t), s))
  {
    hide Coalesced, JoinAll;
    CoalescedSays(t, Row([], []));
    assert Coalesced(t).syms == Coalesced(t).(aliases := {}).syms == JoinAll(Leaves(t)).syms;
    JoinAllName(Leaves(t), s);
  }

  /** Only owed aliases survive to the root. */
  lemma SurvivorsOwed(t: Tree)
    requires t.Node?
    ensures forall r | Survives(t, r) :: Owed(Leaves(t), r)
  {
    forall r | Survives(t, r) ensures Owed(Leaves(t), r) { SomeSource(t.children, r); }
  }

  lemma {:induction false} SurvivorHeld(t: Tree, r: Row)
    requires Survives(t, r)
    ensures r in JoinAll(Leaves(t)).aliases
    decreases t, 0
  {
    match t
    case Leaf(f) => JoinAllOne(f);
    case Delta(f) => JoinAllOne(f);
    case Node(children) => SomeSource(children, r);
  }

  lemma {:induction false} SomeSource(ts: seq<Tree>, r: Row)
    requires SomeSurvives(ts, r)
    ensures r in JoinAll(AllLeaves(ts)).aliases
    decreases ts, 1
  {
    var n := |ts| - 1;
    JoinAllConcat(AllLeaves(ts[..n]), Leaves(ts[n]));
    if SomeSurvives(ts[..n], r) { SomeSource(ts[..n], r); } else { SurvivorHeld(ts[n], r); }
  }

  // ---------------------------------------------------------------- kinds that agree

  /** No sym is a variable in one source and of another known kind in another. */
  ghost predicate KindsAgree(fs: seq<Facts>)
  {
    forall i, j, s: nat | 0 <= i < |fs| && 0 <= j < |fs| && KindOf(fs[i], s) == VARIABLE ::
      KindOf(fs[j], s) == UNK || KindOf(fs[j], s) == VARIABLE
  }

  ghost predicate NeverVariable(fs: seq<Facts>, s: nat)
  {
    forall i | 0 <= i < |fs| :: KindOf(fs[i], s) != VARIABLE
  }

  lemma {:induction false} JoinAllKind(fs: seq<Facts>, s: nat)
    ensures KindOf(JoinAll(fs), s) == UNK ==> forall i | 0 <= i < |fs| :: KindOf(fs[i], s) == UNK
    ensures KindOf(JoinAll(fs), s) == UNK || exists i :: 0 <= i < |fs| && KindOf(fs[i], s) == KindOf(JoinAll(fs), s)
  {
    if fs != [] {
      var n := |fs| - 1;
      JoinAllKind(fs[..n], s);
      JoinKind(JoinAll(fs[..n]), fs[n], s);
      assert forall i | 0 <= i < n :: fs[..n][i] == fs[i];
      if i :| 0 <= i < n && KindOf(fs[..n][i], s) == KindOf(JoinAll(fs[..n]), s) {
        assert KindOf(fs[i], s) == KindOf(JoinAll(fs[..n]), s);
      }
    }
  }

  /** Where kinds agree, a sym the whole build does not see as a variable is one nowhere. */
  lemma AgreedKind(fs: seq<Facts>, s: nat)
    requires KindsAgree(fs) && KindOf(JoinAll(fs), s) != VARIABLE
    ensures NeverVariable(fs, s)
  {
    hide KindOf, JoinAll;
    JoinAllKind(fs, s);
  }

  /** Without a variable in sight nothing is suppressed on any way to the root. */
  lemma {:induction false} NothingSuppressed(t: Tree, r: Row)
    requires NeverVariable(Leaves(t), SymOf(r)) && r in JoinAll(Leaves(t)).aliases
    ensures Survives(t, r)
    decreases t, 0
  {
    match t
    case Leaf(f) => JoinAllOne(f); assert Leaves(t)[0] == f;
    case Delta(f) => JoinAllOne(f);
    case Node(children) =>
      JoinAllKind(Leaves(t), SymOf(r));
      EachUnsuppressed(children, r);
  }

  lemma {:induction false} EachUnsuppressed(ts: seq<Tree>, r: Row)
    requires NeverVariable(AllLeaves(ts), SymOf(r)) && r in JoinAll(AllLeaves(ts)).aliases
    ensures SomeSurvives(ts, r)
    decreases ts, 1
  {
    NoFacts();
    hide KindOf, JoinAll;
    if ts != [] {
      var n := |ts| - 1;
      var a, b := AllLeaves(ts[..n]), Leaves(ts[n]);
      NeverVariableParts(a, b, SymOf(r));
      JoinAllConcat(a, b);
      if r in JoinAll(a).aliases { EachUnsuppressed(ts[..n], r); } else { NothingSuppressed(ts[n], r); }
    }
  }

  lemma NeverVariableParts(a: seq<Facts>, b: seq<Facts>, s: nat)
    requires NeverVariable(a + b, s)
    ensures NeverVariable(a, s) && NeverVariable(b, s)
  {
    var ab := a + b;
    assert forall i :: 0 <= i < |a| ==> ab[i] == a[i];
    assert forall i :: 0 <= i < |b| ==> ab[|a| + i] == b[i];
  }

  /** Agreeing kinds are enough for every tree. */
  lemma CoalescingTree(t: Tree)
    requires t.Node? && KindsAgree(Leaves(t))
    ensures AllSurvive(t) && Coalesced(t) == Suppress(JoinAll(Leaves(t)))
  {
    hide Coalesced, JoinAll, KindOf, Suppress, Survives, KindsAgree;
    TreeIsFinishIff(t);
    forall r | Owed(Leaves(t), r) ensures Survives(t, r) {
      AgreedKind(Leaves(t), SymOf(r));
      NothingSuppressed(t, r);
    }
  }
}
