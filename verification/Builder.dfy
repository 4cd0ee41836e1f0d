/** `IndexBuilder`: the in-memory tables a compilation unit's rows accumulate in. */
module Builder {
  import opened Bytes
  import opened Facts
  import opened Keyed
  import Names
  import Order

  /** The builder's tables as a value. Row columns: xrefs (sym, role, file, offset),
      inherits (child, parent), calls (caller, callee, role), childof (parent, child);
      aliases, typed and sig are (sym) with a string. */
  datatype Rows = Rows(
    xrefs: seq<Row>, syms: map<nat, Meta>, files: map<nat, Str>, inherits: seq<Row>, aliases: seq<Row>,
    calls: seq<Row>, typed: seq<Row>, childof: seq<Row>, sig: seq<Row>)

  ghost predicate Columns(s: seq<Row>, n: nat)
  {
    forall i :: 0 <= i < |s| ==> |s[i].cols| == n && s[i].text == []
  }

  ghost predicate Strings(s: seq<Row>)
  {
    forall i :: 0 <= i < |s| ==> |s[i].cols| == 1 && s[i].text != []
  }

  ghost predicate Shaped(r: Rows)
  {
    && Columns(r.xrefs, 4) && Columns(r.inherits, 2) && Columns(r.calls, 3) && Columns(r.childof, 2)
    && Strings(r.aliases) && Strings(r.typed) && Strings(r.sig)
  }

  /** What the rows say. */
  ghost function FactsOf(r: Rows): Facts
  {
    Facts(RowSet(r.xrefs), RowSet(r.inherits), RowSet(r.calls), RowSet(r.childof), RowSet(r.aliases),
          r.syms, r.files, Best(r.typed), Best(r.sig))
  }

  function RowCount(r: Rows): nat
  {
    |r.xrefs| + |r.inherits| + |r.calls| + |r.aliases| + |r.typed| + |r.childof| + |r.sig|
  }

  ghost function Merged(a: Rows, b: Rows): Rows
  {
    Rows(a.xrefs + b.xrefs, JoinMap(Refine, a.syms, b.syms), JoinMap(FirstWins, a.files, b.files),
         a.inherits + b.inherits, a.aliases + b.aliases, a.calls + b.calls, a.typed + b.typed,
         a.childof + b.childof, a.sig + b.sig)
  }

  /** Draining one builder into another joins what they say and adds their row counts:
      the gauge that counts buffered rows can follow merges without looking inside. */
  lemma MergedIsJoin(a: Rows, b: Rows)
    ensures FactsOf(Merged(a, b)) == Join(FactsOf(a), FactsOf(b))
    ensures RowCount(Merged(a, b)) == RowCount(a) + RowCount(b)
    ensures Shaped(a) && Shaped(b) ==> Shaped(Merged(a, b))
  {
    hide JoinMap, Best, Refine, FirstWins, Smaller;
    BestConcat(a.typed, b.typed);
    BestConcat(a.sig, b.sig);
  }

  /** Marking a field and learning its node kind commute: facts arrive in any order. */
  lemma FieldBeforeOrAfter(e: Meta, kind: nat, lang: nat, name: Str)
    ensures Refine(e.(kind := FIELD), Meta(kind, lang, name)) == Refine(e, Meta(kind, lang, name)).(kind := FIELD)
  {
  }

  /** Offering one sym's metadata joins it to what the builder says. */
  lemma SymJoins(r: Rows, sym: nat, m: Meta)
    ensures FactsOf(r.(syms := JoinMap(Refine, r.syms, map[sym := m]))) == Join(FactsOf(r), OneSym(sym, m))
  {
    hide JoinMap, Best;
    var f := FactsOf(r);
    JoinMapEmpty(FirstWins, f.files);
    JoinMapEmpty(Smaller, f.typed);
    JoinMapEmpty(Smaller, f.sig);
  }

  class IndexBuilder {
    var xrefs: seq<Row>
    var syms: map<nat, Meta>
    var files: map<nat, Str>
    var inherits: seq<Row>
    var aliases: seq<Row>
    var calls: seq<Row>
    var typed: seq<Row>
    var childof: seq<Row>
    var sig: seq<Row>

    function Contents(): Rows
      reads this
    {
      Rows(xrefs, syms, files, inherits, aliases, calls, typed, childof, sig)
    }

    constructor ()
      ensures Contents() == Rows([], map[], map[], [], [], [], [], [], [])
      ensures Shaped(Contents()) && FactsOf(Contents()) == EMPTY
    {
      xrefs, syms, files, inherits, aliases := [], map[], map[], [], [];
      calls, typed, childof, sig := [], [], [], [];
    }

    method AddXref(sym: nat, role: nat, file: nat, offset: nat)
      modifies this
      ensures RowCount(Contents()) == old(RowCount(Contents())) + 1
      ensures Contents() == old(Contents()).(xrefs := old(xrefs) + [Row([sym, role, file, offset], [])])
    {
      xrefs := xrefs + [Row([sym, role, file, offset], [])];
    }

    /** Later calls refine earlier ones. */
    method UpsertSym(sym: nat, kind: nat, lang: nat, name: Str)
      modifies this
      ensures Contents() == old(Contents()).(syms := JoinMap(Refine, old(syms), map[sym := Meta(kind, lang, name)]))
      ensures FactsOf(Contents()) == Join(old(FactsOf(Contents())), OneSym(sym, Meta(kind, lang, name)))
    {
      SymJoins(Contents(), sym, Meta(kind, lang, name));
      if sym in syms {
        var e := RefineEntry(syms[sym], Meta(kind, lang, name));
        syms := syms[sym := e];
      } else {
        syms := syms[sym := Meta(kind, lang, name)];
      }
    }

    method SetSymName(sym: nat, name: Str)
      modifies this
      ensures Contents() == if name == [] then old(Contents()) else
        old(Contents()).(syms := JoinMap(Refine, old(syms), map[sym := Meta(UNK, UNK, name)]))
      ensures name != [] ==> FactsOf(Contents()) == Join(old(FactsOf(Contents())), OneSym(sym, Meta(UNK, UNK, name)))
    {
      SymJoins(Contents(), sym, Meta(UNK, UNK, name));
      if name == [] { return; }
      if sym in syms {
        if Names.PrefersName(syms[sym].name, name) { syms := syms[sym := syms[sym].(name := name)]; }
      } else {
        syms := syms[sym := Meta(UNK, UNK, name)];
      }
    }

    method MarkField(sym: nat)
      modifies this
      ensures Contents() == old(Contents()).(syms :=
        old(syms)[sym := if sym in old(syms) then old(syms)[sym].(kind := FIELD) else Meta(FIELD, UNK, [])])
    {
      syms := syms[sym := if sym in syms then syms[sym].(kind := FIELD) else Meta(FIELD, UNK, [])];
    }

    /** The first path recorded for a file id stays. */
    method UpsertFile(file: nat, path: Str)
      modifies this
      ensures Contents() == old(Contents()).(files := JoinMap(FirstWins, old(files), map[file := path]))
    {
      if file !in files { files := files[file := path]; }
    }

    method AddInherit(child: nat, parent: nat)
      modifies this
      ensures RowCount(Contents()) == old(RowCount(Contents())) + 1
      ensures Contents() == old(Contents()).(inherits := old(inherits) + [Row([child, parent], [])])
    {
      inherits := inherits + [Row([child, parent], [])];
    }

    method AddAlias(sym: nat, alias: Str)
      modifies this
      ensures RowCount(Contents()) == old(RowCount(Contents())) + if alias == [] then 0 else 1
      ensures Contents() == if alias == [] then old(Contents()) else
        old(Contents()).(aliases := old(aliases) + [Row([sym], alias)])
    {
      if alias == [] { return; }
      aliases := aliases + [Row([sym], alias)];
    }

    method AddCall(caller: nat, callee: nat, role: nat)
      modifies this
      ensures RowCount(Contents()) == old(RowCount(Contents())) + 1
      ensures Contents() == old(Contents()).(calls := old(calls) + [Row([caller, callee, role], [])])
    {
      calls := calls + [Row([caller, callee, role], [])];
    }

    method AddType(sym: nat, text: Str)
      modifies this
      ensures RowCount(Contents()) == old(RowCount(Contents())) + if text == [] then 0 else 1
      ensures Contents() == if text == [] then old(Contents()) else
        old(Contents()).(typed := old(typed) + [Row([sym], text)])
    {
      if text == [] { return; }
      typed := typed + [Row([sym], text)];
    }

    method AddChildof(child: nat, parent: nat)
      modifies this
      ensures RowCount(Contents()) == old(RowCount(Contents())) + 1
      ensures Contents() == old(Contents()).(childof := old(childof) + [Row([parent, child], [])])
    {
      childof := childof + [Row([parent, child], [])];
    }

    method AddSig(sym: nat, text: Str)
      modifies this
      ensures RowCount(Contents()) == old(RowCount(Contents())) + if text == [] then 0 else 1
      ensures Contents() == if text == [] then old(Contents()) else
        old(Contents()).(sig := old(sig) + [Row([sym], text)])
    {
      if text == [] { return; }
      sig := sig + [Row([sym], text)];
    }

    method DeltaRowCount() returns (n: nat)
      ensures n == RowCount(Contents())
    {
      n := |xrefs| + |inherits| + |calls| + |aliases| + |typed| + |childof| + |sig|;
    }

    /** Move every row of `other` in. Its map entries come in no particular order. */
    method MergeFrom(other: Rows)
      modifies this
      ensures Contents() == Merged(old(Contents()), other)
      ensures FactsOf(Contents()) == Join(old(FactsOf(Contents())), FactsOf(other))
      ensures RowCount(Contents()) == old(RowCount(Contents())) + RowCount(other)
    {
      hide Refine, FirstWins, Best, Smaller, RowCount;
      ghost var was := Contents();
      MergedIsJoin(was, other);
      MergeSyms(other.syms);
      MergeFiles(other.files);
      xrefs, inherits, aliases := xrefs + other.xrefs, inherits + other.inherits, aliases + other.aliases;
      calls, typed, childof, sig := calls + other.calls, typed + other.typed, childof + other.childof, sig + other.sig;
    }

    static method RefineEntry(was: Meta, e: Meta) returns (o: Meta)
      ensures o == Refine(was, e)
    {
      o := was;
      if o.kind == UNK { o := o.(kind := e.kind); }
      if o.lang == UNK { o := o.(lang := e.lang); }
      if Names.PrefersName(o.name, e.name) { o := o.(name := e.name); }
    }

    method MergeSyms(other: map<nat, Meta>)
      modifies this
      ensures Contents() == old(Contents()).(syms := JoinMap(Refine, old(syms), other))
    {
      hide Refine;
      var rest := other.Keys;
      while rest != {}
        invariant rest <= other.Keys
        invariant Contents() == old(Contents()).(syms := syms)
        invariant syms == JoinMap(Refine, old(syms), other - rest)
      {
        var k :| k in rest;
        var e := other[k];
        if k in syms {
          var o := RefineEntry(syms[k], e);
          syms := syms[k := o];
        } else {
          syms := syms[k := e];
        }
        rest := rest - {k};
      }
      assert other - rest == other;
    }

    method MergeFiles(other: map<nat, Str>)
      modifies this
      ensures Contents() == old(Contents()).(files := JoinMap(FirstWins, old(files), other))
    {
      var rest := other.Keys;
      while rest != {}
        invariant rest <= other.Keys
        invariant Contents() == old(Contents()).(files := files)
        invariant files == JoinMap(FirstWins, old(files), other - rest)
      {
        var k :| k in rest;
        if k !in files { files := files[k := other[k]]; }
        rest := rest - {k};
      }
      assert other - rest == other;
    }

    /** Collapse duplicate rows: nothing the builder says changes, every table is left
        strictly ascending, and the returned count is what a later drain subtracts. */
    method DedupTables() returns (n: nat)
      requires Shaped(Contents())
      modifies this
      ensures Shaped(Contents()) && FactsOf(Contents()) == old(FactsOf(Contents()))
      ensures syms == old(syms) && files == old(files)
      ensures Sorted(Contents())
      ensures n == RowCount(Contents())
    {
      hide Best;
      ghost var was := Contents();
      RowOrder();
      xrefs := Order.SortDedup(RowLess, xrefs);
      inherits := Order.SortDedup(RowLess, inherits);
      calls := Order.SortDedup(RowLess, calls);
      aliases := Order.SortDedup(RowLess, aliases);
      typed := Order.SortDedup(RowLess, typed);
      childof := Order.SortDedup(RowLess, childof);
      sig := Order.SortDedup(RowLess, sig);
      SameRowsSameFacts(was, Contents());
      n := DeltaRowCount();
    }
  }

  ghost predicate Sorted(r: Rows)
  {
    && Order.Ascending(RowLess, r.xrefs) && Order.Ascending(RowLess, r.inherits) && Order.Ascending(RowLess, r.calls)
    && Order.Ascending(RowLess, r.aliases) && Order.Ascending(RowLess, r.typed)
    && Order.Ascending(RowLess, r.childof) && Order.Ascending(RowLess, r.sig)
  }

  ghost predicate SameRows(a: seq<Row>, b: seq<Row>)
  {
    forall x :: x in a <==> x in b
  }

  lemma ShapeKept(a: seq<Row>, b: seq<Row>, n: nat)
    requires SameRows(a, b)
    ensures Columns(a, n) ==> Columns(b, n)
    ensures Strings(a) ==> Strings(b)
  {
    forall i | 0 <= i < |b| ensures b[i] in a { assert b[i] in b; }
  }

  lemma BestKept(a: seq<Row>, b: seq<Row>)
    requires SameRows(a, b) && Strings(a)
    ensures Best(a) == Best(b)
  {
    ShapeKept(a, b, 1);
    BestIsBest(a);
    BestIsBest(b);
    BestUnique(a, Best(a), b, Best(b));
  }

  lemma SameRowsSameFacts(a: Rows, b: Rows)
    requires Shaped(a) && a.syms == b.syms && a.files == b.files
    requires SameRows(a.xrefs, b.xrefs) && SameRows(a.inherits, b.inherits) && SameRows(a.calls, b.calls)
    requires SameRows(a.aliases, b.aliases) && SameRows(a.typed, b.typed) && SameRows(a.childof, b.childof)
    requires SameRows(a.sig, b.sig)
    ensures Shaped(b) && FactsOf(a) == FactsOf(b)
  {
    hide Best, Columns, Strings;
    ShapeKept(a.xrefs, b.xrefs, 4);
    ShapeKept(a.inherits, b.inherits, 2);
    ShapeKept(a.calls, b.calls, 3);
    ShapeKept(a.childof, b.childof, 2);
    ShapeKept(a.aliases, b.aliases, 1);
    ShapeKept(a.typed, b.typed, 1);
    ShapeKept(a.sig, b.sig, 1);
    BestKept(a.typed, b.typed);
    BestKept(a.sig, b.sig);
  }
}
