/** `write_merged_snapshot`: finished files and one in-memory delta merged into one file,
    section by section. Each section folds the sources through a two-way merge; its rows,
    strings and references are then written in one walk. */
module Stream {
  import opened Bytes
  import opened Facts
  import opened Keyed
  import opened Builder
  import opened Store
  import opened Image
  import Order
  import TrigramSpec
  import TrigramBuild

  // ---------------------------------------------------------------- what a source may be

  ghost predicate NonEmptyStrings(m: map<nat, Str>)
  {
    forall k | k in m :: m[k] != []
  }

  /** Aliases are (sym, non-empty string), and so are types and signatures. */
  ghost predicate Plain(f: Facts)
  {
    && (forall r | r in f.aliases :: |r.cols| == 1 && r.text != [])
    && NonEmptyStrings(f.typed) && NonEmptyStrings(f.sig)
  }

  ghost predicate SourceOk(c: Canon)
  {
    CanonOk(c) && Plain(CanonFacts(c))
  }

  lemma SmallerNonEmpty(a: map<nat, Str>, b: map<nat, Str>)
    requires NonEmptyStrings(a) && NonEmptyStrings(b)
    ensures NonEmptyStrings(JoinMap(Smaller, a, b))
  {
  }

  lemma JoinPlain(a: Facts, b: Facts)
    requires Plain(a) && Plain(b)
    ensures Plain(Join(a, b))
  {
    hide JoinMap, Smaller;
    SmallerNonEmpty(a.typed, b.typed);
    SmallerNonEmpty(a.sig, b.sig);
  }

  lemma {:induction false} JoinAllPlain(fs: seq<Facts>)
    requires forall i | 0 <= i < |fs| :: Plain(fs[i])
    ensures Plain(JoinAll(fs))
  {
    hide Plain;
    if fs == [] {
      EmptyPlain();
    } else {
      JoinAllPlain(fs[..|fs| - 1]);
      JoinPlain(JoinAll(fs[..|fs| - 1]), fs[|fs| - 1]);
    }
  }

  lemma EmptyPlain()
    ensures Plain(EMPTY)
  {
  }

  lemma SuppressPlain(f: Facts)
    requires Plain(f)
    ensures Plain(Suppress(f))
  {
  }

  lemma BestPlain(rows: seq<Row>)
    requires Strings(rows)
    ensures NonEmptyStrings(Best(rows))
  {
    BestIsBest(rows);
    forall k | k in Best(rows) ensures Best(rows)[k] != [] {
      assert HasRow(rows, k, Best(rows)[k]);
    }
  }

  lemma ShapedPlain(r: Rows)
    requires Shaped(r)
    ensures Plain(FactsOf(r))
  {
    hide Best;
    BestPlain(r.typed);
    BestPlain(r.sig);
  }

  lemma {:induction false} RowInMap(s: seq<(nat, Str)>, i: nat)
    requires KeysAscend(s) && i < |s|
    ensures s[i].0 in ToMap(s) && ToMap(s)[s[i].0] == s[i].1
  {
    var n := |s| - 1;
    if i < n { RowInMap(s[..n], i); }
  }

  /** What the reader and the layout need of a source. */
  lemma SourceShape(c: Canon)
    requires SourceOk(c)
    ensures AliasesShaped(c)
    ensures forall i :: 0 <= i < |c.typed| ==> c.typed[i].1 != []
    ensures forall i :: 0 <= i < |c.sig| ==> c.sig[i].1 != []
  {
    hide RowLess, ToMap;
    forall i | 0 <= i < |c.aliases| ensures |c.aliases[i].cols| == 1 && c.aliases[i].text != [] {
      assert c.aliases[i] in RowSet(c.aliases);
    }
    forall i | 0 <= i < |c.typed| ensures c.typed[i].1 != [] { RowInMap(c.typed, i); }
    forall i | 0 <= i < |c.sig| ensures c.sig[i].1 != [] { RowInMap(c.sig, i); }
  }

  // ---------------------------------------------------------------- folding one section

  /** A section of plain rows, and what it contributes to the facts. */
  ghost predicate RowSection(sel: Canon -> seq<Row>, say: Facts -> set<Row>)
  {
    && (forall c | CanonOk(c) :: Order.Ascending(RowLess, sel(c)) && RowSet(sel(c)) == say(CanonFacts(c)))
    && (forall a, b :: say(Join(a, b)) == say(a) + say(b))
    && say(EMPTY) == {}
  }

  /** `fold_sources` over `merge_sorted_dedup`, the delta last. */
  method FoldRows(sel: Canon -> seq<Row>, ghost say: Facts -> set<Row>, sources: seq<Canon>, delta: Canon) returns (r: seq<Row>)
    requires RowSection(sel, say) && CanonOk(delta) && forall i | 0 <= i < |sources| :: CanonOk(sources[i])
    ensures Order.Ascending(RowLess, r) && RowSet(r) == say(JoinAll(EachFacts(sources + [delta])))
  {
    hide RowLess, CanonFacts, CanonOk, Join, JoinAll, RowSet;
    NoRows();
    NoFacts();
    assert EachFacts(sources[..0]) == [];
    r := [];
    for i := 0 to |sources|
      invariant Order.Ascending(RowLess, r) && RowSet(r) == say(JoinAll(EachFacts(sources[..i])))
    {
      assert EachFacts(sources[..i + 1]) == EachFacts(sources[..i]) + [CanonFacts(sources[i])];
      JoinAllSnoc(EachFacts(sources[..i]), CanonFacts(sources[i]));
      r := MergeRows(r, sel(sources[i]));
    }
    assert sources[..|sources|] == sources;
    assert EachFacts(sources + [delta]) == EachFacts(sources) + [CanonFacts(delta)];
    JoinAllSnoc(EachFacts(sources), CanonFacts(delta));
    r := MergeRows(r, sel(delta));
  }

  /** A keyed section with its rule for equal keys. */
  ghost predicate KeyedSection<V(!new)>(f: (V, V) -> V, sel: Canon -> seq<(nat, V)>, say: Facts -> map<nat, V>)
  {
    && (forall c | CanonOk(c) :: KeysAscend(sel(c)) && ToMap(sel(c)) == say(CanonFacts(c)))
    && (forall a, b :: say(Join(a, b)) == JoinMap(f, say(a), say(b)))
    && say(EMPTY) == map[]
  }

  method FoldKeyed<V(!new)>(f: (V, V) -> V, sel: Canon -> seq<(nat, V)>, ghost say: Facts -> map<nat, V>, sources: seq<Canon>, delta: Canon)
    returns (r: seq<(nat, V)>)
    requires KeyedSection(f, sel, say) && CanonOk(delta) && forall i | 0 <= i < |sources| :: CanonOk(sources[i])
    ensures KeysAscend(r) && ToMap(r) == say(JoinAll(EachFacts(sources + [delta])))
  {
    hide CanonFacts, CanonOk, Join, JoinAll, JoinMap, ToMap;
    NoFacts();
    NothingMapped<V>(map[]);
    assert EachFacts(sources[..0]) == [];
    r := [];
    for i := 0 to |sources|
      invariant KeysAscend(r) && ToMap(r) == say(JoinAll(EachFacts(sources[..i])))
    {
      assert EachFacts(sources[..i + 1]) == EachFacts(sources[..i]) + [CanonFacts(sources[i])];
      JoinAllSnoc(EachFacts(sources[..i]), CanonFacts(sources[i]));
      r := MergeKeyed(f, r, sel(sources[i]));
    }
    assert sources[..|sources|] == sources;
    assert EachFacts(sources + [delta]) == EachFacts(sources) + [CanonFacts(delta)];
    JoinAllSnoc(EachFacts(sources), CanonFacts(delta));
    r := MergeKeyed(f, r, sel(delta));
  }

  // the sections

  function Xrefs(c: Canon): seq<Row> { c.xrefs }
  function Inherits(c: Canon): seq<Row> { c.inherits }
  function Calls(c: Canon): seq<Row> { c.calls }
  function Childof(c: Canon): seq<Row> { c.childof }
  function Syms(c: Canon): seq<(nat, Meta)> { c.syms }
  function Files(c: Canon): seq<(nat, Str)> { c.files }
  function Typed(c: Canon): seq<(nat, Str)> { c.typed }
  function Sig(c: Canon): seq<(nat, Str)> { c.sig }
  ghost function SaidXrefs(f: Facts): set<Row> { f.xrefs }
  ghost function SaidInherits(f: Facts): set<Row> { f.inherits }
  ghost function SaidCalls(f: Facts): set<Row> { f.calls }
  ghost function SaidChildof(f: Facts): set<Row> { f.childof }
  ghost function SaidSyms(f: Facts): map<nat, Meta> { f.syms }
  ghost function SaidFiles(f: Facts): map<nat, Str> { f.files }
  ghost function SaidTyped(f: Facts): map<nat, Str> { f.typed }
  ghost function SaidSig(f: Facts): map<nat, Str> { f.sig }

  lemma RowSections()
    ensures RowSection(Xrefs, SaidXrefs) && RowSection(Inherits, SaidInherits)
    ensures RowSection(Calls, SaidCalls) && RowSection(Childof, SaidChildof)
  {
    hide RowLess, JoinMap, ToMap, Order.Ascending, KeysAscend, RowSet;
  }

  lemma KeyedSections()
    ensures KeyedSection(Refine, Syms, SaidSyms) && KeyedSection(FirstWins, Files, SaidFiles)
  {
    hide RowLess, JoinMap, ToMap, Order.Ascending, KeysAscend, RowSet;
  }

  lemma TypeSection()
    ensures KeyedSection(Smaller, Typed, SaidTyped)
  {
    hide RowLess, JoinMap, ToMap, Order.Ascending, KeysAscend, RowSet;
  }

  lemma SignatureSection()
    ensures KeyedSection(Smaller, Sig, SaidSig)
  {
    hide RowLess, JoinMap, ToMap, Order.Ascending, KeysAscend, RowSet;
  }

  // ---------------------------------------------------------------- writing the sections

  /** An entry pushed on the name index: a place in the blob, and the sym. */
  datatype Pushed = Pushed(name: Ref, sym: nat)

  function WithSyms(syms: seq<(nat, Meta)>): Canon
  {
    Canon([], syms, [], [], [], [], [], [], [])
  }

  /** Each string is appended as its row is written. */
  ghost predicate SymsWritten(merged: seq<(nat, Meta)>, n: nat, blob: seq<byte>, rows: seq<SymRow>, byName: seq<Pushed>)
  {
    var strs := NameStrs(WithSyms(merged));
    && n <= |merged| && blob == Flat(strs[..n]) && |rows| == n && |byName| == n
    && (forall i :: 0 <= i < n ==> rows[i] == SymRow(merged[i].0, merged[i].1.kind, merged[i].1.lang, RefOf(0, strs, i)))
    && (forall i :: 0 <= i < n ==> byName[i] == Pushed(RefOf(0, strs, i), merged[i].0))
  }

  /** The sym pass: rows, names, name entries, and the syms of variable kind, in one walk. */
  method SymsPass(merged: seq<(nat, Meta)>) returns (blob: seq<byte>, rows: seq<SymRow>, byName: seq<Pushed>, vars: set<nat>)
    requires KeysAscend(merged)
    ensures SymsWritten(merged, |merged|, blob, rows, byName)
    ensures forall s :: s in vars <==> s in ToMap(merged) && ToMap(merged)[s].kind == VARIABLE
  {
    hide ToMap;
    blob, rows, byName, vars := [], [], [], {};
    ghost var strs := NameStrs(WithSyms(merged));
    NothingMapped<Meta>(map[]);
    assert merged[..0] == [] && strs[..0] == [];
    for i := 0 to |merged|
      invariant SymsWritten(merged, i, blob, rows, byName)
      invariant forall s :: s in vars <==> s in ToMap(merged[..i]) && ToMap(merged[..i])[s].kind == VARIABLE
    {
      PrefixMap(merged, i);
      assert strs[..i + 1][..i] == strs[..i];
      if merged[i].1.kind == VARIABLE { vars := vars + {merged[i].0}; }
      var at := Ref(|blob|, |merged[i].1.name|);
      blob := blob + merged[i].1.name;
      rows := rows + [SymRow(merged[i].0, merged[i].1.kind, merged[i].1.lang, at)];
      byName := byName + [Pushed(at, merged[i].0)];
    }
    assert merged[..|merged|] == merged;
  }

  function Texts(rows: seq<Row>): (r: seq<Str>)
    ensures |r| == |rows| && forall i :: 0 <= i < |r| ==> r[i] == rows[i].text
  {
    seq(|rows|, i requires 0 <= i < |rows| => rows[i].text)
  }

  ghost predicate AliasesWritten(base: seq<byte>, kept: seq<Row>, blob: seq<byte>, before: seq<Pushed>, byName: seq<Pushed>)
  {
    && blob == base + Flat(Texts(kept)) && |byName| == |before| + |kept| && byName[..|before|] == before
    && (forall i :: 0 <= i < |kept| ==> byName[|before| + i] == Pushed(RefOf(|base|, Texts(kept), i), SymOf(kept[i])))
  }

  lemma OneMoreAlias(base: seq<byte>, kept: seq<Row>, blob: seq<byte>, before: seq<Pushed>, byName: seq<Pushed>, r: Row)
    requires AliasesWritten(base, kept, blob, before, byName)
    ensures AliasesWritten(base, kept + [r], blob + r.text, before, byName + [Pushed(Ref(|blob|, |r.text|), SymOf(r))])
  {
    hide Flat, RefOf, SymOf;
    var now, strs := kept + [r], Texts(kept + [r]);
    assert strs == Texts(kept) + [r.text];
    FlatSnoc(base, Texts(kept), r.text);
    var more := byName + [Pushed(Ref(|blob|, |r.text|), SymOf(r))];
    forall i | 0 <= i < |now| ensures more[|before| + i] == Pushed(RefOf(|base|, strs, i), SymOf(now[i])) {
      if i < |kept| { SameRef(|base|, Texts(kept), r.text, i); }
    }
    assert more[..|before|] == byName[..|before|];
  }

  lemma FlatSnoc(base: seq<byte>, strs: seq<Str>, s: Str)
    ensures base + Flat(strs + [s]) == base + Flat(strs) + s
    ensures RefOf(|base|, strs + [s], |strs|) == Ref(|base + Flat(strs)|, |s|)
  {
    assert (strs + [s])[..|strs|] == strs;
  }

  lemma SameRef(base: nat, strs: seq<Str>, s: Str, i: nat)
    requires i < |strs|
    ensures RefOf(base, strs + [s], i) == RefOf(base, strs, i)
  {
    assert (strs + [s])[..i] == strs[..i];
  }

  /** The alias pass: everything but the variables' aliases goes to the blob and the names. */
  method AliasPass(merged: seq<Row>, vars: set<nat>, base: seq<byte>, before: seq<Pushed>)
    returns (blob: seq<byte>, byName: seq<Pushed>, ghost kept: seq<Row>)
    requires Order.Ascending(RowLess, merged)
    ensures AliasesWritten(base, kept, blob, before, byName) && Order.Ascending(RowLess, kept)
    ensures forall x :: x in kept <==> x in merged && SymOf(x) !in vars
  {
    hide RowLess, SymOf, AliasesWritten;
    blob, byName, kept := base, before, [];
    NoAliasYet(base, before);
    for i := 0 to |merged|
      invariant AliasesWritten(base, kept, blob, before, byName) && Order.Ascending(RowLess, kept)
      invariant forall x :: x in kept <==> x in merged[..i] && SymOf(x) !in vars
      invariant forall p, q :: 0 <= p < |kept| && i <= q < |merged| ==> RowLess(kept[p], merged[q])
    {
      assert merged[..i + 1] == merged[..i] + [merged[i]];
      if SymOf(merged[i]) !in vars {
        OneMoreAlias(base, kept, blob, before, byName, merged[i]);
        byName := byName + [Pushed(Ref(|blob|, |merged[i].text|), SymOf(merged[i]))];
        blob := blob + merged[i].text;
        kept := kept + [merged[i]];
      }
    }
    assert merged[..|merged|] == merged;
  }

  lemma NoAliasYet(base: seq<byte>, before: seq<Pushed>)
    ensures AliasesWritten(base, [], base, before, before)
  {
    assert Texts([]) == [];
  }

  /** The rows of a keyed string section that are written. */
  ghost function Filled(rows: seq<(nat, Str)>, skipEmpty: bool): seq<(nat, Str)>
  {
    if rows == [] then []
    else
      var n := |rows| - 1;
      if skipEmpty && rows[n].1 == [] then Filled(rows[..n], skipEmpty) else Filled(rows[..n], skipEmpty) + [rows[n]]
  }

  lemma {:induction false} AllFilled(rows: seq<(nat, Str)>, skipEmpty: bool)
    requires !skipEmpty || forall i :: 0 <= i < |rows| ==> rows[i].1 != []
    ensures Filled(rows, skipEmpty) == rows
  {
    if rows != [] { AllFilled(rows[..|rows| - 1], skipEmpty); }
  }

  ghost predicate StringsWritten(base: seq<byte>, rows: seq<(nat, Str)>, blob: seq<byte>, table: seq<(nat, Ref)>)
  {
    blob == base + Flat(Strs(rows)) && KeyedRefs(table, rows, |base|)
  }

  lemma NoStringYet(base: seq<byte>)
    ensures StringsWritten(base, [], base, [])
  {
    assert Strs([]) == [];
  }

  lemma OneMoreString(base: seq<byte>, rows: seq<(nat, Str)>, blob: seq<byte>, table: seq<(nat, Ref)>, x: (nat, Str))
    requires StringsWritten(base, rows, blob, table)
    ensures StringsWritten(base, rows + [x], blob + x.1, table + [(x.0, Ref(|blob|, |x.1|))])
  {
    hide Flat, RefOf;
    assert Strs(rows + [x]) == Strs(rows) + [x.1];
    FlatSnoc(base, Strs(rows), x.1);
    forall i | 0 <= i < |rows| ensures RefOf(|base|, Strs(rows + [x]), i) == RefOf(|base|, Strs(rows), i) {
      SameRef(|base|, Strs(rows), x.1, i);
    }
  }

  /** A keyed string section: append, reference, write. Types and signatures skip empty
      strings. */
  method StringPass(merged: seq<(nat, Str)>, skipEmpty: bool, base: seq<byte>) returns (blob: seq<byte>, table: seq<(nat, Ref)>)
    ensures StringsWritten(base, Filled(merged, skipEmpty), blob, table)
  {
    hide StringsWritten;
    blob, table := base, [];
    NoStringYet(base);
    for i := 0 to |merged|
      invariant StringsWritten(base, Filled(merged[..i], skipEmpty), blob, table)
    {
      assert merged[..i + 1][..i] == merged[..i];
      if !skipEmpty || merged[i].1 != [] {
        OneMoreString(base, Filled(merged[..i], skipEmpty), blob, table, merged[i]);
        table := table + [(merged[i].0, Ref(|blob|, |merged[i].1|))];
        blob := blob + merged[i].1;
      }
    }
    assert merged[..|merged|] == merged;
  }

  /** The names pass: sort the pushed entries by the text they point at, write the table, and
      index it. */
  method NamesPass(byName: seq<Pushed>, blob: seq<byte>, ghost c: Canon)
    returns (entries: seq<NameEntry>, ghost names: seq<Named>, dict: seq<TrigramSpec.DictRow>, post: seq<byte>)
    requires NamesFit(c) && PushedFor(byName, blob, c)
    ensures NamesOf(names, c) && |entries| == |names|
    ensures forall i :: 0 <= i < |names| ==> entries[i] == NameEntry(Ref(names[i].off, |names[i].text|), names[i].sym)
    ensures TrigramSpec.IndexOk(NameRows(names), dict, post)
  {
    hide NamedLess, IsEntry, TrigramSpec.IndexOk, TrigramSpec.IndexFits, RefOf, SymOf;
    var pushed: seq<Named> := [];
    for i := 0 to |byName|
      invariant |pushed| == i && forall k :: 0 <= k < i ==> pushed[k] == EntryOf(c, k)
    {
      assert PushedAt(byName[i], blob, EntryOf(c, i));
      pushed := pushed + [Named(Text(blob, byName[i].name), byName[i].sym, byName[i].name.off)];
    }
    EntriesPushed(c, pushed);
    var sorted := SortEntries(pushed);
    names := sorted;
    entries := seq(|sorted|, i requires 0 <= i < |sorted| => NameEntry(Ref(sorted[i].off, |sorted[i].text|), sorted[i].sym));
    var rows := seq(|sorted|, i requires 0 <= i < |sorted| => TrigramSpec.NameRow(sorted[i].text, sorted[i].sym));
    assert rows == NameRows(names);
    dict, post := TrigramBuild.Build(rows);
  }

  ghost function EntryOf(c: Canon, k: nat): Named
    requires k < |c.syms| + |c.aliases|
  {
    if k < |c.syms| then SymEntry(c, k) else AliasEntry(c, k - |c.syms|)
  }

  /** What was pushed points at the entries of the tables being written. */
  ghost predicate PushedFor(byName: seq<Pushed>, blob: seq<byte>, c: Canon)
  {
    && |byName| == |c.syms| + |c.aliases|
    && (forall k :: 0 <= k < |byName| ==> PushedAt(byName[k], blob, EntryOf(c, k)))
  }

  lemma EntriesPushed(c: Canon, pushed: seq<Named>)
    requires |pushed| == |c.syms| + |c.aliases| && forall k :: 0 <= k < |pushed| ==> pushed[k] == EntryOf(c, k)
    ensures forall e :: e in pushed <==> IsEntry(c, e)
  {
    hide RefOf, SymOf, IsEntry;
    forall k | 0 <= k < |c.aliases| ensures pushed[|c.syms| + k] == AliasEntry(c, k) {}
    PushedIsEntries(c, pushed);
  }

  ghost predicate PushedAt(p: Pushed, blob: seq<byte>, e: Named)
  {
    Reads(blob, p.name, e.text) && p.sym == e.sym && p.name.off == e.off
  }

  lemma SymPushed(c: Canon, blob: seq<byte>, k: nat)
    requires k < |c.syms| && blob == Flat(NameStrs(c)) + Flat(AliasStrs(c))
    ensures PushedAt(Pushed(RefOf(0, NameStrs(c), k), c.syms[k].0), blob, SymEntry(c, k))
  {
    hide Flat, RefOf;
    assert blob == [] + Flat(NameStrs(c)) + Flat(AliasStrs(c));
    RefReads(blob, [], NameStrs(c), Flat(AliasStrs(c)), k);
  }

  lemma AliasPushed(c: Canon, blob: seq<byte>, i: nat)
    requires i < |c.aliases| && blob == Flat(NameStrs(c)) + Flat(AliasStrs(c))
    ensures PushedAt(Pushed(RefOf(AliasBase(c), AliasStrs(c), i), SymOf(c.aliases[i])), blob, AliasEntry(c, i))
  {
    hide Flat, RefOf, SymOf;
    assert blob == Flat(NameStrs(c)) + Flat(AliasStrs(c)) + [];
    RefReads(blob, Flat(NameStrs(c)), AliasStrs(c), [], i);
  }

  /** The two string passes push exactly those entries. */
  lemma PassesPush(c: Canon, base: seq<byte>, rows: seq<SymRow>, before: seq<Pushed>, blob: seq<byte>, byName: seq<Pushed>)
    requires SymsWritten(c.syms, |c.syms|, base, rows, before) && AliasesWritten(base, c.aliases, blob, before, byName)
    ensures PushedFor(byName, blob, c) && blob == Flat(NameStrs(c)) + Flat(AliasStrs(c)) && base == Flat(NameStrs(c))
    ensures forall i :: 0 <= i < |rows| ==> rows[i] == SymRow(c.syms[i].0, c.syms[i].1.kind, c.syms[i].1.lang, RefOf(0, NameStrs(c), i))
  {
    var strs := NameStrs(WithSyms(c.syms));
    assert strs == NameStrs(c) && strs[..|strs|] == strs && Texts(c.aliases) == AliasStrs(c);
    hide Flat, RefOf, SymOf, SymEntry, AliasEntry, Reads;
    forall k | 0 <= k < |byName| ensures PushedAt(byName[k], blob, EntryOf(c, k)) {
      if k < |c.syms| {
        assert byName[k] == byName[..|before|][k] == before[k];
        SymPushed(c, blob, k);
      } else {
        assert byName[|before| + (k - |c.syms|)] == byName[k];
        AliasPushed(c, blob, k - |c.syms|);
      }
    }
  }

  // ---------------------------------------------------------------- the whole pass

  /** Open every source and read its sections. */
  method ReadSources(sources: seq<Image>, ghost cs: seq<Canon>) returns (r: seq<Canon>)
    requires |cs| == |sources| && forall i | 0 <= i < |cs| :: ImageOf(sources[i], cs[i]) && SourceOk(cs[i])
    ensures r == cs
  {
    hide ImageOf, SourceOk;
    r := [];
    for i := 0 to |sources|
      invariant r == cs[..i]
    {
      SourceShape(cs[i]);
      SourceCanon(cs[i]);
      var one := Read(sources[i], cs[i]);
      r := r + [one];
    }
  }

  lemma SourceCanon(c: Canon)
    requires SourceOk(c)
    ensures CanonOk(c) && Plain(CanonFacts(c))
  {
  }

  /** Every source's aliases gathered once, sorted, and merged with the delta's. */
  method GatherAliases(cs: seq<Canon>, d: Canon) returns (aliases: seq<Row>)
    requires CanonOk(d)
    ensures Order.Ascending(RowLess, aliases) && RowSet(aliases) == JoinAll(EachFacts(cs + [d])).aliases
  {
    assert Order.Ascending(RowLess, d.aliases);
    hide RowLess, CanonOk, Join, JoinAll, JoinMap, ToMap, Order.Ascending;
    var gathered: seq<Row> := [];
    NoFacts();
    assert EachFacts(cs[..0]) == [];
    for i := 0 to |cs|
      invariant RowSet(gathered) == JoinAll(EachFacts(cs[..i])).aliases
    {
      assert EachFacts(cs[..i + 1]) == EachFacts(cs[..i]) + [CanonFacts(cs[i])];
      JoinAllSnoc(EachFacts(cs[..i]), CanonFacts(cs[i]));
      JoinedAliases(JoinAll(EachFacts(cs[..i])), CanonFacts(cs[i]));
      gathered := gathered + cs[i].aliases;
    }
    assert cs[..|cs|] == cs;
    assert EachFacts(cs + [d]) == EachFacts(cs) + [CanonFacts(d)];
    JoinAllSnoc(EachFacts(cs), CanonFacts(d));
    JoinedAliases(JoinAll(EachFacts(cs)), CanonFacts(d));
    var prior := SortRows(gathered);
    aliases := MergeRows(prior, d.aliases);
  }

  lemma JoinedAliases(a: Facts, b: Facts)
    ensures Join(a, b).aliases == a.aliases + b.aliases
  {
  }

  ghost predicate EachSource(cs: seq<Canon>)
  {
    forall i | 0 <= i < |cs| :: SourceOk(cs[i])
  }

  /** What the merge of sources and delta says, aliases not yet suppressed. */
  ghost function Together(cs: seq<Canon>, delta: Rows): Facts
  {
    JoinAll(EachFacts(cs) + [FactsOf(delta)])
  }

  lemma TogetherPlain(cs: seq<Canon>, delta: Rows)
    requires EachSource(cs) && Shaped(delta)
    ensures Plain(Together(cs, delta))
  {
    ShapedPlain(delta);
    var fs := EachFacts(cs) + [FactsOf(delta)];
    hide Plain, JoinAll, FactsOf, CanonFacts;
    forall i | 0 <= i < |fs| ensures Plain(fs[i]) {
      if i < |cs| { assert SourceOk(cs[i]); }
    }
    JoinAllPlain(fs);
  }

  /** The tables the sections hold, and what they say. */
  lemma SectionsSay(c: Canon, f: Facts, vars: set<nat>)
    requires CanonOk(c) && RowSet(c.xrefs) == f.xrefs && RowSet(c.inherits) == f.inherits && RowSet(c.calls) == f.calls
    requires RowSet(c.childof) == f.childof && ToMap(c.syms) == f.syms && ToMap(c.files) == f.files
    requires ToMap(c.typed) == f.typed && ToMap(c.sig) == f.sig
    requires forall s :: s in vars <==> s in f.syms && f.syms[s].kind == VARIABLE
    requires forall x :: x in c.aliases <==> x in f.aliases && SymOf(x) !in vars
    ensures CanonFacts(c) == Suppress(f)
  {
    hide CanonOk, ToMap, Suppress;
    RetainIsSuppress(f, RowSet(c.aliases), vars);
    assert CanonFacts(c) == f.(aliases := RowSet(c.aliases));
  }

  ghost predicate StringsPresent(c: Canon)
  {
    (forall i :: 0 <= i < |c.typed| ==> c.typed[i].1 != []) && forall i :: 0 <= i < |c.sig| ==> c.sig[i].1 != []
  }

  lemma PresentStrings(c: Canon, f: Facts)
    requires KeysAscend(c.typed) && KeysAscend(c.sig) && ToMap(c.typed) == f.typed && ToMap(c.sig) == f.sig && Plain(f)
    ensures StringsPresent(c)
  {
    hide ToMap;
    forall i | 0 <= i < |c.typed| ensures c.typed[i].1 != [] { RowInMap(c.typed, i); }
    forall i | 0 <= i < |c.sig| ensures c.sig[i].1 != [] { RowInMap(c.sig, i); }
  }

  /** Fold every section: the merged tables, aliases still unsuppressed. */
  method FoldSections(cs: seq<Canon>, d: Canon) returns (m: Canon)
    requires CanonOk(d) && forall i | 0 <= i < |cs| :: CanonOk(cs[i])
    ensures CanonOk(m) && CanonFacts(m) == JoinAll(EachFacts(cs + [d]))
  {
    hide RowLess, Order.Ascending, JoinAll, ToMap, RowSet, RowSection, KeyedSection, KeysAscend;
    RowSections();
    KeyedSections();
    TypeSection();
    SignatureSection();
    var xrefs := FoldRows(Xrefs, SaidXrefs, cs, d);
    var syms := FoldKeyed(Refine, Syms, SaidSyms, cs, d);
    var aliases := GatherAliases(cs, d);
    var files := FoldKeyed(FirstWins, Files, SaidFiles, cs, d);
    var inherits := FoldRows(Inherits, SaidInherits, cs, d);
    var calls := FoldRows(Calls, SaidCalls, cs, d);
    var typed := FoldKeyed(Smaller, Typed, SaidTyped, cs, d);
    var childof := FoldRows(Childof, SaidChildof, cs, d);
    var sig := FoldKeyed(Smaller, Sig, SaidSig, cs, d);
    m := Canon(xrefs, syms, aliases, files, inherits, calls, typed, childof, sig);
  }

  /** The file the merge writes: laid out pass by pass, it is a proper index file of exactly
      what the sources and the delta say together, aliases of variables suppressed. */
  method WriteMerged(sources: seq<Image>, ghost cs: seq<Canon>, delta: Rows) returns (t: Image, ghost c: Canon)
    requires |cs| == |sources| && EachSource(cs) && (forall i | 0 <= i < |cs| :: ImageOf(sources[i], cs[i])) && Shaped(delta)
    requires FactsFit(Suppress(Together(cs, delta)))
    ensures ImageOf(t, c) && SourceOk(c) && CanonFacts(c) == Suppress(Together(cs, delta))
  {
    hide ImageOf, SourceOk, CanonFacts, JoinAll, FactsOf, Suppress, Plain, CanonOk, Shaped, FactsFit;
    forall i | 0 <= i < |cs| ensures CanonOk(cs[i]) { SourceCanon(cs[i]); }
    TogetherPlain(cs, delta);
    SuppressPlain(Together(cs, delta));
    var d := SortBuilder(delta);
    var open := ReadSources(sources, cs);
    assert EachFacts(cs + [d]) == EachFacts(cs) + [FactsOf(delta)];
    var m := FoldSections(open, d);
    t, c := WriteSections(m);
    JoinedSource(c, Together(cs, delta));
  }

  lemma JoinedSource(c: Canon, f: Facts)
    requires CanonOk(c) && CanonFacts(c) == Suppress(f) && Plain(Suppress(f))
    ensures SourceOk(c)
  {
  }

  /** The names of every table that says this fit the 32-bit columns of the trigram index. */
  ghost predicate FactsFit(f: Facts)
  {
    forall c | CanonOk(c) && CanonFacts(c) == f :: NamesFit(c)
  }

  /** Write the merged rows, pass by pass, as they come out of the folds. */
  method WriteSections(m: Canon) returns (t: Image, ghost c: Canon)
    requires CanonOk(m) && Plain(CanonFacts(m)) && FactsFit(Suppress(CanonFacts(m)))
    ensures ImageOf(t, c) && CanonOk(c) && CanonFacts(c) == Suppress(CanonFacts(m))
  {
    hide RowLess, Order.Ascending, ToMap, Flat, RefOf, SymOf, SymsWritten, AliasesWritten, PushedFor, Suppress, NamesFit, IsReverse, NamedLess,
      IsEntry, TrigramSpec.IndexOk, Plain, JoinMap, Filled;
    PresentStrings(m, CanonFacts(m));
    AllFilled(m.files, false);
    AllFilled(m.typed, true);
    AllFilled(m.sig, true);
    var base, rows, before, vars := SymsPass(m.syms);
    var blob, byName;
    ghost var kept;
    blob, byName, kept := AliasPass(m.aliases, vars, base, before);
    c := m.(aliases := kept);
    SectionsSay(c, CanonFacts(m), vars);
    assert NamesFit(c);
    PassesPush(c, base, rows, before, blob, byName);
    ghost var names;
    var entries, dict, post;
    entries, names, dict, post := NamesPass(byName, blob, c);
    var files, typed, sig;
    blob, files := StringPass(m.files, false, blob);
    var inhrev := ReverseTable(m.inherits);
    var crev := ReverseTable(m.calls);
    blob, typed := StringPass(m.typed, true, blob);
    blob, sig := StringPass(m.sig, true, blob);
    t := Image(m.xrefs, rows, entries, files, m.inherits, inhrev, m.calls, crev, typed, m.childof, sig, blob, dict, post);
    assert NamesOk(t, c, names);
    SymRowCount(m.syms, base, rows, before);
  }

  lemma SymRowCount(merged: seq<(nat, Meta)>, blob: seq<byte>, rows: seq<SymRow>, byName: seq<Pushed>)
    requires SymsWritten(merged, |merged|, blob, rows, byName)
    ensures |rows| == |merged|
  {
  }
}
