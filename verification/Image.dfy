/** The file as it is laid out: strings moved into one blob and referenced by offset
    and length, the names index sorted over them, the reverse edge tables, and the
    iterators that read a finished file back when it becomes a merge source. */
module Image {
  import opened Bytes
  import opened Facts
  import opened Keyed
  import opened Store
  import Order
  import TrigramSpec
  import TrigramBuild
  import TrigramUnique

  datatype Ref = Ref(off: nat, len: nat)
  datatype SymRow = SymRow(sym: nat, kind: nat, lang: nat, name: Ref)
  datatype NameEntry = NameEntry(name: Ref, sym: nat)

  datatype Image = Image(
    xrefs: seq<Row>, syms: seq<SymRow>, names: seq<NameEntry>, files: seq<(nat, Ref)>,
    inherits: seq<Row>, inhrev: seq<Row>, calls: seq<Row>, crev: seq<Row>,
    typed: seq<(nat, Ref)>, childrev: seq<Row>, sig: seq<(nat, Ref)>, blob: seq<byte>,
    dict: seq<TrigramSpec.DictRow>, post: seq<byte>)

  // ---------------------------------------------------------------- strings in the blob

  function Flat(strs: seq<Str>): seq<byte>
  {
    if strs == [] then [] else Flat(strs[..|strs| - 1]) + strs[|strs| - 1]
  }

  /** Where string `i` goes when `strs` are appended at `base`. */
  function RefOf(base: nat, strs: seq<Str>, i: nat): Ref
    requires i < |strs|
  {
    Ref(base + |Flat(strs[..i])|, |strs[i]|)
  }

  ghost predicate RefsOk(base: nat, strs: seq<Str>, refs: seq<Ref>)
  {
    |refs| == |strs| && forall i :: 0 <= i < |strs| ==> refs[i] == RefOf(base, strs, i)
  }

  method Append(blob: seq<byte>, strs: seq<Str>) returns (out: seq<byte>, refs: seq<Ref>)
    ensures out == blob + Flat(strs) && RefsOk(|blob|, strs, refs)
  {
    out, refs := blob, [];
    for i := 0 to |strs|
      invariant out == blob + Flat(strs[..i])
      invariant |refs| == i && forall k :: 0 <= k < i ==> refs[k] == RefOf(|blob|, strs, k)
    {
      assert strs[..i + 1][..i] == strs[..i];
      refs := refs + [Ref(|out|, |strs[i]|)];
      out := out + strs[i];
    }
    assert strs[..|strs|] == strs;
  }

  function Text(blob: seq<byte>, r: Ref): Str
    requires r.off + r.len <= |blob|
  {
    blob[r.off..r.off + r.len]
  }

  lemma {:induction false} FlatSplit(strs: seq<Str>, i: nat)
    requires i < |strs|
    ensures |Flat(strs[..i])| + |strs[i]| <= |Flat(strs)|
    ensures Flat(strs)[|Flat(strs[..i])|..|Flat(strs[..i])| + |strs[i]|] == strs[i]
  {
    var n := |strs| - 1;
    if i < n {
      FlatSplit(strs[..n], i);
      assert strs[..n][..i] == strs[..i];
      var f := Flat(strs[..n]);
      var a, b := |Flat(strs[..i])|, |Flat(strs[..i])| + |strs[i]|;
      assert Flat(strs) == f + strs[n];
      assert (f + strs[n])[a..b] == f[a..b];
    }
  }

  /** A reference into a section of the blob reads back its string. */
  lemma RefReads(blob: seq<byte>, before: seq<byte>, strs: seq<Str>, after: seq<byte>, i: nat)
    requires blob == before + Flat(strs) + after && i < |strs|
    ensures var r := RefOf(|before|, strs, i);
            && r.off + r.len <= |before| + |Flat(strs)| <= |blob|
            && Text(blob, r) == strs[i]
  {
    FlatSplit(strs, i);
    var r, f := RefOf(|before|, strs, i), Flat(strs);
    assert blob[r.off..r.off + r.len] == f[r.off - |before|..r.off - |before| + r.len];
  }

  // ---------------------------------------------------------------- the names index

  /** A name entry with its text: the key it is sorted by, then where it lies. Equal
      names of one sym keep the order they were pushed in, canonical name first, which
      is the order of their offsets. */
  datatype Named = Named(text: Str, sym: nat, off: nat)

  function NamedLess(a: Named, b: Named): bool
  {
    LexLess(a.text, b.text)
    || (a.text == b.text && (a.sym < b.sym || (a.sym == b.sym && a.off < b.off)))
  }

  lemma NamedOrder()
    ensures Order.StrictOrder(NamedLess)
  {
    forall x: Named ensures !NamedLess(x, x) { LexIrreflexive(x.text); }
    forall x: Named, y: Named, z: Named | NamedLess(x, y) && NamedLess(y, z) ensures NamedLess(x, z) {
      if LexLess(x.text, y.text) && LexLess(y.text, z.text) { LexTransitive(x.text, y.text, z.text); }
    }
    forall x: Named, y: Named ensures NamedLess(x, y) || x == y || NamedLess(y, x) { LexTotal(x.text, y.text); }
  }

  /** The strings of each blob section, in table order. */
  function NameStrs(c: Canon): (r: seq<Str>)
    ensures |r| == |c.syms|
    ensures forall i :: 0 <= i < |r| ==> r[i] == c.syms[i].1.name
  {
    seq(|c.syms|, i requires 0 <= i < |c.syms| => c.syms[i].1.name)
  }

  function AliasStrs(c: Canon): (r: seq<Str>)
    ensures |r| == |c.aliases|
    ensures forall i :: 0 <= i < |r| ==> r[i] == c.aliases[i].text
  {
    seq(|c.aliases|, i requires 0 <= i < |c.aliases| => c.aliases[i].text)
  }

  function Strs(t: seq<(nat, Str)>): (r: seq<Str>)
    ensures |r| == |t|
    ensures forall i :: 0 <= i < |r| ==> r[i] == t[i].1
  {
    seq(|t|, i requires 0 <= i < |t| => t[i].1)
  }

  /** Offsets at which the alias, path, type and signature strings start. */
  function AliasBase(c: Canon): nat { |Flat(NameStrs(c))| }
  function PathBase(c: Canon): nat { AliasBase(c) + |Flat(AliasStrs(c))| }
  function TypeBase(c: Canon): nat { PathBase(c) + |Flat(Strs(c.files))| }
  function SigBase(c: Canon): nat { TypeBase(c) + |Flat(Strs(c.typed))| }

  function Blob(c: Canon): seq<byte>
  {
    Flat(NameStrs(c)) + Flat(AliasStrs(c)) + Flat(Strs(c.files)) + Flat(Strs(c.typed)) + Flat(Strs(c.sig))
  }

  function SymEntry(c: Canon, i: nat): Named
    requires i < |c.syms|
  {
    Named(c.syms[i].1.name, c.syms[i].0, RefOf(0, NameStrs(c), i).off)
  }

  function AliasEntry(c: Canon, i: nat): Named
    requires i < |c.aliases|
  {
    Named(c.aliases[i].text, SymOf(c.aliases[i]), RefOf(AliasBase(c), AliasStrs(c), i).off)
  }

  /** The entries pushed on the names index: one per sym, one per alias. */
  ghost predicate IsEntry(c: Canon, e: Named)
  {
    || (exists i :: 0 <= i < |c.syms| && e == SymEntry(c, i))
    || (exists i :: 0 <= i < |c.aliases| && e == AliasEntry(c, i))
  }

  /** Push and sort, as `finish` does. */
  method SortNames(c: Canon) returns (names: seq<Named>)
    ensures Order.Ascending(NamedLess, names)
    ensures forall e :: e in names <==> IsEntry(c, e)
  {
    hide NamedLess;
    var pushed: seq<Named> := [];
    for i := 0 to |c.syms|
      invariant |pushed| == i
      invariant forall k :: 0 <= k < i ==> pushed[k] == SymEntry(c, k)
    {
      pushed := pushed + [SymEntry(c, i)];
    }
    for i := 0 to |c.aliases|
      invariant |pushed| == |c.syms| + i
      invariant forall k :: 0 <= k < |c.syms| ==> pushed[k] == SymEntry(c, k)
      invariant forall k :: 0 <= k < i ==> pushed[|c.syms| + k] == AliasEntry(c, k)
    {
      pushed := pushed + [AliasEntry(c, i)];
    }
    names := SortEntries(pushed);
    PushedIsEntries(c, pushed);
  }

  /** The alphabetical sort: by text, then by sym, then stable. */
  method SortEntries(pushed: seq<Named>) returns (names: seq<Named>)
    ensures Order.Ascending(NamedLess, names)
    ensures forall e :: e in names <==> e in pushed
  {
    hide NamedLess;
    NamedOrder();
    names := Order.SortDedup(NamedLess, pushed);
  }

  lemma PushedIsEntries(c: Canon, pushed: seq<Named>)
    requires |pushed| == |c.syms| + |c.aliases|
    requires forall k :: 0 <= k < |c.syms| ==> pushed[k] == SymEntry(c, k)
    requires forall k :: 0 <= k < |c.aliases| ==> pushed[|c.syms| + k] == AliasEntry(c, k)
    ensures forall e :: e in pushed <==> IsEntry(c, e)
  {
    hide RefOf, AliasBase, SymOf;
    forall e | e in pushed ensures IsEntry(c, e) {
      var k :| 0 <= k < |pushed| && pushed[k] == e;
      if k >= |c.syms| {
        var i := k - |c.syms|;
        assert pushed[|c.syms| + i] == e == AliasEntry(c, i);
      } else {
        assert e == SymEntry(c, k);
      }
    }
    forall e | IsEntry(c, e) ensures e in pushed {
      if i :| 0 <= i < |c.syms| && e == SymEntry(c, i) {
        assert pushed[i] == e;
      } else {
        var i :| 0 <= i < |c.aliases| && e == AliasEntry(c, i);
        assert pushed[|c.syms| + i] == e;
      }
    }
  }

  // ---------------------------------------------------------------- reverse edges

  /** Swap the first two columns. */
  function Reverse(r: Row): Row
  {
    if |r.cols| < 2 then r else r.(cols := [r.cols[1], r.cols[0]] + r.cols[2..])
  }

  lemma ReverseTwice(r: Row)
    ensures Reverse(Reverse(r)) == r
  {
  }

  ghost predicate IsReverse(rows: seq<Row>, rev: seq<Row>)
  {
    Order.Ascending(RowLess, rev) && forall r :: r in rev <==> Reverse(r) in rows
  }

  method ReverseTable(rows: seq<Row>) returns (rev: seq<Row>)
    ensures IsReverse(rows, rev)
  {
    hide RowLess, Reverse;
    var swapped: seq<Row> := [];
    for i := 0 to |rows|
      invariant |swapped| == i && forall k :: 0 <= k < i ==> swapped[k] == Reverse(rows[k])
    {
      swapped := swapped + [Reverse(rows[i])];
    }
    rev := SortRows(swapped);
    forall r ensures r in swapped <==> Reverse(r) in rows {
      ReverseTwice(r);
      if Reverse(r) in rows {
        var k :| 0 <= k < |rows| && rows[k] == Reverse(r);
        assert swapped[k] == r;
      }
      if r in swapped {
        var k :| 0 <= k < |swapped| && swapped[k] == r;
        ReverseTwice(rows[k]);
      }
    }
  }

  // ---------------------------------------------------------------- the file

  /** The names table as the trigram index sees it. */
  ghost function NameRows(names: seq<Named>): (r: seq<TrigramSpec.NameRow>)
    ensures |r| == |names|
  {
    seq(|names|, i requires 0 <= i < |names| => TrigramSpec.NameRow(names[i].text, names[i].sym))
  }

  /** `names` is the names index of the tables. */
  ghost predicate NamesOf(names: seq<Named>, c: Canon)
  {
    Order.Ascending(NamedLess, names) && forall e :: e in names <==> IsEntry(c, e)
  }

  /** The 32-bit columns of the trigram index can hold the names index of the tables. */
  ghost predicate NamesFit(c: Canon)
  {
    forall names: seq<Named> | NamesOf(names, c) :: TrigramSpec.IndexFits(NameRows(names))
  }

  ghost predicate NamesOk(t: Image, c: Canon, names: seq<Named>)
  {
    && NamesOf(names, c)
    && |t.names| == |names|
    && (forall i :: 0 <= i < |names| ==>
          t.names[i] == NameEntry(Ref(names[i].off, |names[i].text|), names[i].sym))
    && TrigramSpec.IndexOk(NameRows(names), t.dict, t.post)
  }

  ghost predicate KeyedRefs(table: seq<(nat, Ref)>, rows: seq<(nat, Str)>, base: nat)
  {
    |table| == |rows| && forall i :: 0 <= i < |rows| ==> table[i] == (rows[i].0, RefOf(base, Strs(rows), i))
  }

  /** `t` is the file both writers produce from the sorted tables `c`. */
  ghost predicate ImageOf(t: Image, c: Canon)
  {
    && t.xrefs == c.xrefs && t.inherits == c.inherits && t.calls == c.calls && t.childrev == c.childof
    && IsReverse(c.inherits, t.inhrev) && IsReverse(c.calls, t.crev)
    && t.blob == Blob(c)
    && |t.syms| == |c.syms|
    && (forall i :: 0 <= i < |c.syms| ==>
          t.syms[i] == SymRow(c.syms[i].0, c.syms[i].1.kind, c.syms[i].1.lang, RefOf(0, NameStrs(c), i)))
    && KeyedRefs(t.files, c.files, PathBase(c))
    && KeyedRefs(t.typed, c.typed, TypeBase(c))
    && KeyedRefs(t.sig, c.sig, SigBase(c))
    && (exists names :: NamesOk(t, c, names))
  }

  method KeyedTable(blob: seq<byte>, rows: seq<(nat, Str)>) returns (out: seq<byte>, table: seq<(nat, Ref)>)
    ensures out == blob + Flat(Strs(rows)) && KeyedRefs(table, rows, |blob|)
  {
    var refs;
    out, refs := Append(blob, Strs(rows));
    table := seq(|rows|, i requires 0 <= i < |rows| && |refs| == |rows| => (rows[i].0, refs[i]));
  }

  /** The write pass of `finish`: strings section by section, references beside them, then
      the names index and the trigram index over it. */
  method Write(c: Canon) returns (t: Image)
    requires NamesFit(c)
    ensures ImageOf(t, c)
  {
    hide Flat, RefOf, NamedLess, IsReverse, TrigramSpec.IndexOk, IsEntry, TrigramSpec.IndexFits;
    var blob, refs := Append([], NameStrs(c));
    var syms := seq(|c.syms|, i requires 0 <= i < |c.syms| && |refs| == |c.syms| =>
      SymRow(c.syms[i].0, c.syms[i].1.kind, c.syms[i].1.lang, refs[i]));
    assert blob == Flat(NameStrs(c));
    var aliasRefs;
    blob, aliasRefs := Append(blob, AliasStrs(c));
    var names := SortNames(c);
    assert NamesOf(names, c);
    var entries := seq(|names|, i requires 0 <= i < |names| => NameEntry(Ref(names[i].off, |names[i].text|), names[i].sym));
    var rows := seq(|names|, i requires 0 <= i < |names| => TrigramSpec.NameRow(names[i].text, names[i].sym));
    assert rows == NameRows(names);
    var dict, post := TrigramBuild.Build(rows);
    var files, typed, sig;
    blob, files := KeyedTable(blob, c.files);
    var inhrev := ReverseTable(c.inherits);
    var crev := ReverseTable(c.calls);
    blob, typed := KeyedTable(blob, c.typed);
    blob, sig := KeyedTable(blob, c.sig);
    t := Image(c.xrefs, syms, entries, files, c.inherits, inhrev, c.calls, crev, typed, c.childof, sig, blob, dict, post);
    assert NamesOk(t, c, names);
  }

  /** At most 2^29 names always fit. */
  lemma FewNamesFit(c: Canon)
    requires |c.syms| + |c.aliases| <= TrigramSpec.MAX_ROWS
    ensures NamesFit(c)
  {
    hide NamedLess, IsEntry, TrigramSpec.IndexFits;
    forall names: seq<Named> | NamesOf(names, c) ensures TrigramSpec.IndexFits(NameRows(names)) {
      EntryCount(c, names);
      TrigramSpec.SmallTableFits(NameRows(names));
    }
  }

  lemma EntryCount(c: Canon, names: seq<Named>)
    requires Order.Ascending(NamedLess, names) && forall e :: e in names ==> IsEntry(c, e)
    ensures |names| <= |c.syms| + |c.aliases|
  {
    hide RefOf, AliasBase, SymOf;
    var a := seq(|c.syms|, i requires 0 <= i < |c.syms| => SymEntry(c, i));
    var b := seq(|c.aliases|, i requires 0 <= i < |c.aliases| =>
      AliasEntry(c, i));
    forall e | e in names ensures e in a + b {
      if i :| 0 <= i < |c.syms| && e == SymEntry(c, i) {
        assert (a + b)[i] == e;
      } else {
        var i :| 0 <= i < |c.aliases| && e == AliasEntry(c, i);
        assert (a + b)[|a| + i] == e;
      }
    }
    DistinctWithin(names, a + b);
  }

  lemma {:induction false} DistinctWithin(names: seq<Named>, all: seq<Named>)
    requires Order.Ascending(NamedLess, names) && forall e :: e in names ==> e in all
    ensures |names| <= |all|
  {
    if names != [] {
      var n := |names| - 1;
      assert names[n] in all;
      var k :| 0 <= k < |all| && all[k] == names[n];
      var rest := all[..k] + all[k + 1..];
      NamedOrder();
      forall e | e in names[..n] ensures e in rest {
        var i :| 0 <= i < n && names[i] == e;
        assert NamedLess(names[i], names[n]);
        assert e in all;
        var j :| 0 <= j < |all| && all[j] == e;
        assert rest[if j < k then j else j - 1] == e;
      }
      DistinctWithin(names[..n], rest);
    }
  }

  // ---------------------------------------------------------------- reading it back

  /** The blob, cut around each section. */
  lemma Sections(c: Canon)
    ensures Blob(c) == [] + Flat(NameStrs(c))
      + (Flat(AliasStrs(c)) + Flat(Strs(c.files)) + Flat(Strs(c.typed)) + Flat(Strs(c.sig)))
    ensures Blob(c) == Flat(NameStrs(c)) + Flat(AliasStrs(c))
      + (Flat(Strs(c.files)) + Flat(Strs(c.typed)) + Flat(Strs(c.sig)))
    ensures Blob(c) == (Flat(NameStrs(c)) + Flat(AliasStrs(c))) + Flat(Strs(c.files))
      + (Flat(Strs(c.typed)) + Flat(Strs(c.sig)))
    ensures Blob(c) == (Flat(NameStrs(c)) + Flat(AliasStrs(c)) + Flat(Strs(c.files))) + Flat(Strs(c.typed))
      + Flat(Strs(c.sig))
    ensures Blob(c) == (Flat(NameStrs(c)) + Flat(AliasStrs(c)) + Flat(Strs(c.files)) + Flat(Strs(c.typed)))
      + Flat(Strs(c.sig)) + []
  {
    hide Flat;
  }

  /** A string reference of every table reads the string it was written for. */
  ghost predicate Reads(blob: seq<byte>, r: Ref, s: Str)
  {
    r.off + r.len <= |blob| && Text(blob, r) == s
  }

  lemma EveryRefReads(c: Canon)
    ensures forall i :: 0 <= i < |c.syms| ==> Reads(Blob(c), RefOf(0, NameStrs(c), i), c.syms[i].1.name)
    ensures forall i :: 0 <= i < |c.aliases| ==> Reads(Blob(c), RefOf(AliasBase(c), AliasStrs(c), i), c.aliases[i].text)
    ensures forall i :: 0 <= i < |c.files| ==> Reads(Blob(c), RefOf(PathBase(c), Strs(c.files), i), c.files[i].1)
    ensures forall i :: 0 <= i < |c.typed| ==> Reads(Blob(c), RefOf(TypeBase(c), Strs(c.typed), i), c.typed[i].1)
    ensures forall i :: 0 <= i < |c.sig| ==> Reads(Blob(c), RefOf(SigBase(c), Strs(c.sig), i), c.sig[i].1)
  {
    hide Flat, RefOf, Blob, Text;
    Sections(c);
    var a, b, d, e := Flat(NameStrs(c)), Flat(AliasStrs(c)), Flat(Strs(c.files)), Flat(Strs(c.typed));
    var f := Flat(Strs(c.sig));
    forall i | 0 <= i < |c.syms| ensures Reads(Blob(c), RefOf(0, NameStrs(c), i), c.syms[i].1.name) {
      RefReads(Blob(c), [], NameStrs(c), b + d + e + f, i);
    }
    forall i | 0 <= i < |c.aliases| ensures Reads(Blob(c), RefOf(AliasBase(c), AliasStrs(c), i), c.aliases[i].text) {
      RefReads(Blob(c), a, AliasStrs(c), d + e + f, i);
    }
    forall i | 0 <= i < |c.files| ensures Reads(Blob(c), RefOf(PathBase(c), Strs(c.files), i), c.files[i].1) {
      RefReads(Blob(c), a + b, Strs(c.files), e + f, i);
    }
    forall i | 0 <= i < |c.typed| ensures Reads(Blob(c), RefOf(TypeBase(c), Strs(c.typed), i), c.typed[i].1) {
      RefReads(Blob(c), a + b + d, Strs(c.typed), f, i);
    }
    forall i | 0 <= i < |c.sig| ensures Reads(Blob(c), RefOf(SigBase(c), Strs(c.sig), i), c.sig[i].1) {
      RefReads(Blob(c), a + b + d + e, Strs(c.sig), [], i);
    }
  }

  method ReadKeyed(blob: seq<byte>, table: seq<(nat, Ref)>, ghost rows: seq<(nat, Str)>, ghost base: nat)
    returns (r: seq<(nat, Str)>)
    requires KeyedRefs(table, rows, base)
    requires forall i :: 0 <= i < |rows| ==> Reads(blob, RefOf(base, Strs(rows), i), rows[i].1)
    ensures r == rows
  {
    hide RefOf;
    r := [];
    for i := 0 to |table|
      invariant r == rows[..i]
    {
      assert Reads(blob, RefOf(base, Strs(rows), i), rows[i].1);
      r := r + [(table[i].0, Text(blob, table[i].1))];
    }
  }

  ghost predicate AliasesShaped(c: Canon)
  {
    forall i :: 0 <= i < |c.aliases| ==> |c.aliases[i].cols| == 1 && c.aliases[i].text != []
  }

  /** Where each sym's own name lies. */
  method Canonical(syms: seq<SymRow>) returns (canon: map<nat, Ref>)
    requires forall i, j :: 0 <= i < j < |syms| ==> syms[i].sym < syms[j].sym
    ensures forall i :: 0 <= i < |syms| ==> syms[i].sym in canon && canon[syms[i].sym] == syms[i].name
    ensures forall s :: s in canon ==> exists i :: 0 <= i < |syms| && syms[i].sym == s
  {
    canon := map[];
    for k := 0 to |syms|
      invariant forall i :: 0 <= i < k ==> syms[i].sym in canon && canon[syms[i].sym] == syms[i].name
      invariant forall s :: s in canon ==> exists i :: 0 <= i < k && syms[i].sym == s
    {
      canon := canon[syms[k].sym := syms[k].name];
    }
  }

  /** A sym's own entry is recognised by its place, and no alias lies there. */
  lemma CanonicalOrAlias(c: Canon, e: Named, canon: map<nat, Ref>)
    requires CanonOk(c) && AliasesShaped(c) && IsEntry(c, e)
    requires forall i :: 0 <= i < |c.syms| ==> c.syms[i].0 in canon && canon[c.syms[i].0] == RefOf(0, NameStrs(c), i)
    requires forall s :: s in canon ==> exists i :: 0 <= i < |c.syms| && c.syms[i].0 == s
    ensures (e.sym in canon && canon[e.sym] == Ref(e.off, |e.text|)) || Row([e.sym], e.text) in c.aliases
    ensures (exists i :: 0 <= i < |c.aliases| && e == AliasEntry(c, i)) ==>
      !(e.sym in canon && canon[e.sym] == Ref(e.off, |e.text|))
  {
    hide Flat, RowLess, Order.Ascending;
    if i :| 0 <= i < |c.aliases| && e == AliasEntry(c, i) {
      assert c.aliases[i] == Row([e.sym], e.text);
      if e.sym in canon {
        var k :| 0 <= k < |c.syms| && c.syms[k].0 == e.sym;
        FlatSplit(NameStrs(c), k);
        assert canon[e.sym].off + canon[e.sym].len <= AliasBase(c) <= e.off;
      }
    }
  }

  /** `iter_aliases`: the name rows that are not their sym's canonical name. */
  method ReadAliases(t: Image, ghost c: Canon) returns (r: seq<Row>)
    requires ImageOf(t, c) && CanonOk(c) && AliasesShaped(c)
    ensures RowSet(r) == RowSet(c.aliases)
  {
    hide RefOf, Flat, NamedLess, IsReverse, TrigramSpec.IndexOk, AliasBase, IsEntry, RowLess, Blob;
    var canon := Canonical(t.syms);
    ghost var names: seq<Named> :| NamesOk(t, c, names);
    EveryRefReads(c);
    r := [];
    for i := 0 to |t.names|
      invariant forall x :: x in r <==> exists k :: 0 <= k < i && Kept(names[k], canon) && x == Row([names[k].sym], names[k].text)
    {
      assert names[i] in names;
      EntryReads(c, names[i]);
      if !(t.names[i].sym in canon && canon[t.names[i].sym] == t.names[i].name) {
        r := r + [Row([t.names[i].sym], Text(t.blob, t.names[i].name))];
      }
    }
    KeptIsAliases(c, names, canon, r);
  }

  ghost predicate Kept(e: Named, canon: map<nat, Ref>)
  {
    !(e.sym in canon && canon[e.sym] == Ref(e.off, |e.text|))
  }

  lemma EntryReads(c: Canon, e: Named)
    requires IsEntry(c, e)
    ensures Reads(Blob(c), Ref(e.off, |e.text|), e.text)
  {
    EveryRefReads(c);
    if i :| 0 <= i < |c.syms| && e == SymEntry(c, i) {
      assert Reads(Blob(c), RefOf(0, NameStrs(c), i), c.syms[i].1.name);
    } else {
      var i :| 0 <= i < |c.aliases| && e == AliasEntry(c, i);
      assert Reads(Blob(c), RefOf(AliasBase(c), AliasStrs(c), i), c.aliases[i].text);
    }
  }

  lemma KeptIsAliases(c: Canon, names: seq<Named>, canon: map<nat, Ref>, r: seq<Row>)
    requires CanonOk(c) && AliasesShaped(c)
    requires forall e :: e in names <==> IsEntry(c, e)
    requires forall i :: 0 <= i < |c.syms| ==> c.syms[i].0 in canon && canon[c.syms[i].0] == RefOf(0, NameStrs(c), i)
    requires forall s :: s in canon ==> exists i :: 0 <= i < |c.syms| && c.syms[i].0 == s
    requires forall x :: x in r <==> exists k :: 0 <= k < |names| && Kept(names[k], canon) && x == Row([names[k].sym], names[k].text)
    ensures RowSet(r) == RowSet(c.aliases)
  {
    hide RefOf, AliasBase, CanonOk, NamedLess;
    forall x ensures x in r <==> x in c.aliases {
      if x in r {
        var k :| 0 <= k < |names| && Kept(names[k], canon) && x == Row([names[k].sym], names[k].text);
        assert names[k] in names;
        CanonicalOrAlias(c, names[k], canon);
      }
      if x in c.aliases {
        var i :| 0 <= i < |c.aliases| && c.aliases[i] == x;
        var e := AliasEntry(c, i);
        assert e.text == x.text && x == Row([e.sym], e.text);
        assert IsEntry(c, e);
        assert e in names;
        var k :| 0 <= k < |names| && names[k] == e;
        CanonicalOrAlias(c, e, canon);
        assert Kept(names[k], canon);
        assert x == Row([names[k].sym], names[k].text);
      }
    }
  }

  /** Reading a written file gives back the tables it was written from: a shard, or a
      coalesced intermediate, loses nothing as a merge source. */
  method Read(t: Image, ghost c: Canon) returns (r: Canon)
    requires ImageOf(t, c) && CanonOk(c) && AliasesShaped(c)
    ensures r == c
  {
    hide RefOf, Flat, NamedLess, IsReverse, NamesOk, RowLess, Blob, PathBase, TypeBase, SigBase;
    EveryRefReads(c);
    var syms := [];
    for i := 0 to |t.syms|
      invariant syms == c.syms[..i]
    {
      assert Reads(t.blob, RefOf(0, NameStrs(c), i), c.syms[i].1.name);
      syms := syms + [(t.syms[i].sym, Meta(t.syms[i].kind, t.syms[i].lang, Text(t.blob, t.syms[i].name)))];
    }
    var files := ReadKeyed(t.blob, t.files, c.files, PathBase(c));
    var typed := ReadKeyed(t.blob, t.typed, c.typed, TypeBase(c));
    var sig := ReadKeyed(t.blob, t.sig, c.sig, SigBase(c));
    var found := ReadAliases(t, c);
    var aliases := SortRows(found);
    RowsUnique(aliases, c.aliases);
    r := Canon(t.xrefs, syms, aliases, files, t.inherits, t.calls, typed, t.childrev, sig);
  }

  // ---------------------------------------------------------------- one file per content

  lemma ReverseUnique(rows: seq<Row>, a: seq<Row>, b: seq<Row>)
    requires IsReverse(rows, a) && IsReverse(rows, b)
    ensures a == b
  {
    hide RowLess, Reverse;
    RowOrder();
    Order.AscendingUnique(RowLess, a, b);
  }

  lemma KeyedRefsUnique(a: seq<(nat, Ref)>, b: seq<(nat, Ref)>, rows: seq<(nat, Str)>, base: nat)
    requires KeyedRefs(a, rows, base) && KeyedRefs(b, rows, base)
    ensures a == b
  {
  }

  /** The file is determined by the sorted tables: whichever writer laid it out, equal
      tables give equal files, trigram bytes included. */
  lemma ImageUnique(a: Image, b: Image, c: Canon)
    requires ImageOf(a, c) && ImageOf(b, c)
    ensures a == b
  {
    hide NamedLess, RowLess, RefOf, Flat, Blob, IsEntry, IsReverse, KeyedRefs, TrigramSpec.IndexOk, PathBase, TypeBase, SigBase;
    var m: seq<Named> :| NamesOk(a, c, m);
    var n: seq<Named> :| NamesOk(b, c, n);
    NamedOrder();
    Order.AscendingUnique(NamedLess, m, n);
    TrigramUnique.IndexDetermined(NameRows(m), a.dict, a.post, b.dict, b.post);
    ReverseUnique(c.inherits, a.inhrev, b.inhrev);
    ReverseUnique(c.calls, a.crev, b.crev);
    KeyedRefsUnique(a.files, b.files, c.files, PathBase(c));
    KeyedRefsUnique(a.typed, b.typed, c.typed, TypeBase(c));
    KeyedRefsUnique(a.sig, b.sig, c.sig, SigBase(c));
    assert a.names == b.names;
    assert a.syms == b.syms;
  }

  lemma SameKeyedStrings(table: seq<(nat, Ref)>, a: seq<(nat, Str)>, x: nat, b: seq<(nat, Str)>, y: nat, blob: seq<byte>)
    requires KeyedRefs(table, a, x) && KeyedRefs(table, b, y)
    requires forall i :: 0 <= i < |a| ==> Reads(blob, RefOf(x, Strs(a), i), a[i].1)
    requires forall i :: 0 <= i < |b| ==> Reads(blob, RefOf(y, Strs(b), i), b[i].1)
    ensures a == b
  {
    hide RefOf;
    forall i | 0 <= i < |a| ensures a[i] == b[i] {
      assert table[i] == (a[i].0, RefOf(x, Strs(a), i)) && table[i] == (b[i].0, RefOf(y, Strs(b), i));
    }
  }

  lemma SameSyms(t: Image, c: Canon, d: Canon)
    requires ImageOf(t, c) && ImageOf(t, d)
    ensures c.syms == d.syms
  {
    hide RefOf, Flat, NamesOk, IsReverse, KeyedRefs, Blob;
    EveryRefReads(c);
    EveryRefReads(d);
    forall i | 0 <= i < |c.syms| ensures c.syms[i] == d.syms[i] {
      assert Reads(t.blob, RefOf(0, NameStrs(c), i), c.syms[i].1.name) && Reads(t.blob, RefOf(0, NameStrs(d), i), d.syms[i].1.name);
      assert t.syms[i] == SymRow(c.syms[i].0, c.syms[i].1.kind, c.syms[i].1.lang, RefOf(0, NameStrs(c), i));
      assert t.syms[i] == SymRow(d.syms[i].0, d.syms[i].1.kind, d.syms[i].1.lang, RefOf(0, NameStrs(d), i));
    }
  }

  /** The same place in the blob holds the same entry, whoever's tables it is read for. */
  lemma SameEntry(t: Image, c: Canon, m: seq<Named>, d: Canon, n: seq<Named>, k: nat)
    requires ImageOf(t, c) && ImageOf(t, d) && NamesOk(t, c, m) && NamesOk(t, d, n) && k < |m|
    ensures |n| == |m| && m[k] == n[k]
  {
    hide RefOf, Flat, IsReverse, KeyedRefs, Blob, NamedLess, IsEntry, TrigramSpec.IndexOk;
    assert m[k] in m && n[k] in n;
    EntryReads(c, m[k]);
    EntryReads(d, n[k]);
    assert t.names[k] == NameEntry(Ref(m[k].off, |m[k].text|), m[k].sym);
    assert t.names[k] == NameEntry(Ref(n[k].off, |n[k].text|), n[k].sym);
  }

  ghost function SymRefs(c: Canon): (canon: map<nat, Ref>)
    requires KeysAscend(c.syms)
    ensures forall i :: 0 <= i < |c.syms| ==> c.syms[i].0 in canon && canon[c.syms[i].0] == RefOf(0, NameStrs(c), i)
    ensures forall s :: s in canon ==> exists i :: 0 <= i < |c.syms| && c.syms[i].0 == s
  {
    SymPlaces(c, |c.syms|)
  }

  ghost function SymPlaces(c: Canon, n: nat): (canon: map<nat, Ref>)
    requires KeysAscend(c.syms) && n <= |c.syms|
    ensures forall i :: 0 <= i < n ==> c.syms[i].0 in canon && canon[c.syms[i].0] == RefOf(0, NameStrs(c), i)
    ensures forall s :: s in canon ==> exists i :: 0 <= i < n && c.syms[i].0 == s
  {
    if n == 0 then map[] else SymPlaces(c, n - 1)[c.syms[n - 1].0 := RefOf(0, NameStrs(c), n - 1)]
  }

  /** An alias has a row of the names index, and it is not its sym's own place. */
  lemma AliasPlace(c: Canon, m: seq<Named>, x: Row, canon: map<nat, Ref>) returns (k: nat)
    requires CanonOk(c) && AliasesShaped(c) && NamesOf(m, c) && x in c.aliases && canon == SymRefs(c)
    ensures k < |m| && x == Row([m[k].sym], m[k].text) && Kept(m[k], canon)
  {
    hide RefOf, Flat, NamedLess, AliasBase, CanonOk;
    var i :| 0 <= i < |c.aliases| && c.aliases[i] == x;
    var e := AliasEntry(c, i);
    assert IsEntry(c, e) && e in m;
    k :| 0 <= k < |m| && m[k] == e;
    CanonicalOrAlias(c, e, canon);
    assert e.text == x.text && x.cols == [e.sym];
  }

  lemma KeptIsAlias(d: Canon, e: Named, canon: map<nat, Ref>)
    requires CanonOk(d) && AliasesShaped(d) && IsEntry(d, e) && canon == SymRefs(d) && Kept(e, canon)
    ensures Row([e.sym], e.text) in d.aliases
  {
    hide RefOf, Flat, AliasBase, CanonOk, IsEntry;
    CanonicalOrAlias(d, e, canon);
  }

  lemma AliasesWithin(t: Image, c: Canon, d: Canon, x: Row)
    requires ImageOf(t, c) && ImageOf(t, d) && CanonOk(c) && CanonOk(d) && AliasesShaped(c) && AliasesShaped(d)
    requires c.syms == d.syms && x in c.aliases
    ensures x in d.aliases
  {
    var m: seq<Named> :| NamesOk(t, c, m);
    var n: seq<Named> :| NamesOk(t, d, n);
    SameRefs(c, d);
    hide ImageOf, CanonOk, AliasesShaped, IsEntry, NamedLess, TrigramSpec.IndexOk, SymRefs, Kept;
    var k := AliasPlace(c, m, x, SymRefs(c));
    SameEntry(t, c, m, d, n, k);
    assert n[k] in n;
    KeptIsAlias(d, n[k], SymRefs(d));
  }

  lemma SameRefs(c: Canon, d: Canon)
    requires KeysAscend(c.syms) && c.syms == d.syms
    ensures SymRefs(c) == SymRefs(d)
  {
    assert NameStrs(c) == NameStrs(d);
    SamePlaces(c, d, |c.syms|);
  }

  lemma {:induction false} SamePlaces(c: Canon, d: Canon, n: nat)
    requires KeysAscend(c.syms) && c.syms == d.syms && NameStrs(c) == NameStrs(d) && n <= |c.syms|
    ensures SymPlaces(c, n) == SymPlaces(d, n)
  {
    if n > 0 { SamePlaces(c, d, n - 1); }
  }

  /** The file determines the tables too: two tables laid out as one file are one. */
  lemma ImageInjective(t: Image, c: Canon, d: Canon)
    requires ImageOf(t, c) && ImageOf(t, d) && CanonOk(c) && CanonOk(d) && AliasesShaped(c) && AliasesShaped(d)
    ensures c == d
  {
    SameSyms(t, c, d);
    hide RefOf, Flat, IsReverse, NamesOk, Blob, RowLess, PathBase, TypeBase, SigBase;
    EveryRefReads(c);
    EveryRefReads(d);
    SameKeyedStrings(t.files, c.files, PathBase(c), d.files, PathBase(d), t.blob);
    SameKeyedStrings(t.typed, c.typed, TypeBase(c), d.typed, TypeBase(d), t.blob);
    SameKeyedStrings(t.sig, c.sig, SigBase(c), d.sig, SigBase(d), t.blob);
    forall x ensures x in c.aliases <==> x in d.aliases {
      if x in c.aliases { AliasesWithin(t, c, d, x); }
      if x in d.aliases { AliasesWithin(t, d, c, x); }
    }
    assert RowSet(c.aliases) == RowSet(d.aliases);
    RowsUnique(c.aliases, d.aliases);
  }
}
