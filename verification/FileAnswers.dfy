/** From builders to bytes to answers: what the point queries say of the file a builder, or a
    whole tree of merges, ends up in. */
module FileAnswers {
  import opened Bytes
  import opened Facts
  import opened Keyed
  import opened Builder
  import opened Store
  import opened Image
  import opened IndexFile
  import opened FileLookup
  import Coalesce
  import Joined
  import Layout
  import Names
  import Stream

  /** Write a file that says `f`, and open it. */
  method WriteAndOpen(image: Image, ghost f: Facts) returns (file: seq<byte>, ps: seq<Layout.Place>, ghost c: Canon)
    requires Coalesce.Says(image, f) && Encodable(image)
    ensures FileHolds(file, ps, image) && ImageOf(image, c) && CanonOk(c) && CanonFacts(c) == f
  {
    hide FileHolds, Encodable, ImageOf, CanonOk, CanonFacts, Stream.Plain;
    c := Coalesce.TablesOf(image, f);
    ghost var places;
    file, places := Encode(image);
    ps := Open(file, places, image);
  }

  // ---------------------------------------------------------------- one builder

  method FinishAndOpen(r: Rows) returns (file: seq<byte>, ps: seq<Layout.Place>, ghost t: Image, ghost c: Canon)
    requires Buildable(r)
    ensures FileHolds(file, ps, t) && ImageOf(t, c) && CanonOk(c) && CanonFacts(c) == Suppress(FactsOf(r))
  {
    hide FileHolds, ImageOf, CanonOk, CanonFacts, Suppress, FactsOf, Buildable;
    ghost var places;
    file, places, t, c := BuildFile(r);
    ps := Open(file, places, t);
  }

  /** Finish a builder, write, open, `sym_meta`: exactly the kind, language and name the
      builder has for the sym, nothing if and only if it has none. */
  method MetaOfBuild(r: Rows, sym: nat) returns (file: seq<byte>, answer: Option<Meta>)
    requires Buildable(r) && sym < U64
    ensures answer == if sym in r.syms then Some(r.syms[sym]) else None
  {
    hide FileHolds, ImageOf, CanonOk, CanonFacts, Suppress, FactsOf, Buildable;
    var ps;
    ghost var t, c;
    file, ps, t, c := FinishAndOpen(r);
    answer := SymMeta(file, ps, sym, t, c);
    BuilderSyms(r);
  }

  lemma BuilderSyms(r: Rows)
    ensures Suppress(FactsOf(r)).syms == r.syms && Suppress(FactsOf(r)).files == r.files
    ensures Suppress(FactsOf(r)).typed == Best(r.typed) && Suppress(FactsOf(r)).sig == Best(r.sig)
  {
  }

  /** `file_path` of the finished file: the builder's path, or nothing iff it has none. */
  method PathOfBuild(r: Rows, id: nat) returns (file: seq<byte>, answer: Option<Str>)
    requires Buildable(r) && id < U32
    ensures answer == if id in r.files then Some(r.files[id]) else None
  {
    hide FileHolds, ImageOf, CanonOk, CanonFacts, Suppress, FactsOf, Buildable;
    var ps;
    ghost var t, c;
    file, ps, t, c := FinishAndOpen(r);
    answer := FilePath(file, ps, id, t, c);
    BuilderSyms(r);
  }

  /** The least of the strings the rows give a sym, if they give any. */
  ghost predicate LeastText(rows: seq<Row>, sym: nat, answer: Option<Str>)
  {
    && (answer.None? <==> forall x | x in rows :: x.cols != [sym])
    && (answer.Some? ==> Row([sym], answer.value) in rows && forall t: Str | Row([sym], t) in rows :: !LexLess(t, answer.value))
  }

  lemma BestIsLeast(rows: seq<Row>, sym: nat)
    requires Strings(rows)
    ensures LeastText(rows, sym, StringSaid(Best(rows), sym))
  {
    BestIsBest(rows);
    hide Best;
    if sym in Best(rows) {
      assert HasRow(rows, sym, Best(rows)[sym]);
      var i :| 0 <= i < |rows| && SymOf(rows[i]) == sym && rows[i].text == Best(rows)[sym];
      assert rows[i] == Row([sym], Best(rows)[sym]);
      forall t: Str | Row([sym], t) in rows ensures !LexLess(t, Best(rows)[sym]) {
        var j :| 0 <= j < |rows| && rows[j] == Row([sym], t);
      }
    } else {
      forall x | x in rows ensures x.cols != [sym] {
        var j :| 0 <= j < |rows| && rows[j] == x;
      }
    }
  }

  /** `type_of` of the finished file: the least of the types the builder was given. */
  method TypeOfBuild(r: Rows, sym: nat) returns (file: seq<byte>, answer: Option<Str>)
    requires Buildable(r) && sym < U64
    ensures LeastText(r.typed, sym, answer)
  {
    BuildableStrings(r);
    hide FileHolds, ImageOf, CanonOk, CanonFacts, Suppress, FactsOf, Buildable, LeastText;
    var ps;
    ghost var t, c;
    file, ps, t, c := FinishAndOpen(r);
    answer := TypeOf(file, ps, sym, t, c);
    BuilderSyms(r);
    BestIsLeast(r.typed, sym);
  }

  /** `sig_of` likewise. */
  method SigOfBuild(r: Rows, sym: nat) returns (file: seq<byte>, answer: Option<Str>)
    requires Buildable(r) && sym < U64
    ensures LeastText(r.sig, sym, answer)
  {
    BuildableStrings(r);
    hide FileHolds, ImageOf, CanonOk, CanonFacts, Suppress, FactsOf, Buildable, LeastText;
    var ps;
    ghost var t, c;
    file, ps, t, c := FinishAndOpen(r);
    answer := SigOf(file, ps, sym, t, c);
    BuilderSyms(r);
    BestIsLeast(r.sig, sym);
  }

  lemma BuildableStrings(r: Rows)
    requires Buildable(r)
    ensures Strings(r.typed) && Strings(r.sig)
  {
  }

  // ---------------------------------------------------------------- a tree of merges

  /** What `sym_meta` answers when the sources come together: the first known kind, the first
      known language and the name kept out of all those offered. */
  ghost predicate MetaFrom(fs: seq<Facts>, sym: nat, answer: Option<Meta>)
  {
    && (answer.Some? <==> exists i :: 0 <= i < |fs| && sym in fs[i].syms)
    && (answer.Some? ==>
          && Joined.Settled(fs, sym, Joined.KindPart, answer.value.kind)
          && Joined.Settled(fs, sym, Joined.LangPart, answer.value.lang)
          && answer.value.name == Names.Chosen(NamesSaid(fs, sym)))
  }

  /** Merge files through any tree, write the root, open it, `sym_meta`. */
  method MetaOfMerge(t: Coalesce.FileTree, ghost s: Tree, ghost whole: Facts, sym: nat) returns (file: seq<byte>, answer: Option<Meta>)
    requires Coalesce.Stands(t, s) && Coalesce.BuildFits(whole) && Coalesce.Within(JoinAll(Leaves(s)), whole)
    requires FilesFit(Coalesced(s)) && sym < U64
    ensures MetaFrom(Leaves(s), sym, answer)
  {
    hide FileHolds, ImageOf, CanonOk, CanonFacts, Coalesce.Says, Coalesced, Encodable, FilesFit, Joined.Settled, Coalesce.Stands, Coalesce.BuildFits,
      Coalesce.Within;
    var image := Coalesce.MergeTree(t, s, whole);
    ImageFits(image, Coalesced(s));
    var ps;
    ghost var c;
    file, ps, c := WriteAndOpen(image, Coalesced(s));
    answer := SymMeta(file, ps, sym, image, c);
    Joined.TreeMeta(s, sym);
    TreeName(s, sym);
  }
}
