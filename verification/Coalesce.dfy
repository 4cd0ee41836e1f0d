/** Whole builds, from CU builders to the bytes of the final file: merging finished files
    through any tree of groups, the coalescing levels of a cache-assisted build, and when the
    result is the file a clean build would have written. */
module Coalesce {
  import opened Bytes
  import opened Facts
  import opened Keyed
  import opened Builder
  import opened Store
  import opened Image
  import Stream
  import Shards
  import Order
  import TrigramSpec

  // ---------------------------------------------------------------- files and what they say

  /** `c` is what the file `t` holds, and it says `f`. */
  ghost predicate Holds(t: Image, c: Canon, f: Facts)
  {
    ImageOf(t, c) && Stream.SourceOk(c) && CanonFacts(c) == f
  }

  /** `t` is a proper index file that says exactly `f`. */
  ghost predicate Says(t: Image, f: Facts)
  {
    exists c :: Holds(t, c, f)
  }

  ghost function TablesOf(t: Image, f: Facts): (c: Canon)
    requires Says(t, f)
    ensures Holds(t, c, f)
  {
    var c :| Holds(t, c, f);
    c
  }

  /** Two files are the same, byte for byte, if and only if they say the same: names index,
      string blob and trigram bytes included. */
  lemma FilesAgree(a: Image, f: Facts, b: Image, g: Facts)
    requires Says(a, f) && Says(b, g)
    ensures a == b <==> f == g
  {
    hide ImageOf, CanonFacts, Stream.Plain, CanonOk;
    var c, d := TablesOf(a, f), TablesOf(b, g);
    if f == g {
      CanonUnique(c, d);
      ImageUnique(a, b, c);
    }
    if a == b {
      Stream.SourceShape(c);
      Stream.SourceShape(d);
      ImageInjective(a, c, d);
    }
  }

  // ---------------------------------------------------------------- what fits

  /** `f` has no syms and no aliases but those of `whole`. */
  ghost predicate Within(f: Facts, whole: Facts)
  {
    f.syms.Keys <= whole.syms.Keys && f.aliases <= whole.aliases
  }

  /** Every file over names of this build fits the 32-bit columns of its trigram index. */
  ghost predicate BuildFits(whole: Facts)
  {
    forall f | Within(f, whole) :: Stream.FactsFit(f)
  }

  lemma JoinWithin(a: Facts, b: Facts, whole: Facts)
    requires Within(a, whole) && Within(b, whole)
    ensures Within(Join(a, b), whole)
  {
  }

  lemma PartsWithin(a: Facts, b: Facts)
    ensures Within(a, Join(a, b)) && Within(b, Join(a, b))
  {
  }

  lemma WithinTrans(a: Facts, b: Facts, c: Facts)
    requires Within(a, b) && Within(b, c)
    ensures Within(a, c)
  {
  }

  lemma {:induction false} KeysCount<V>(s: seq<(nat, V)>)
    requires KeysAscend(s)
    ensures |ToMap(s).Keys| == |s|
  {
    if s != [] {
      var n := |s| - 1;
      KeysCount(s[..n]);
      ToMapBound(s[..n], s[n].0);
      assert ToMap(s).Keys == ToMap(s[..n]).Keys + {s[n].0};
    }
  }

  lemma {:induction false} RowsCount(s: seq<Row>)
    requires Order.StrictOrder(RowLess) && Order.Ascending(RowLess, s)
    ensures |RowSet(s)| == |s|
  {
    hide RowLess;
    if s != [] {
      var n := |s| - 1;
      RowsCount(s[..n]);
      assert s[n] !in s[..n];
      assert RowSet(s) == RowSet(s[..n]) + {s[n]};
    }
  }

  lemma SubsetCount<T>(a: set<T>, b: set<T>)
    requires a <= b
    ensures |a| <= |b|
  {
    assert b == a + (b - a);
    assert |a + (b - a)| == |a| + |b - a|;
  }

  /** A build of at most 2^29 syms and aliases always fits. */
  lemma SmallBuildFits(whole: Facts)
    requires |whole.syms.Keys| + |whole.aliases| <= TrigramSpec.MAX_ROWS
    ensures BuildFits(whole)
  {
    hide NamesFit, RowLess;
    RowOrder();
    forall f, c | Within(f, whole) && CanonOk(c) && CanonFacts(c) == f ensures NamesFit(c) {
      KeysCount(c.syms);
      RowsCount(c.aliases);
      SubsetCount(f.syms.Keys, whole.syms.Keys);
      SubsetCount(f.aliases, whole.aliases);
      FewNamesFit(c);
    }
  }

  /** A tree's file has only names of its sources. */
  lemma CoalescedWithin(t: Tree, whole: Facts)
    requires Within(JoinAll(Leaves(t)), whole)
    ensures Within(Coalesced(t), whole)
  {
    hide JoinAll, Survives, Coalesced;
    CoalescedSays(t, Row([], []));
    assert Coalesced(t).syms == Coalesced(t).(aliases := {}).syms == JoinAll(Leaves(t)).syms;
    forall r | r in Coalesced(t).aliases ensures r in JoinAll(Leaves(t)).aliases {
      CoalescedSays(t, r);
      SurvivorHeld(t, r);
    }
  }

  lemma {:induction false} ChildWithin(ts: seq<Tree>, i: nat)
    requires i < |ts|
    ensures Within(JoinAll(Leaves(ts[i])), JoinAll(AllLeaves(ts)))
  {
    hide Within, JoinAll, Join;
    var n := |ts| - 1;
    var a, b := AllLeaves(ts[..n]), Leaves(ts[n]);
    JoinAllConcat(a, b);
    PartsWithin(JoinAll(a), JoinAll(b));
    if i < n {
      ChildWithin(ts[..n], i);
      WithinTrans(JoinAll(Leaves(ts[i])), JoinAll(a), JoinAll(AllLeaves(ts)));
    }
  }

  lemma {:induction false} GroupWithin(ts: seq<Tree>, whole: Facts)
    requires forall i | 0 <= i < |ts| :: Within(JoinAll(Leaves(ts[i])), whole)
    ensures Within(JoinAll(AllLeaves(ts)), whole)
  {
    hide Join, JoinAll;
    if ts == [] {
      NoFacts();
    } else {
      var n := |ts| - 1;
      GroupWithin(ts[..n], whole);
      JoinAllConcat(AllLeaves(ts[..n]), Leaves(ts[n]));
      hide Within;
      JoinWithin(JoinAll(AllLeaves(ts[..n])), JoinAll(Leaves(ts[n])), whole);
    }
  }

  // ---------------------------------------------------------------- one merge, one finish

  ghost predicate EachSays(files: seq<Image>, fs: seq<Facts>)
  {
    |files| == |fs| && forall i | 0 <= i < |fs| :: Says(files[i], fs[i])
  }

  /** `write_merged_snapshot` over files. */
  method MergeFiles(files: seq<Image>, ghost fs: seq<Facts>, delta: Rows) returns (t: Image)
    requires EachSays(files, fs) && Shaped(delta) && Stream.FactsFit(Suppress(JoinAll(fs + [FactsOf(delta)])))
    ensures Says(t, Suppress(JoinAll(fs + [FactsOf(delta)])))
  {
    hide ImageOf, CanonFacts, Stream.SourceOk, JoinAll, Suppress, FactsOf, Shaped, Stream.FactsFit;
    ghost var cs := seq(|fs|, i requires 0 <= i < |fs| && EachSays(files, fs) => TablesOf(files[i], fs[i]));
    assert forall i | 0 <= i < |fs| :: Holds(files[i], cs[i], fs[i]);
    assert EachFacts(cs) == fs;
    ghost var c;
    t, c := Stream.WriteMerged(files, cs, delta);
    assert Holds(t, c, Suppress(JoinAll(fs + [FactsOf(delta)])));
  }

  /** `finish`: sort, filter, lay out. */
  method FinishFile(r: Rows) returns (t: Image)
    requires Shaped(r) && Stream.FactsFit(Suppress(FactsOf(r)))
    ensures Says(t, Suppress(FactsOf(r)))
  {
    hide ImageOf, CanonFacts, FactsOf, Suppress, Shaped, CanonOk, Stream.Plain;
    Stream.ShapedPlain(r);
    Stream.SuppressPlain(FactsOf(r));
    var c := Finish(r);
    t := Write(c);
    assert Holds(t, c, Suppress(FactsOf(r)));
  }

  const NoBuilder := Rows([], map[], map[], [], [], [], [], [], [])

  lemma EmptyBuilder()
    ensures Shaped(NoBuilder) && FactsOf(NoBuilder) == EMPTY
  {
  }

  /** `merge_group_global`: files merged over an empty delta. */
  method MergeGroup(files: seq<Image>, ghost fs: seq<Facts>) returns (t: Image)
    requires EachSays(files, fs) && Stream.FactsFit(Suppress(JoinAll(fs)))
    ensures Says(t, Suppress(JoinAll(fs)))
  {
    hide JoinAll, Suppress, FactsOf, Shaped, Says, Join, Stream.FactsFit;
    EmptyBuilder();
    JoinAllSnoc(fs, EMPTY);
    JoinEmpty(JoinAll(fs));
    t := MergeFiles(files, fs, NoBuilder);
  }

  // ---------------------------------------------------------------- any tree

  /** Files grouped in any way; every group may bring an in-memory delta of its own. */
  datatype FileTree = File(image: Image) | Group(children: seq<FileTree>, delta: Rows)

  /** The file tree stands for a tree of sources. */
  ghost predicate Stands(t: FileTree, s: Tree)
    decreases t
  {
    match t
    case File(image) => s.Leaf? && Says(image, Suppress(s.facts))
    case Group(children, delta) =>
      && s.Node? && |s.children| == |children| + 1 && Shaped(delta) && s.children[|children|] == Delta(FactsOf(delta))
      && forall i | 0 <= i < |children| :: Stands(children[i], s.children[i])
  }

  lemma {:induction false} CoalescedAt(ts: seq<Tree>, i: nat)
    requires i < |ts|
    ensures EachCoalesced(ts)[i] == Coalesced(ts[i])
  {
    var n := |ts| - 1;
    if i < n { CoalescedAt(ts[..n], i); }
  }

  /** Merge a whole tree, level upon level: read the files of each group, merge, write. */
  method MergeTree(t: FileTree, ghost s: Tree, ghost whole: Facts) returns (image: Image)
    requires Stands(t, s) && BuildFits(whole) && Within(JoinAll(Leaves(s)), whole)
    ensures Says(image, Coalesced(s))
    decreases t
  {
    hide Says, Suppress, JoinAll, FactsOf, Shaped, Within, BuildFits, Stream.FactsFit;
    match t
    case File(i) => image := i;
    case Group(children, delta) =>
      var n := |children|;
      ghost var fs := EachCoalesced(s.children);
      var files: seq<Image> := [];
      for k := 0 to n
        invariant |files| == k && forall i | 0 <= i < k :: Says(files[i], Coalesced(s.children[i]))
      {
        ChildWithin(s.children, k);
        WithinTrans(JoinAll(Leaves(s.children[k])), JoinAll(Leaves(s)), whole);
        var one := MergeTree(children[k], s.children[k], whole);
        files := files + [one];
      }
      forall i | 0 <= i < |fs| ensures fs[i] == Coalesced(s.children[i]) { CoalescedAt(s.children, i); }
      assert fs == fs[..n] + [FactsOf(delta)];
      CoalescedWithin(s, whole);
      FitsOne(Coalesced(s), whole);
      image := MergeFiles(files, fs[..n], delta);
  }

  lemma FitsOne(f: Facts, whole: Facts)
    requires BuildFits(whole) && Within(f, whole)
    ensures Stream.FactsFit(f)
  {
  }

  /** The file of a tree is the file one `finish` over all its builders, drained in order,
      writes: if and only if every alias owed survives on some way to the root. */
  lemma TreeFileIff(image: Image, s: Tree, builders: seq<Rows>, whole: Image)
    requires s.Node? && Leaves(s) == EachBuilder(builders)
    requires Says(image, Coalesced(s)) && Says(whole, Suppress(FactsOf(MergedAll(builders))))
    ensures image == whole <==> AllSurvive(s)
  {
    hide Says, Suppress, JoinAll, FactsOf, Coalesced, AllSurvive;
    MergedAllIsJoinAll(builders);
    TreeIsFinishIff(s);
    FilesAgree(image, Coalesced(s), whole, Suppress(FactsOf(MergedAll(builders))));
  }

  /** A clean build: drain every builder into one and finish it. */
  method CleanBuild(cus: seq<Rows>) returns (t: Image)
    requires (forall i | 0 <= i < |cus| :: Shaped(cus[i])) && BuildFits(JoinAll(EachBuilder(cus)))
    ensures Says(t, Suppress(FactsOf(MergedAll(cus))))
  {
    hide Says, Suppress, JoinAll, FactsOf, Shaped, Merged, Stream.FactsFit, Join, BuildFits;
    var b := new IndexBuilder();
    for i := 0 to |cus|
      invariant b.Contents() == MergedAll(cus[..i]) && Shaped(b.Contents())
    {
      assert cus[..i + 1][..i] == cus[..i];
      MergedIsJoin(b.Contents(), cus[i]);
      b.MergeFrom(cus[i]);
    }
    assert cus[..|cus|] == cus;
    MergedAllIsJoinAll(cus);
    SelfWithin(FactsOf(MergedAll(cus)));
    FitsOne(Suppress(FactsOf(MergedAll(cus))), JoinAll(EachBuilder(cus)));
    t := FinishFile(b.Contents());
  }

  lemma SelfWithin(f: Facts)
    ensures Within(f, f) && Within(Suppress(f), f)
  {
  }

  /** Both ways at once: any tree of merges, with any deltas, against one `finish`. */
  method MergeOrFinish(t: FileTree, ghost s: Tree, builders: seq<Rows>) returns (image: Image, whole: Image)
    requires t.Group? && Stands(t, s) && Leaves(s) == EachBuilder(builders)
    requires (forall i | 0 <= i < |builders| :: Shaped(builders[i])) && BuildFits(JoinAll(EachBuilder(builders)))
    ensures image == whole <==> AllSurvive(s)
    ensures KindsAgree(EachBuilder(builders)) ==> image == whole
  {
    assert s.Node?;
    hide Says, Suppress, JoinAll, FactsOf, Shaped, BuildFits, Coalesced, AllSurvive, Stands, KindsAgree;
    SelfWithin(JoinAll(Leaves(s)));
    image := MergeTree(t, s, JoinAll(Leaves(s)));
    whole := CleanBuild(builders);
    TreeFileIff(image, s, builders, whole);
    if KindsAgree(Leaves(s)) { CoalescingTree(s); }
  }
}
