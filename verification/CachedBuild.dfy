/** The cache-assisted build: one shard per CU with file ids of its own, coalesced in groups
    under global ids, then in groups of groups until few enough files are left for the final
    merge. */
module CachedBuild {
  import opened Bytes
  import opened Facts
  import opened Keyed
  import opened Builder
  import opened Store
  import opened Image
  import opened Coalesce
  import Stream
  import Shards

  // ---------------------------------------------------------------- shards

  ghost predicate Wide(rows: set<Row>, n: nat)
  {
    forall r | r in rows :: |r.cols| == n && r.text == []
  }

  ghost predicate RowWidths(f: Facts)
  {
    Wide(f.xrefs, 4) && Wide(f.inherits, 2) && Wide(f.calls, 3) && Wide(f.childof, 2)
  }

  lemma WideColumns(rows: seq<Row>, n: nat)
    requires Wide(RowSet(rows), n)
    ensures Columns(rows, n)
  {
    forall i | 0 <= i < |rows| ensures |rows[i].cols| == n && rows[i].text == [] { assert rows[i] in RowSet(rows); }
  }

  lemma ShapedWidths(r: Rows)
    requires Shaped(r)
    ensures RowWidths(FactsOf(r))
  {
    hide Best;
  }

  /** What a file says decides whether it may be a shard. */
  lemma SaysShard(c: Canon)
    requires Stream.SourceOk(c) && RowWidths(CanonFacts(c)) && Shards.FilesKnown(CanonFacts(c))
    ensures Shards.ShardOk(c)
  {
    Stream.SourceShape(c);
    hide RowLess, ToMap;
    WideColumns(c.xrefs, 4);
    WideColumns(c.inherits, 2);
    WideColumns(c.calls, 3);
    WideColumns(c.childof, 2);
  }

  /** A CU whose file ids are the build's global ones. */
  ghost predicate CuOk(r: Rows, globalOf: map<Str, nat>)
  {
    Shaped(r) && Shards.FilesKnown(FactsOf(r)) && Shards.Agrees(FactsOf(r), globalOf)
  }

  /** `t` is the cache shard of a CU that says `f`. */
  ghost predicate IsShard(t: Image, f: Facts)
  {
    && Shards.FilesKnown(f) && RowWidths(f)
    && exists paths :: Shards.PathsOf(f.files, paths) && Says(t, Suppress(Shards.Localized(f, paths)))
  }

  /** Write one CU's shard: localize its file ids, finish it. */
  method WriteShard(cu: Rows, globalOf: map<Str, nat>, ghost whole: Facts) returns (t: Image)
    requires CuOk(cu, globalOf) && BuildFits(whole) && Within(FactsOf(cu), whole)
    ensures IsShard(t, FactsOf(cu))
  {
    ShapedWidths(cu);
    var b := new IndexBuilder();
    EmptyBuilder();
    MergedIsJoin(b.Contents(), cu);
    JoinEmpty(FactsOf(cu));
    b.MergeFrom(cu);
    hide Says, Suppress, FactsOf, Shaped, Shards.PathsOf, Join, Stream.FactsFit, BuildFits;
    ghost var f := FactsOf(cu);
    assert FactsOf(b.Contents()) == f;
    FilesSaid(b);
    var paths := Shards.LocalizeFileIds(b);
    LocalizedWithin(f, paths, whole);
    FitsOne(Suppress(Shards.Localized(f, paths)), whole);
    t := FinishFile(b.Contents());
  }

  lemma FilesSaid(b: IndexBuilder)
    ensures FactsOf(b.Contents()).files == b.files
  {
  }

  /** Localizing moves file ids only. */
  lemma LocalizedWithin(f: Facts, paths: seq<Str>, whole: Facts)
    requires Shards.FilesKnown(f) && Shards.PathsOf(f.files, paths) && Within(f, whole)
    ensures Within(Suppress(Shards.Localized(f, paths)), whole)
  {
  }

  // ---------------------------------------------------------------- the first level

  ghost predicate EachShard(shards: seq<Image>, fs: seq<Facts>)
  {
    |shards| == |fs| && forall i | 0 <= i < |fs| :: IsShard(shards[i], fs[i])
  }

  ghost predicate EachAgrees(fs: seq<Facts>, globalOf: map<Str, nat>)
  {
    Injective(globalOf) && forall i | 0 <= i < |fs| :: Shards.Agrees(fs[i], globalOf)
  }

  /** Replay one shard file into the group's builder: it contributes what the CU, finished
      with its own ids, would have said. */
  method Replay(b: IndexBuilder, shard: Image, globalOf: map<Str, nat>, ghost f: Facts)
    requires IsShard(shard, f) && Injective(globalOf) && Shards.Agrees(f, globalOf) && Shaped(b.Contents())
    modifies b
    ensures Shaped(b.Contents()) && FactsOf(b.Contents()) == Join(old(FactsOf(b.Contents())), Suppress(f))
  {
    ghost var paths :| Shards.PathsOf(f.files, paths) && Says(shard, Suppress(Shards.Localized(f, paths)));
    ghost var c := TablesOf(shard, Suppress(Shards.Localized(f, paths)));
    ShardRestores(c, f, paths, globalOf);
    Stream.SourceShape(c);
    Stream.SourceCanon(c);
    hide ImageOf, CanonOk, CanonFacts, Suppress, FactsOf, Shaped, Shards.ShardOk, Join, AliasesShaped, Stream.Plain;
    var read := Read(shard, c);
    Shards.PopulateRemapped(b, read, globalOf);
  }

  lemma ShardRestores(c: Canon, f: Facts, paths: seq<Str>, globalOf: map<Str, nat>)
    requires Shards.FilesKnown(f) && RowWidths(f) && Shards.PathsOf(f.files, paths) && Injective(globalOf) && Shards.Agrees(f, globalOf)
    requires Stream.SourceOk(c) && CanonFacts(c) == Suppress(Shards.Localized(f, paths))
    ensures Shards.ShardOk(c) && Shards.ShardFacts(c, globalOf) == Suppress(f)
  {
    Shards.LocalizedKnown(f, paths);
    LocalizedWidths(f, paths);
    hide Stream.SourceOk, CanonFacts, Shards.PathsOf, Shards.Agrees, Injective, Shards.Localized, Shards.FilesKnown, Suppress, Shards.ShardOk,
      Shards.Remapped;
    Shards.SuppressKeepsFiles(Shards.Localized(f, paths), globalOf);
    SaysShard(c);
    Shards.CachedGroupIsClean([f], [c], [paths], globalOf);
    assert Shards.EachRemapped([c], globalOf)[0] == SuppressEach([f])[0];
  }

  lemma LocalizedWidths(f: Facts, paths: seq<Str>)
    requires Shards.FilesKnown(f) && RowWidths(f) && Shards.PathsOf(f.files, paths)
    ensures RowWidths(Suppress(Shards.Localized(f, paths)))
  {
  }

  /** `coalesce_shards_remapped`: drain a group of shards into one builder under global ids and
      write it over no sources. */
  method CoalesceShards(shards: seq<Image>, globalOf: map<Str, nat>, ghost fs: seq<Facts>) returns (t: Image)
    requires EachShard(shards, fs) && EachAgrees(fs, globalOf) && Stream.FactsFit(Suppress(JoinAll(SuppressEach(fs))))
    ensures Says(t, Suppress(JoinAll(SuppressEach(fs))))
  {
    hide IsShard, Injective, Shards.Agrees, FactsOf, Shaped, Join, JoinAll, Suppress, Says, Stream.FactsFit;
    var b := new IndexBuilder();
    NoFacts();
    assert SuppressEach(fs[..0]) == [];
    for i := 0 to |shards|
      invariant Shaped(b.Contents()) && FactsOf(b.Contents()) == JoinAll(SuppressEach(fs[..i]))
    {
      assert SuppressEach(fs[..i + 1]) == SuppressEach(fs[..i]) + [Suppress(fs[i])];
      JoinAllSnoc(SuppressEach(fs[..i]), Suppress(fs[i]));
      Replay(b, shards[i], globalOf, fs[i]);
    }
    assert fs[..|shards|] == fs;
    assert [] + [FactsOf(b.Contents())] == [FactsOf(b.Contents())];
    JoinAllOne(FactsOf(b.Contents()));
    t := MergeFiles([], [], b.Contents());
  }

  // ---------------------------------------------------------------- level upon level

  /** `chunks(group)`: consecutive groups, the last one perhaps shorter. */
  ghost function Groups(ts: seq<Tree>, group: nat): (r: seq<Tree>)
    requires group >= 1
    ensures forall i | 0 <= i < |r| :: r[i].Node?
    decreases |ts|
  {
    if ts == [] then []
    else if |ts| <= group then [Node(ts)]
    else [Node(ts[..group])] + Groups(ts[group..], group)
  }

  lemma {:induction false} FewerGroups(ts: seq<Tree>, group: nat)
    requires group >= 2
    ensures |Groups(ts, group)| <= |ts| && (|ts| >= 2 ==> |Groups(ts, group)| < |ts|)
    decreases |ts|
  {
    if |ts| > group { FewerGroups(ts[group..], group); }
  }

  /** Group the files again and again until at most `group` are left. */
  ghost function Top(ts: seq<Tree>, group: nat): seq<Tree>
    requires group >= 2
    decreases |ts|
  {
    if |ts| <= group then ts
    else
      FewerGroups(ts, group);
      Top(Groups(ts, group), group)
  }

  ghost function LeafEach(fs: seq<Facts>): (ts: seq<Tree>)
    ensures |ts| == |fs| && forall i :: 0 <= i < |fs| ==> ts[i] == Leaf(fs[i])
  {
    seq(|fs|, i requires 0 <= i < |fs| => Leaf(fs[i]))
  }

  /** The tree a cache-assisted build merges its shards through. */
  ghost function BuildTree(fs: seq<Facts>, group: nat): Tree
    requires group >= 2
  {
    Node(Top(Groups(LeafEach(fs), group), group))
  }

  lemma {:induction false} LeavesConcat(a: seq<Tree>, b: seq<Tree>)
    ensures AllLeaves(a + b) == AllLeaves(a) + AllLeaves(b)
  {
    if b == [] {
      assert a + b == a;
    } else {
      var n := |b| - 1;
      assert (a + b)[..|a + b| - 1] == a + b[..n];
      LeavesConcat(a, b[..n]);
    }
  }

  lemma LeavesOfOne(ts: seq<Tree>)
    ensures AllLeaves([Node(ts)]) == AllLeaves(ts)
  {
    assert [Node(ts)][..0] == [];
  }

  lemma {:induction false} GroupsKeepLeaves(ts: seq<Tree>, group: nat)
    requires group >= 1
    ensures AllLeaves(Groups(ts, group)) == AllLeaves(ts)
    decreases |ts|
  {
    hide AllLeaves;
    if ts == [] {
    } else if |ts| <= group {
      LeavesOfOne(ts);
    } else {
      GroupsKeepLeaves(ts[group..], group);
      LeavesOfOne(ts[..group]);
      LeavesConcat([Node(ts[..group])], Groups(ts[group..], group));
      LeavesConcat(ts[..group], ts[group..]);
      assert ts == ts[..group] + ts[group..];
    }
  }

  lemma {:induction false} TopKeepsLeaves(ts: seq<Tree>, group: nat)
    requires group >= 2
    ensures AllLeaves(Top(ts, group)) == AllLeaves(ts)
    decreases |ts|
  {
    if |ts| > group {
      FewerGroups(ts, group);
      TopKeepsLeaves(Groups(ts, group), group);
      GroupsKeepLeaves(ts, group);
    }
  }

  lemma {:induction false} LeafEachLeaves(fs: seq<Facts>)
    ensures AllLeaves(LeafEach(fs)) == fs
  {
    if fs != [] {
      var n := |fs| - 1;
      LeafEachLeaves(fs[..n]);
      assert LeafEach(fs)[..n] == LeafEach(fs[..n]);
      assert fs == fs[..n] + [fs[n]];
    }
  }

  lemma BuildTreeLeaves(fs: seq<Facts>, group: nat)
    requires group >= 2
    ensures Leaves(BuildTree(fs, group)) == fs
  {
    LeafEachLeaves(fs);
    GroupsKeepLeaves(LeafEach(fs), group);
    TopKeepsLeaves(Groups(LeafEach(fs), group), group);
  }

  /** The files of a level, each the file of its tree, all within the build. */
  ghost predicate LevelOk(files: seq<Image>, ts: seq<Tree>, whole: Facts)
  {
    && |files| == |ts|
    && (forall i | 0 <= i < |ts| :: Says(files[i], Coalesced(ts[i])))
    && (forall i | 0 <= i < |ts| :: Within(JoinAll(Leaves(ts[i])), whole))
  }

  lemma LevelConcat(a: seq<Image>, ts: seq<Tree>, b: seq<Image>, us: seq<Tree>, whole: Facts)
    requires LevelOk(a, ts, whole) && LevelOk(b, us, whole)
    ensures LevelOk(a + b, ts + us, whole)
  {
    hide Says, Within;
  }

  lemma LevelParts(a: seq<Image>, ts: seq<Tree>, whole: Facts, lo: nat, hi: nat)
    requires LevelOk(a, ts, whole) && lo <= hi <= |ts|
    ensures LevelOk(a[lo..hi], ts[lo..hi], whole)
  {
    hide Says, Within;
  }

  lemma {:induction false} EachLeafCoalesced(fs: seq<Facts>)
    ensures EachCoalesced(LeafEach(fs)) == SuppressEach(fs)
  {
    forall i | 0 <= i < |fs| ensures EachCoalesced(LeafEach(fs))[i] == SuppressEach(fs)[i] { CoalescedAt(LeafEach(fs), i); }
  }

  /** One group of a level becomes one file. */
  method OneGroup(files: seq<Image>, ghost ts: seq<Tree>, ghost whole: Facts) returns (t: Image)
    requires LevelOk(files, ts, whole) && BuildFits(whole)
    ensures LevelOk([t], [Node(ts)], whole)
  {
    hide Says, Within, BuildFits, Suppress, JoinAll, Stream.FactsFit;
    ghost var fs := EachCoalesced(ts);
    forall i | 0 <= i < |ts| ensures fs[i] == Coalesced(ts[i]) { CoalescedAt(ts, i); }
    GroupWithin(ts, whole);
    assert Leaves(Node(ts)) == AllLeaves(ts);
    CoalescedWithin(Node(ts), whole);
    FitsOne(Coalesced(Node(ts)), whole);
    t := MergeGroup(files, fs);
  }

  /** One pass of the upper levels: each chunk of files is merged into one. */
  method NextLevel(files: seq<Image>, group: nat, ghost ts: seq<Tree>, ghost whole: Facts) returns (next: seq<Image>)
    requires LevelOk(files, ts, whole) && BuildFits(whole) && group >= 1
    ensures LevelOk(next, Groups(ts, group), whole)
  {
    hide LevelOk, BuildFits;
    next := [];
    var at := 0;
    ghost var done: seq<Tree> := [];
    NothingYet(whole);
    LevelLength(files, ts, whole);
    assert ts[0..] == ts;
    while at < |files|
      invariant 0 <= at <= |files| && LevelOk(next, done, whole) && Groups(ts, group) == done + Groups(ts[at..], group)
    {
      var end := if at + group < |files| then at + group else |files|;
      LevelParts(files, ts, whole, at, end);
      var one := OneGroup(files[at..end], ts[at..end], whole);
      GroupStep(ts, at, end, group);
      LevelConcat(next, done, [one], [Node(ts[at..end])], whole);
      Regroup(done, [Node(ts[at..end])], Groups(ts[end..], group));
      next, done := next + [one], done + [Node(ts[at..end])];
      at := end;
    }
    assert ts[at..] == [] && done + [] == done;
  }

  lemma Regroup(a: seq<Tree>, b: seq<Tree>, c: seq<Tree>)
    ensures a + b + c == a + (b + c)
  {
  }

  lemma NothingYet(whole: Facts)
    ensures LevelOk([], [], whole)
  {
  }

  lemma LevelLength(files: seq<Image>, ts: seq<Tree>, whole: Facts)
    requires LevelOk(files, ts, whole)
    ensures |files| == |ts|
  {
  }

  lemma GroupStep(ts: seq<Tree>, at: nat, end: nat, group: nat)
    requires group >= 1 && at < |ts| && end == if at + group < |ts| then at + group else |ts|
    ensures Groups(ts[at..], group) == [Node(ts[at..end])] + Groups(ts[end..], group)
  {
    var rest := ts[at..];
    if |rest| > group {
      assert rest[..group] == ts[at..end] && rest[group..] == ts[end..];
    } else {
      assert rest == ts[at..end] && ts[end..] == [];
    }
  }

  ghost predicate EachWithin(fs: seq<Facts>, whole: Facts)
  {
    forall i | 0 <= i < |fs| :: Within(fs[i], whole)
  }

  lemma ShardCount(shards: seq<Image>, fs: seq<Facts>)
    requires EachShard(shards, fs)
    ensures |shards| == |fs|
  {
  }

  lemma ShardParts(shards: seq<Image>, fs: seq<Facts>, globalOf: map<Str, nat>, whole: Facts, lo: nat, hi: nat)
    requires EachShard(shards, fs) && EachAgrees(fs, globalOf) && EachWithin(fs, whole) && lo <= hi <= |fs|
    ensures EachShard(shards[lo..hi], fs[lo..hi]) && EachAgrees(fs[lo..hi], globalOf) && EachWithin(fs[lo..hi], whole)
  {
    hide IsShard, Shards.Agrees, Injective, Within;
  }

  method FirstGroup(shards: seq<Image>, globalOf: map<Str, nat>, ghost fs: seq<Facts>, ghost whole: Facts) returns (t: Image)
    requires EachShard(shards, fs) && EachAgrees(fs, globalOf) && EachWithin(fs, whole) && BuildFits(whole)
    ensures LevelOk([t], [Node(LeafEach(fs))], whole)
  {
    hide EachShard, EachAgrees, EachWithin, BuildFits, LevelOk, Says, Within, Stream.FactsFit;
    ShardGroupWithin(fs, whole);
    t := CoalesceShards(shards, globalOf, fs);
    ShardGroupLevel(t, fs, whole);
  }

  /** The first level: shards under global ids, chunk by chunk. */
  method FirstLevel(shards: seq<Image>, globalOf: map<Str, nat>, group: nat, ghost fs: seq<Facts>, ghost whole: Facts) returns (level: seq<Image>)
    requires EachShard(shards, fs) && EachAgrees(fs, globalOf) && EachWithin(fs, whole) && BuildFits(whole) && group >= 1
    ensures LevelOk(level, Groups(LeafEach(fs), group), whole)
  {
    hide LevelOk, BuildFits, Within, Says, EachShard, EachAgrees, EachWithin;
    ghost var ts := LeafEach(fs);
    ShardCount(shards, fs);
    level := [];
    var at := 0;
    ghost var done: seq<Tree> := [];
    NothingYet(whole);
    assert ts[0..] == ts;
    while at < |shards|
      invariant 0 <= at <= |shards| && LevelOk(level, done, whole) && Groups(ts, group) == done + Groups(ts[at..], group)
    {
      var end := if at + group < |shards| then at + group else |shards|;
      assert LeafEach(fs[at..end]) == ts[at..end];
      ShardParts(shards, fs, globalOf, whole, at, end);
      var one := FirstGroup(shards[at..end], globalOf, fs[at..end], whole);
      GroupStep(ts, at, end, group);
      LevelConcat(level, done, [one], [Node(ts[at..end])], whole);
      Regroup(done, [Node(ts[at..end])], Groups(ts[end..], group));
      level, done := level + [one], done + [Node(ts[at..end])];
      at := end;
    }
    assert ts[at..] == [] && done + [] == done;
  }

  lemma ShardGroupWithin(fs: seq<Facts>, whole: Facts)
    requires BuildFits(whole) && EachWithin(fs, whole)
    ensures Within(JoinAll(Leaves(Node(LeafEach(fs)))), whole)
    ensures Stream.FactsFit(Suppress(JoinAll(SuppressEach(fs))))
  {
    hide Within, BuildFits, JoinAll, Suppress, Stream.FactsFit;
    var ts := LeafEach(fs);
    forall i | 0 <= i < |ts| ensures Within(JoinAll(Leaves(ts[i])), whole) { JoinAllOne(fs[i]); }
    GroupWithin(ts, whole);
    CoalescedWithin(Node(ts), whole);
    EachLeafCoalesced(fs);
    FitsOne(Coalesced(Node(ts)), whole);
  }

  lemma ShardGroupLevel(t: Image, fs: seq<Facts>, whole: Facts)
    requires Says(t, Suppress(JoinAll(SuppressEach(fs)))) && Within(JoinAll(Leaves(Node(LeafEach(fs)))), whole)
    ensures LevelOk([t], [Node(LeafEach(fs))], whole)
  {
    hide Says, Within, JoinAll, Suppress;
    EachLeafCoalesced(fs);
  }

  /** The coalescing levels and the final merge over what is left. */
  method CoalesceAll(shards: seq<Image>, globalOf: map<Str, nat>, group: nat, ghost fs: seq<Facts>, ghost whole: Facts) returns (t: Image)
    requires EachShard(shards, fs) && EachAgrees(fs, globalOf) && EachWithin(fs, whole) && BuildFits(whole) && group >= 2
    ensures Says(t, Coalesced(BuildTree(fs, group)))
  {
    hide EachShard, EachAgrees, EachWithin, BuildFits, LevelOk, Says, Within, Coalesced, Groups;
    var level := FirstLevel(shards, globalOf, group, fs, whole);
    ghost var ts := Groups(LeafEach(fs), group);
    LevelLength(level, ts, whole);
    while |level| > group
      invariant |level| == |ts| && LevelOk(level, ts, whole) && Top(ts, group) == Top(Groups(LeafEach(fs), group), group)
      decreases |level|
    {
      FewerGroups(ts, group);
      level := NextLevel(level, group, ts, whole);
      ts := Groups(ts, group);
      LevelLength(level, ts, whole);
    }
    t := OneGroup(level, ts, whole);
    LevelFirst(t, Node(ts), whole);
  }

  lemma LevelFirst(t: Image, s: Tree, whole: Facts)
    requires LevelOk([t], [s], whole)
    ensures Says(t, Coalesced(s))
  {
    assert [t][0] == t && [s][0] == s;
  }

  // ---------------------------------------------------------------- the whole build

  /** From CUs to the final file by way of the cache, beside a clean build of the same CUs. The
      two files are identical, byte for byte, if and only if every alias owed survives the
      coalescing tree; agreeing kinds are enough. */
  method Rebuild(cus: seq<Rows>, globalOf: map<Str, nat>, group: nat) returns (t: Image, clean: Image)
    requires group >= 2 && Injective(globalOf) && (forall i | 0 <= i < |cus| :: CuOk(cus[i], globalOf))
    requires BuildFits(JoinAll(EachBuilder(cus)))
    ensures t == clean <==> AllSurvive(BuildTree(EachBuilder(cus), group))
    ensures KindsAgree(EachBuilder(cus)) ==> t == clean
  {
    ghost var fs := EachBuilder(cus);
    forall i | 0 <= i < |cus| ensures Shaped(cus[i]) && Shards.Agrees(fs[i], globalOf) { assert CuOk(cus[i], globalOf); }
    assert EachAgrees(fs, globalOf);
    hide CuOk, BuildFits, Shaped, Says, EachShard, EachAgrees, EachWithin, Coalesced, AllSurvive, KindsAgree, FactsOf, JoinAll, Suppress, Shards.Agrees,
      Injective;
    MembersWithin(fs);
    var shards := WriteShards(cus, globalOf);
    t := CoalesceAll(shards, globalOf, group, fs, JoinAll(fs));
    clean := CleanBuild(cus);
    BuildTreeLeaves(fs, group);
    TreeFileIff(t, BuildTree(fs, group), cus, clean);
    if KindsAgree(fs) { CoalescingTree(BuildTree(fs, group)); }
  }

  /** A shard for every CU. */
  method WriteShards(cus: seq<Rows>, globalOf: map<Str, nat>) returns (shards: seq<Image>)
    requires (forall i | 0 <= i < |cus| :: CuOk(cus[i], globalOf)) && BuildFits(JoinAll(EachBuilder(cus)))
    ensures EachShard(shards, EachBuilder(cus))
  {
    hide CuOk, BuildFits, IsShard, FactsOf, JoinAll, Within;
    ghost var fs := EachBuilder(cus);
    shards := [];
    for i := 0 to |cus|
      invariant |shards| == i && forall k | 0 <= k < i :: IsShard(shards[k], fs[k])
    {
      MemberWithin(fs, i);
      var one := WriteShard(cus[i], globalOf, JoinAll(fs));
      shards := shards + [one];
    }
  }

  lemma MembersWithin(fs: seq<Facts>)
    ensures EachWithin(fs, JoinAll(fs))
  {
    hide Within, JoinAll;
    forall i | 0 <= i < |fs| ensures Within(fs[i], JoinAll(fs)) { MemberWithin(fs, i); }
  }

  lemma MemberWithin(fs: seq<Facts>, i: nat)
    requires i < |fs|
    ensures Within(fs[i], JoinAll(fs))
  {
    hide JoinAll, Within;
    LeafEachLeaves(fs);
    ChildWithin(LeafEach(fs), i);
    JoinAllOne(fs[i]);
  }
}
