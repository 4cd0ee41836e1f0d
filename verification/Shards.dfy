/** Per-CU cache shards: file ids local to the shard, and the remap that gives a merged
    build the ids a clean build would have assigned. */
module Shards {
  import opened Bytes
  import opened Facts
  import opened Keyed
  import opened Builder
  import opened Store
  import Order

  lemma PathOrder()
    ensures Order.StrictOrder((a: Str, b: Str) => LexLess(a, b))
  {
    forall x: Str ensures !LexLess(x, x) { LexIrreflexive(x); }
    forall x: Str, y: Str, z: Str | LexLess(x, y) && LexLess(y, z) ensures LexLess(x, z) { LexTransitive(x, y, z); }
    forall x: Str, y: Str ensures LexLess(x, y) || x == y || LexLess(y, x) { LexTotal(x, y); }
  }

  ghost predicate PathsAscend(paths: seq<Str>)
  {
    forall i, j :: 0 <= i < j < |paths| ==> LexLess(paths[i], paths[j])
  }

  /** The sorted distinct paths of a file table. */
  ghost predicate PathsOf(files: map<nat, Str>, paths: seq<Str>)
  {
    PathsAscend(paths) && forall p :: p in paths <==> p in files.Values
  }

  lemma PathsUnique(files: map<nat, Str>, a: seq<Str>, other: map<nat, Str>, b: seq<Str>)
    requires PathsOf(files, a) && PathsOf(other, b) && files.Values == other.Values
    ensures a == b
  {
    PathOrder();
    Order.AscendingUnique((x: Str, y: Str) => LexLess(x, y), a, b);
  }

  /** Rank of a path among the sorted paths. */
  ghost function RankOf(paths: seq<Str>, p: Str): (i: nat)
    requires p in paths
    ensures i < |paths| && paths[i] == p
  {
    var i: nat :| i < |paths| && paths[i] == p;
    i
  }

  function FileOf(x: Row): nat
    requires |x.cols| == 4
  {
    x.cols[2]
  }

  function WithFile(x: Row, file: nat): Row
    requires |x.cols| == 4
  {
    x.(cols := x.cols[2 := file])
  }

  ghost predicate Xrefs(xs: set<Row>)
  {
    forall x | x in xs :: |x.cols| == 4
  }

  /** Every file an xref names is in the file table, as ingest guarantees. */
  ghost predicate FilesKnown(f: Facts)
  {
    Xrefs(f.xrefs) && forall x | x in f.xrefs :: FileOf(x) in f.files
  }

  /** What localizing does to the facts: each path gets its rank. */
  ghost function Localized(f: Facts, paths: seq<Str>): Facts
    requires FilesKnown(f) && PathsOf(f.files, paths)
  {
    f.(xrefs := set x | x in f.xrefs :: WithFile(x, RankOf(paths, f.files[FileOf(x)])),
       files := map i: nat | 0 <= i < |paths| :: paths[i])
  }

  /** The paths that sort before `p`. */
  ghost function PathsBefore(files: map<nat, Str>, p: Str): set<Str>
  {
    set q | q in files.Values && LexLess(q, p)
  }

  ghost function Leading(paths: seq<Str>, n: nat): (r: set<Str>)
    requires n <= |paths|
    ensures forall q :: q in r <==> q in paths[..n]
  {
    if n == 0 then {} else Leading(paths, n - 1) + {paths[n - 1]}
  }

  lemma {:induction false} LeadingCount(paths: seq<Str>, n: nat)
    requires PathsAscend(paths) && n <= |paths|
    ensures |Leading(paths, n)| == n
  {
    hide LexLess, PathsAscend;
    if n > 0 {
      LeadingCount(paths, n - 1);
      NotLeading(paths, n - 1);
    }
  }

  lemma NotLeading(paths: seq<Str>, n: nat)
    requires PathsAscend(paths) && n < |paths|
    ensures paths[n] !in Leading(paths, n)
  {
    LexIrreflexive(paths[n]);
    forall j | 0 <= j < n ensures paths[..n][j] != paths[n] { assert LexLess(paths[j], paths[n]); }
  }

  lemma NotBefore(paths: seq<Str>, i: nat, j: nat)
    requires PathsAscend(paths) && i <= j < |paths|
    ensures !LexLess(paths[j], paths[i])
  {
    LexIrreflexive(paths[i]);
    if LexLess(paths[j], paths[i]) && i < j { LexTransitive(paths[i], paths[j], paths[i]); }
  }

  /** A path's local id is how many of the builder's own paths sort before it. */
  lemma LocalIdCounts(f: Facts, paths: seq<Str>, i: nat)
    requires FilesKnown(f) && PathsOf(f.files, paths) && i < |paths|
    ensures i in Localized(f, paths).files && Localized(f, paths).files[i] == paths[i]
    ensures i == |PathsBefore(f.files, paths[i])|
  {
    hide LexLess;
    LeadingCount(paths, i);
    forall q ensures q in PathsBefore(f.files, paths[i]) <==> q in Leading(paths, i) {
      if q in PathsBefore(f.files, paths[i]) {
        assert q in paths;
        var j :| 0 <= j < |paths| && paths[j] == q;
        if j >= i { NotBefore(paths, i, j); }
        assert paths[..i][j] == q;
      }
      if q in paths[..i] {
        var j :| 0 <= j < i && paths[j] == q;
        assert q in paths;
      }
    }
    assert PathsBefore(f.files, paths[i]) == Leading(paths, i);
  }

  // ---------------------------------------------------------------- localize_file_ids

  method SortedPaths(files: map<nat, Str>) returns (paths: seq<Str>)
    ensures PathsOf(files, paths)
  {
    var any: seq<Str> := [];
    var rest := files.Keys;
    while rest != {}
      invariant rest <= files.Keys
      invariant forall p :: p in any <==> exists g :: g in files && g !in rest && files[g] == p
    {
      var g :| g in rest;
      any := any + [files[g]];
      rest := rest - {g};
    }
    PathOrder();
    paths := Order.SortDedup((a: Str, b: Str) => LexLess(a, b), any);
  }

  /** `local_of`: each path's dense rank. */
  method Ranks(paths: seq<Str>) returns (localOf: map<Str, nat>)
    requires PathsAscend(paths)
    ensures localOf.Keys == set p | p in paths
    ensures forall i :: 0 <= i < |paths| ==> paths[i] in localOf && localOf[paths[i]] == i
  {
    localOf := map[];
    for k := 0 to |paths|
      invariant localOf.Keys == set p | p in paths[..k]
      invariant forall i :: 0 <= i < k ==> paths[i] in localOf && localOf[paths[i]] == i
    {
      forall i | 0 <= i < k ensures paths[i] != paths[k] { LexIrreflexive(paths[k]); }
      assert paths[..k + 1] == paths[..k] + [paths[k]];
      localOf := localOf[paths[k] := k];
    }
    assert paths[..|paths|] == paths;
  }

  /** Rewrite a builder's file ids into its own namespace. */
  method LocalizeFileIds(b: IndexBuilder) returns (paths: seq<Str>)
    requires Shaped(b.Contents()) && FilesKnown(FactsOf(b.Contents()))
    modifies b
    ensures PathsOf(old(b.files), paths)
    ensures Shaped(b.Contents())
    ensures FactsOf(b.Contents()) == Localized(old(FactsOf(b.Contents())), paths)
  {
    hide LexLess, Best;
    paths := SortedPaths(b.files);
    var localOf := Ranks(paths);
    ghost var was := b.Contents();
    var rewritten := RewriteXrefs(b.xrefs, b.files, paths, localOf);
    b.xrefs := rewritten;
    b.files := map i: nat | 0 <= i < |paths| :: paths[i];
    assert FactsOf(b.Contents()).xrefs == Localized(FactsOf(was), paths).xrefs;
  }

  method RewriteXrefs(xrefs: seq<Row>, files: map<nat, Str>, paths: seq<Str>, localOf: map<Str, nat>)
    returns (out: seq<Row>)
    requires Columns(xrefs, 4) && PathsOf(files, paths)
    requires forall k :: 0 <= k < |xrefs| ==> FileOf(xrefs[k]) in files
    requires localOf.Keys == set p | p in paths
    requires forall i :: 0 <= i < |paths| ==> paths[i] in localOf && localOf[paths[i]] == i
    ensures Columns(out, 4) && |out| == |xrefs|
    ensures forall k :: 0 <= k < |xrefs| ==> out[k] == WithFile(xrefs[k], RankOf(paths, files[FileOf(xrefs[k])]))
  {
    out := [];
    for k := 0 to |xrefs|
      invariant |out| == k && Columns(out, 4)
      invariant forall i :: 0 <= i < k ==> out[i] == WithFile(xrefs[i], RankOf(paths, files[FileOf(xrefs[i])]))
    {
      var p := files[FileOf(xrefs[k])];
      assert p in files.Values;
      ghost var r := RankOf(paths, p);
      assert localOf[paths[r]] == r;
      out := out + [WithFile(xrefs[k], localOf[p])];
    }
  }

  // ---------------------------------------------------------------- the remap

  /** A shard's facts with its local ids replaced by the build's; rows of a path the
      build does not know are dropped. */
  ghost function Remapped(f: Facts, globalOf: map<Str, nat>): Facts
    requires FilesKnown(f) && Injective(globalOf)
  {
    f.(xrefs := set x | x in f.xrefs && f.files[FileOf(x)] in globalOf :: WithFile(x, globalOf[f.files[FileOf(x)]]),
       files := RemappedFiles(f.files, globalOf))
  }

  ghost function RemappedFiles(files: map<nat, Str>, globalOf: map<Str, nat>): map<nat, Str>
    requires Injective(globalOf)
  {
    map p | p in files.Values && p in globalOf :: globalOf[p] := p
  }

  /** The builder's ids are the global ranks of its paths. */
  ghost predicate Agrees(f: Facts, globalOf: map<Str, nat>)
  {
    Injective(globalOf) && forall g | g in f.files :: f.files[g] in globalOf && globalOf[f.files[g]] == g
  }

  lemma LocalizedKnown(f: Facts, paths: seq<Str>)
    requires FilesKnown(f) && PathsOf(f.files, paths)
    ensures FilesKnown(Localized(f, paths))
  {
    hide LexLess;
    forall y | y in Localized(f, paths).xrefs ensures |y.cols| == 4 && FileOf(y) in Localized(f, paths).files {
      var x :| x in f.xrefs && y == WithFile(x, RankOf(paths, f.files[FileOf(x)]));
    }
  }

  lemma RestoreRow(f: Facts, paths: seq<Str>, globalOf: map<Str, nat>, x: Row)
    requires FilesKnown(f) && PathsOf(f.files, paths) && Agrees(f, globalOf) && x in f.xrefs
    ensures var y := WithFile(x, RankOf(paths, f.files[FileOf(x)]));
            var back := Localized(f, paths).files;
            && FileOf(y) in back && back[FileOf(y)] in globalOf
            && WithFile(y, globalOf[back[FileOf(y)]]) == x
  {
  }

  /** Localizing, writing, reading and remapping restores every xref and file row of a
      builder whose ids agree with the global ranking, and touches nothing else. */
  lemma LocalizeRestores(f: Facts, paths: seq<Str>, globalOf: map<Str, nat>)
    requires FilesKnown(f) && PathsOf(f.files, paths) && Agrees(f, globalOf)
    ensures FilesKnown(Localized(f, paths))
    ensures Remapped(Localized(f, paths), globalOf) == f
  {
    hide LexLess;
    LocalizedKnown(f, paths);
    var l := Localized(f, paths);
    var r := Remapped(l, globalOf);
    forall x | x in f.xrefs ensures x in r.xrefs {
      RestoreRow(f, paths, globalOf, x);
      assert WithFile(x, RankOf(paths, f.files[FileOf(x)])) in l.xrefs;
    }
    forall z | z in r.xrefs ensures z in f.xrefs {
      var y :| y in l.xrefs && l.files[FileOf(y)] in globalOf && z == WithFile(y, globalOf[l.files[FileOf(y)]]);
      var x :| x in f.xrefs && y == WithFile(x, RankOf(paths, f.files[FileOf(x)]));
      RestoreRow(f, paths, globalOf, x);
    }
    RestoreFiles(f, paths, globalOf);
  }

  lemma RestoreFiles(f: Facts, paths: seq<Str>, globalOf: map<Str, nat>)
    requires FilesKnown(f) && PathsOf(f.files, paths) && Agrees(f, globalOf)
    ensures RemappedFiles(Localized(f, paths).files, globalOf) == f.files
  {
    hide LexLess;
    var l := Localized(f, paths).files;
    assert forall p :: p in l.Values <==> p in f.files.Values by {
      forall p ensures p in l.Values <==> p in f.files.Values {
        if p in l.Values { var i :| i in l && l[i] == p; assert paths[i] in paths; }
        if p in f.files.Values { assert p in paths; var i :| 0 <= i < |paths| && paths[i] == p; assert l[i] == p; }
      }
    }
    var r := RemappedFiles(l, globalOf);
    forall g ensures g in r <==> g in f.files {
      if g in f.files { assert f.files[g] in l.Values && f.files[g] in globalOf && globalOf[f.files[g]] == g; }
    }
    forall g | g in r ensures r[g] == f.files[g] {}
  }

  // ---------------------------------------------------------------- membership independence

  /** An xref with its path in place of its file id. */
  ghost function Label(f: Facts, x: Row): (nat, nat, nat, Str)
    requires |x.cols| == 4 && FileOf(x) in f.files
  {
    (x.cols[0], x.cols[1], x.cols[3], f.files[FileOf(x)])
  }

  ghost function Labelled(f: Facts): set<(nat, nat, nat, Str)>
    requires FilesKnown(f)
  {
    set x | x in f.xrefs :: Label(f, x)
  }

  ghost predicate PlainXrefs(f: Facts)
  {
    forall x | x in f.xrefs :: |x.cols| == 4 && x.text == []
  }

  /** Remapping keeps exactly the path-labelled facts about paths the build knows, and every
      one of them under the build's id for its path. */
  lemma RemappedLabels(f: Facts, globalOf: map<Str, nat>)
    requires FilesKnown(f) && Injective(globalOf)
    ensures FilesKnown(Remapped(f, globalOf))
    ensures forall l :: l in Labelled(Remapped(f, globalOf)) <==> l in Labelled(f) && l.3 in globalOf
    ensures forall g | g in Remapped(f, globalOf).files :: Remapped(f, globalOf).files[g] in globalOf && globalOf[Remapped(f, globalOf).files[g]] == g
  {
    var r := Remapped(f, globalOf);
    forall y | y in r.xrefs ensures |y.cols| == 4 && FileOf(y) in r.files && Label(r, y) in Labelled(f) && Label(r, y).3 in globalOf {
      var x :| x in f.xrefs && f.files[FileOf(x)] in globalOf && y == WithFile(x, globalOf[f.files[FileOf(x)]]);
      LabelKept(f, globalOf, x);
    }
    forall l | l in Labelled(f) && l.3 in globalOf ensures l in Labelled(r) {
      var x :| x in f.xrefs && l == Label(f, x);
      LabelKept(f, globalOf, x);
      assert WithFile(x, globalOf[f.files[FileOf(x)]]) in r.xrefs;
    }
  }

  lemma LabelKept(f: Facts, globalOf: map<Str, nat>, x: Row)
    requires FilesKnown(f) && Injective(globalOf) && x in f.xrefs && f.files[FileOf(x)] in globalOf
    ensures var y := WithFile(x, globalOf[f.files[FileOf(x)]]); var files := RemappedFiles(f.files, globalOf);
      && FileOf(y) in files && files[FileOf(y)] == f.files[FileOf(x)] && y.cols[0] == x.cols[0] && y.cols[1] == x.cols[1] && y.cols[3] == x.cols[3]
  {
    assert f.files[FileOf(x)] in f.files.Values;
  }

  lemma LocalRowDetermined(f: Facts, x: Row, g: Facts, y: Row, paths: seq<Str>)
    requires |x.cols| == 4 && |y.cols| == 4 && x.text == [] && y.text == []
    requires FileOf(x) in f.files && FileOf(y) in g.files && Label(f, x) == Label(g, y)
    requires f.files[FileOf(x)] in paths
    ensures WithFile(x, RankOf(paths, f.files[FileOf(x)])) == WithFile(y, RankOf(paths, g.files[FileOf(y)]))
  {
  }

  /** Two builders that record the same path-labelled facts under different file ids
      localize to the same shard: it does not depend on which other CUs exist. */
  lemma LocalizeIndependent(f: Facts, a: seq<Str>, g: Facts, b: seq<Str>)
    requires FilesKnown(f) && PlainXrefs(f) && PathsOf(f.files, a)
    requires FilesKnown(g) && PlainXrefs(g) && PathsOf(g.files, b)
    requires f.files.Values == g.files.Values && Labelled(f) == Labelled(g)
    requires f.(xrefs := {}, files := map[]) == g.(xrefs := {}, files := map[])
    ensures Localized(f, a) == Localized(g, b)
  {
    hide LexLess;
    PathsUnique(f.files, a, g.files, b);
    LocalizeWithin(f, g, a);
    LocalizeWithin(g, f, a);
    var l, m := Localized(f, a), Localized(g, a);
    assert l.xrefs == m.xrefs;
    assert l == f.(xrefs := {}, files := map[]).(xrefs := l.xrefs, files := l.files);
    assert m == g.(xrefs := {}, files := map[]).(xrefs := m.xrefs, files := m.files);
  }

  lemma LocalizeWithin(f: Facts, g: Facts, paths: seq<Str>)
    requires FilesKnown(f) && PlainXrefs(f) && PathsOf(f.files, paths)
    requires FilesKnown(g) && PlainXrefs(g) && PathsOf(g.files, paths)
    requires Labelled(f) <= Labelled(g)
    ensures Localized(f, paths).xrefs <= Localized(g, paths).xrefs
  {
    hide LexLess, PathsAscend;
    forall z | z in Localized(f, paths).xrefs ensures z in Localized(g, paths).xrefs {
      var x :| x in f.xrefs && z == WithFile(x, RankOf(paths, f.files[FileOf(x)]));
      assert Label(f, x) in Labelled(g);
      var y :| y in g.xrefs && Label(g, y) == Label(f, x);
      assert f.files[FileOf(x)] in f.files.Values;
      LocalRowDetermined(f, x, g, y, paths);
    }
  }

  // ---------------------------------------------------------------- coalescing

  /** A finished shard: sorted, with plain xrefs and no empty strings. */
  ghost predicate ShardOk(c: Canon)
  {
    && CanonOk(c) && FilesKnown(CanonFacts(c)) && Columns(c.xrefs, 4) && Columns(c.inherits, 2)
    && Columns(c.calls, 3) && Columns(c.childof, 2) && Strings(c.aliases)
    && (forall i :: 0 <= i < |c.typed| ==> c.typed[i].1 != [])
    && (forall i :: 0 <= i < |c.sig| ==> c.sig[i].1 != [])
  }

  /** `l2g`: the global id of each local one whose path the build knows. */
  method LocalToGlobal(files: seq<(nat, Str)>, globalOf: map<Str, nat>) returns (l2g: map<nat, nat>)
    requires KeysAscend(files)
    ensures l2g == map l | l in ToMap(files) && ToMap(files)[l] in globalOf :: globalOf[ToMap(files)[l]]
  {
    l2g := map[];
    for i := 0 to |files|
      invariant l2g == map l | l in ToMap(files[..i]) && ToMap(files[..i])[l] in globalOf :: globalOf[ToMap(files[..i])[l]]
    {
      PrefixMap(files, i);
      if files[i].1 in globalOf { l2g := l2g[files[i].0 := globalOf[files[i].1]]; }
    }
    assert files[..|files|] == files;
  }

  method RemapXrefs(xrefs: seq<Row>, l2g: map<nat, nat>) returns (out: seq<Row>)
    requires Columns(xrefs, 4)
    ensures Columns(out, 4)
    ensures RowSet(out) == set x | x in RowSet(xrefs) && |x.cols| == 4 && FileOf(x) in l2g :: WithFile(x, l2g[FileOf(x)])
  {
    out := [];
    for i := 0 to |xrefs|
      invariant Columns(out, 4)
      invariant forall z :: z in out <==>
        exists k :: 0 <= k < i && FileOf(xrefs[k]) in l2g && z == WithFile(xrefs[k], l2g[FileOf(xrefs[k])])
    {
      if FileOf(xrefs[i]) in l2g { out := out + [WithFile(xrefs[i], l2g[FileOf(xrefs[i])])]; }
    }
    RemapXrefsSet(xrefs, l2g, out);
  }

  lemma RemapXrefsSet(xrefs: seq<Row>, l2g: map<nat, nat>, out: seq<Row>)
    requires Columns(xrefs, 4)
    requires forall z :: z in out <==>
      exists k :: 0 <= k < |xrefs| && FileOf(xrefs[k]) in l2g && z == WithFile(xrefs[k], l2g[FileOf(xrefs[k])])
    ensures RowSet(out) == set x | x in RowSet(xrefs) && |x.cols| == 4 && FileOf(x) in l2g :: WithFile(x, l2g[FileOf(x)])
  {
    var r := set x | x in RowSet(xrefs) && |x.cols| == 4 && FileOf(x) in l2g :: WithFile(x, l2g[FileOf(x)]);
    forall z ensures z in out <==> z in r {
      if z in r {
        var x :| x in RowSet(xrefs) && |x.cols| == 4 && FileOf(x) in l2g && z == WithFile(x, l2g[FileOf(x)]);
        var k :| 0 <= k < |xrefs| && xrefs[k] == x;
      }
      if z in out {
        var k :| 0 <= k < |xrefs| && FileOf(xrefs[k]) in l2g && z == WithFile(xrefs[k], l2g[FileOf(xrefs[k])]);
        assert xrefs[k] in RowSet(xrefs);
      }
    }
  }

  /** Replaying a key-sorted string table row by row. */
  function StringRows(t: seq<(nat, Str)>): (r: seq<Row>)
    ensures |r| == |t| && forall i :: 0 <= i < |t| ==> r[i] == Row([t[i].0], t[i].1)
  {
    seq(|t|, i requires 0 <= i < |t| => Row([t[i].0], t[i].1))
  }

  lemma {:induction false} ReplayStrings(t: seq<(nat, Str)>)
    requires KeysAscend(t)
    ensures Best(StringRows(t)) == ToMap(t)
  {
    if t != [] {
      var n := |t| - 1;
      ReplayStrings(t[..n]);
      assert StringRows(t)[..n] == StringRows(t[..n]);
      ToMapBound(t[..n], t[n].0);
    }
  }

  method RemapFiles(files: seq<(nat, Str)>, globalOf: map<Str, nat>) returns (out: map<nat, Str>)
    requires KeysAscend(files) && Injective(globalOf)
    ensures out == RemappedFiles(ToMap(files), globalOf)
  {
    hide Injective;
    out := map[];
    EmptyRemap(globalOf);
    for i := 0 to |files|
      invariant out == RemappedFiles(ToMap(files[..i]), globalOf)
    {
      PrefixMap(files, i);
      RemapStep(ToMap(files[..i]), files[i].0, files[i].1, globalOf);
      if files[i].1 in globalOf && globalOf[files[i].1] !in out {
        out := out[globalOf[files[i].1] := files[i].1];
      }
    }
    assert files[..|files|] == files;
  }

  lemma EmptyRemap(globalOf: map<Str, nat>)
    requires Injective(globalOf)
    ensures RemappedFiles(map[], globalOf) == map[]
  {
  }

  lemma RemapStep(m: map<nat, Str>, l: nat, p: Str, globalOf: map<Str, nat>)
    requires Injective(globalOf) && l !in m
    ensures var was, now := RemappedFiles(m, globalOf), RemappedFiles(m[l := p], globalOf);
      if p in globalOf && globalOf[p] !in was then now == was[globalOf[p] := p] else now == was
  {
    var n := m[l := p];
    forall q ensures q in n.Values <==> q in m.Values || q == p {
      if q in m.Values { var k :| k in m && m[k] == q; assert n[k] == q; }
      if q == p { assert n[l] == q; }
    }
  }

  /** `populate_from_shard_remapped`: replay a shard into a builder under global ids. */
  method PopulateRemapped(b: IndexBuilder, shard: Canon, globalOf: map<Str, nat>)
    requires ShardOk(shard) && Injective(globalOf) && Shaped(b.Contents())
    modifies b
    ensures Shaped(b.Contents())
    ensures FactsOf(b.Contents()) == Join(old(FactsOf(b.Contents())), ShardFacts(shard, globalOf))
  {
    hide Best, JoinMap, RowLess, LexLess, Join;
    var l2g := LocalToGlobal(shard.files, globalOf);
    var xrefs := RemapXrefs(shard.xrefs, l2g);
    var files := RemapFiles(shard.files, globalOf);
    var syms := KeyedToMap(shard.syms);
    var rows := Rows(xrefs, syms, files, shard.inherits, shard.aliases, shard.calls, StringRows(shard.typed),
                     shard.childof, StringRows(shard.sig));
    ReplayStrings(shard.typed);
    ReplayStrings(shard.sig);
    RemappedRows(shard, globalOf, rows, l2g);
    MergedIsJoin(b.Contents(), rows);
    b.MergeFrom(rows);
  }

  method KeyedToMap<V>(t: seq<(nat, V)>) returns (m: map<nat, V>)
    requires KeysAscend(t)
    ensures m == ToMap(t)
  {
    m := map[];
    for i := 0 to |t|
      invariant m == ToMap(t[..i])
    {
      PrefixMap(t, i);
      m := m[t[i].0 := t[i].1];
    }
    assert t[..|t|] == t;
  }

  lemma RemappedRows(shard: Canon, globalOf: map<Str, nat>, rows: Rows, l2g: map<nat, nat>)
    requires ShardOk(shard) && Injective(globalOf)
    requires l2g == map l | l in ToMap(shard.files) && ToMap(shard.files)[l] in globalOf :: globalOf[ToMap(shard.files)[l]]
    requires Columns(rows.xrefs, 4) && RowSet(rows.xrefs) ==
      set x | x in RowSet(shard.xrefs) && |x.cols| == 4 && FileOf(x) in l2g :: WithFile(x, l2g[FileOf(x)])
    requires rows.files == RemappedFiles(ToMap(shard.files), globalOf) && rows.syms == ToMap(shard.syms)
    requires rows.inherits == shard.inherits && rows.aliases == shard.aliases && rows.calls == shard.calls
    requires rows.childof == shard.childof && rows.typed == StringRows(shard.typed) && rows.sig == StringRows(shard.sig)
    requires Best(rows.typed) == ToMap(shard.typed) && Best(rows.sig) == ToMap(shard.sig)
    ensures Shaped(rows) && FactsOf(rows) == Remapped(CanonFacts(shard), globalOf)
  {
    hide Best, RowLess, LexLess, ToMap;
    var r := Remapped(CanonFacts(shard), globalOf);
    forall z ensures z in RowSet(rows.xrefs) <==> z in r.xrefs {}
  }

  /** What a shard contributes to a build. */
  ghost function ShardFacts(shard: Canon, globalOf: map<Str, nat>): Facts
    requires ShardOk(shard) && Injective(globalOf)
  {
    Remapped(CanonFacts(shard), globalOf)
  }

  ghost function EachRemapped(shards: seq<Canon>, globalOf: map<Str, nat>): (r: seq<Facts>)
    requires Injective(globalOf) && forall i :: 0 <= i < |shards| ==> ShardOk(shards[i])
    ensures |r| == |shards|
    ensures forall i :: 0 <= i < |shards| ==> r[i] == ShardFacts(shards[i], globalOf)
  {
    seq(|shards|, i requires 0 <= i < |shards| && ShardOk(shards[i]) && Injective(globalOf) =>
      ShardFacts(shards[i], globalOf))
  }

  lemma SuppressKeepsFiles(f: Facts, globalOf: map<Str, nat>)
    requires FilesKnown(f) && Injective(globalOf)
    ensures FilesKnown(Suppress(f)) && Remapped(Suppress(f), globalOf) == Suppress(Remapped(f, globalOf))
  {
  }

  /** A cache-assisted build equals a clean one: coalescing the localized shards of CUs
      whose ids a clean build would have assigned gives the same first-level file as
      coalescing the CUs themselves. */
  lemma CachedGroupIsClean(fs: seq<Facts>, shards: seq<Canon>, paths: seq<seq<Str>>, globalOf: map<Str, nat>)
    requires |fs| == |shards| == |paths| && Injective(globalOf)
    requires forall i :: 0 <= i < |fs| ==> FilesKnown(fs[i]) && PathsOf(fs[i].files, paths[i]) && Agrees(fs[i], globalOf)
    requires forall i :: 0 <= i < |fs| ==> ShardOk(shards[i]) && CanonFacts(shards[i]) == Suppress(Localized(fs[i], paths[i]))
    ensures EachRemapped(shards, globalOf) == SuppressEach(fs)
  {
    hide LexLess, Suppress, Localized, Remapped, ShardOk, Agrees, PathsOf, FilesKnown, Injective;
    forall i | 0 <= i < |fs| ensures EachRemapped(shards, globalOf)[i] == SuppressEach(fs)[i] {
      assert FilesKnown(fs[i]) && PathsOf(fs[i].files, paths[i]) && Agrees(fs[i], globalOf);
      LocalizeRestores(fs[i], paths[i], globalOf);
      SuppressKeepsFiles(Localized(fs[i], paths[i]), globalOf);
    }
  }
}
