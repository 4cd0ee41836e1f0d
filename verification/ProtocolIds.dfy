/** File ids over whole histories: what each step may touch, and why no id ever names two
    paths and no path ever has two ids in the durable shards. */
module ProtocolIds {
  import opened Bytes
  import opened Protocol

  ghost predicate RunStep(t: Step)
  {
    !t.Begin? && !t.Resume? && !t.Crash? && !t.Finish?
  }

  /** Which step may change which part of the state. */
  ghost predicate Frame(c: World, s: State, t: Step, s': State)
    requires RunStep(t)
  {
    && s.phase == Running && s'.phase == Running && Shape(c, s) && Shape(c, s') && t.w < c.workers && s'.plan == s.plan
    && (forall v | 0 <= v < c.workers && v != t.w :: s'.pcs[v] == s.pcs[v])
    && (!t.Ingest? ==> s'.alloc == s.alloc && s'.accessed == s.accessed && s'.next == s.next)
    && (!t.WriteShard? ==> s'.shards == s.shards && s'.nextShard == s.nextShard && s'.failed == s.failed)
    && (!t.MergeSink? && !t.Drain? ==> s'.sinks == s.sinks)
    && (!t.Drain? && !t.WriteShard? ==> s'.acc == s.acc)
    && (!t.WriteCheckpoint? ==> s'.checkpoint == s.checkpoint)
    && (!t.Commit? ==> s'.committed == s.committed)
    && (!t.EndCu? ==> s'.idx == s.idx)
  }

  ghost predicate SnapStep(t: Step)
  {
    t.SnapStart? || t.SnapProceed? || t.Subtract? || t.WriteCheckpoint? || t.Commit? || t.ReleaseWriter?
  }

  lemma FootprintFlag(c: World, s: State, t: Step)
    requires Can(c, s, t) && (t.SnapStart? || t.SnapProceed? || t.ReleaseWriter?)
    ensures Frame(c, s, t, Apply(c, s, t))
  {
  }

  lemma FootprintStaged(c: World, s: State, t: Step)
    requires Can(c, s, t) && (t.Subtract? || t.WriteCheckpoint? || t.Commit?)
    ensures Frame(c, s, t, Apply(c, s, t))
  {
    hide AccessedTable, Injective;
  }

  lemma FootprintDrain(c: World, s: State, w: nat)
    requires Can(c, s, Drain(w))
    ensures Frame(c, s, Drain(w), Apply(c, s, Drain(w)))
  {
    hide Count;
    if HoldsSink(s.pcs[s.pcs[w].k]) {} else {}
  }

  lemma FootprintWrite(c: World, s: State, w: nat, ok: bool)
    requires Can(c, s, WriteShard(w, ok))
    ensures Frame(c, s, WriteShard(w, ok), Apply(c, s, WriteShard(w, ok)))
  {
    hide CusOf, Protocol.RowsOf;
  }

  lemma FootprintOwn(c: World, s: State, t: Step)
    requires Can(c, s, t) && RunStep(t) && !SnapStep(t) && !t.Drain? && !t.WriteShard?
    ensures Frame(c, s, t, Apply(c, s, t))
  {
    hide Can, Apply, Frame;
    if t.Register? || t.Gate? || t.BackOff? || t.Unpark? { FootprintEnter(c, s, t); }
    else if t.Ingest? { FootprintIngest(c, s, t.w, t.row); }
    else { FootprintInside(c, s, t); }
  }

  lemma FootprintEnter(c: World, s: State, t: Step)
    requires Can(c, s, t) && (t.Register? || t.Gate? || t.BackOff? || t.Unpark?)
    ensures Frame(c, s, t, Apply(c, s, t))
  {
  }

  lemma FootprintIngest(c: World, s: State, w: nat, row: LRow)
    requires Can(c, s, Ingest(w, row))
    ensures Frame(c, s, Ingest(w, row), Apply(c, s, Ingest(w, row)))
  {
  }

  lemma FootprintInside(c: World, s: State, t: Step)
    requires Can(c, s, t) && (t.FailCu? || t.LockSink? || t.MergeSink? || t.AddGauge? || t.Unlock? || t.EndCu?)
    ensures Frame(c, s, t, Apply(c, s, t))
  {
  }

  lemma Footprint(c: World, s: State, t: Step)
    requires Can(c, s, t) && RunStep(t)
    ensures Frame(c, s, t, Apply(c, s, t))
  {
    hide Can, Apply, Frame;
    if t.SnapStart? || t.SnapProceed? || t.ReleaseWriter? { FootprintFlag(c, s, t); }
    else if SnapStep(t) { FootprintStaged(c, s, t); }
    else if t.Drain? { FootprintDrain(c, s, t.w); }
    else if t.WriteShard? { FootprintWrite(c, s, t.w, t.ok); }
    else { FootprintOwn(c, s, t); }
  }

  // ---------------------------------------------------------------- invariants

  /** Each (id, path) of a file table is the allocator's. */
  ghost predicate Embeds(files: map<nat, Path>, alloc: map<Path, nat>)
  {
    forall id | id in files :: files[id] in alloc && alloc[files[id]] == id
  }

  ghost predicate ShardsAgree(shards: map<nat, Shard>)
  {
    forall i, j, id, jd | i in shards && j in shards && id in shards[i].files && jd in shards[j].files ::
      shards[i].files[id] == shards[j].files[jd] <==> id == jd
  }

  ghost predicate AllocOk(s: State)
  {
    && Injective(s.alloc)
    && (forall p | p in s.alloc :: s.alloc[p] < s.next)
    && (forall p | p in s.accessed :: p in s.alloc)
  }

  ghost predicate TablesOk(c: World, s: State)
    requires Shape(c, s)
  {
    && (forall i | i in s.shards :: Embeds(s.shards[i].files, s.alloc))
    && (forall w | 0 <= w < c.workers && s.pcs[w].Subtracted? :: Embeds(s.pcs[w].files, s.alloc))
  }

  ghost predicate IdsInv(c: World, s: State)
  {
    && ShardsAgree(s.shards)
    && (s.phase == Running ==> Shape(c, s) && AllocOk(s) && TablesOk(c, s) && PastShards(s.shards, s.nextShard))
  }

  /** Both directions: one id per path and one path per id. */
  ghost predicate OneToOne(names: set<(nat, Path)>)
  {
    forall x, y | x in names && y in names :: x.0 == y.0 <==> x.1 == y.1
  }

  lemma EmbeddedAgree(shards: map<nat, Shard>, alloc: map<Path, nat>)
    requires Injective(alloc) && forall i | i in shards :: Embeds(shards[i].files, alloc)
    ensures ShardsAgree(shards)
  {
    forall i, j, id, jd | i in shards && j in shards && id in shards[i].files && jd in shards[j].files
      ensures shards[i].files[id] == shards[j].files[jd] <==> id == jd
    {
      assert Embeds(shards[i].files, alloc) && Embeds(shards[j].files, alloc);
    }
  }

  /** `seed_from` over shards that agree restores exactly their namespace. */
  lemma SeedRestores(shards: map<nat, Shard>, alloc: map<Path, nat>, next: nat)
    requires ShardsAgree(shards) && SeededFrom(shards, alloc, next)
    ensures Injective(alloc) && (forall p | p in alloc :: alloc[p] < next)
    ensures forall i | i in shards :: Embeds(shards[i].files, alloc)
  {
    forall p, q | p in alloc && q in alloc && alloc[p] == alloc[q] ensures p == q {
      var i :| i in shards && alloc[p] in shards[i].files && shards[i].files[alloc[p]] == p;
      var j :| j in shards && alloc[q] in shards[j].files && shards[j].files[alloc[q]] == q;
    }
    forall i, id | i in shards && id in shards[i].files
      ensures shards[i].files[id] in alloc && alloc[shards[i].files[id]] == id
    {
      var p := shards[i].files[id];
      var j :| j in shards && alloc[p] in shards[j].files && shards[j].files[alloc[p]] == p;
    }
  }

  lemma SeedRanksInjective(paths: seq<Path>, alloc: map<Path, nat>, next: nat)
    requires SeededPaths(paths, alloc, next)
    ensures Injective(alloc) && (forall p | p in alloc :: alloc[p] < next)
  {
    forall p | p in alloc ensures alloc[p] < |paths| && paths[alloc[p]] == p {
      var i :| 0 <= i < |paths| && paths[i] == p;
    }
  }

  /** `intern` keeps the allocator one-to-one and never renumbers. */
  lemma InternKeeps(s: State, p: Path)
    requires AllocOk(s)
    ensures AllocOk(Interned(s, p))
    ensures p in Interned(s, p).accessed
    ensures forall q | q in s.alloc :: q in Interned(s, p).alloc && Interned(s, p).alloc[q] == s.alloc[q]
  {
  }

  // ---------------------------------------------------------------- preservation

  lemma IdsQuiet(c: World, s: State, t: Step)
    requires IdsInv(c, s) && Can(c, s, t) && RunStep(t) && !t.Ingest? && !t.WriteShard? && !t.Subtract?
    ensures IdsInv(c, Apply(c, s, t))
  {
    hide Can, ShardsAgree, Embeds, Injective, PastShards, Count;
    Footprint(c, s, t);
    assert !Apply(c, s, t).pcs[t.w].Subtracted?;
    hide Apply;
  }

  lemma IdsIngest(c: World, s: State, w: nat, row: LRow)
    requires IdsInv(c, s) && Can(c, s, Ingest(w, row))
    ensures IdsInv(c, AfterIngest(s, w, row))
  {
    hide ShardsAgree, AllocOk;
    InternKeeps(s, row.path);
    var t := AfterIngest(s, w, row);
    assert AllocOk(t) by { AllocFields(Interned(s, row.path), t); }
    assert forall v | 0 <= v < c.workers && t.pcs[v].Subtracted? :: s.pcs[v] == t.pcs[v];
  }

  lemma AllocFields(s: State, t: State)
    requires AllocOk(s) && s.alloc == t.alloc && s.next == t.next && s.accessed == t.accessed
    ensures AllocOk(t)
  {
  }

  lemma IdsSubtract(c: World, s: State, w: nat)
    requires IdsInv(c, s) && Can(c, s, Subtract(w))
    ensures IdsInv(c, Apply(c, s, Subtract(w)))
  {
    hide ShardsAgree;
    AllocFields(s, Apply(c, s, Subtract(w)));
    assert Embeds(AccessedTable(s), s.alloc);
  }

  lemma IdsWrite(c: World, s: State, w: nat, ok: bool)
    requires IdsInv(c, s) && Can(c, s, WriteShard(w, ok))
    ensures IdsInv(c, AfterWrite(s, w, ok))
  {
    hide ShardsAgree, CusOf, Protocol.RowsOf, AllocOk;
    var t := AfterWrite(s, w, ok);
    AllocFields(s, t);
    assert forall v | 0 <= v < c.workers && t.pcs[v].Subtracted? :: s.pcs[v] == t.pcs[v];
    InjectiveOf(s);
    EmbeddedAgree(t.shards, s.alloc);
  }

  lemma InjectiveOf(s: State)
    requires AllocOk(s)
    ensures Injective(s.alloc)
  {
  }

  lemma IdsStart(c: World, s: State, t: Step)
    requires IdsInv(c, s) && Can(c, s, t) && !RunStep(t)
    ensures IdsInv(c, Apply(c, s, t))
  {
    hide ShardsAgree, Injective, AllRows, AllNames, SeededPaths, SeededFrom, Embeds;
    match t
    case Begin(seed, alloc) => SeedRanksInjective(seed, alloc, |seed|);
    case Resume(alloc, next, nextShard) => SeedRestores(s.shards, alloc, next);
    case _ =>
  }

  lemma IdsStep(c: World, s: State, t: Step)
    requires IdsInv(c, s) && Can(c, s, t)
    ensures IdsInv(c, Apply(c, s, t))
  {
    hide IdsInv, Can;
    if !RunStep(t) { hide Apply; IdsStart(c, s, t); }
    else if t.Ingest? { IdsIngest(c, s, t.w, t.row); }
    else if t.Subtract? { hide Apply; IdsSubtract(c, s, t.w); }
    else if t.WriteShard? { IdsWrite(c, s, t.w, t.ok); }
    else { hide Apply; IdsQuiet(c, s, t); }
  }

  lemma {:induction false} IdsAlways(c: World, ss: seq<State>, steps: seq<Step>, i: nat)
    requires History(c, ss, steps) && i < |ss|
    ensures IdsInv(c, ss[i])
  {
    hide Apply, Can;
    if i > 0 {
      IdsAlways(c, ss, steps, i - 1);
      assert Can(c, ss[i - 1], steps[i - 1]) && ss[i - 1 + 1] == Apply(c, ss[i - 1], steps[i - 1]);
      IdsStep(c, ss[i - 1], steps[i - 1]);
    }
  }

  // ---------------------------------------------------------------- main results

  ghost function ShardNames(s: State): set<(nat, Path)>
  {
    set i, id | i in s.shards && id in s.shards[i].files :: (id, s.shards[i].files[id])
  }

  /** Over any history of runs, interleaved interns, snapshots, crashes and resumes, no id
      in the durable shards names two paths and no path has two ids. */
  lemma DurableIdsAgree(c: World, ss: seq<State>, steps: seq<Step>, i: nat)
    requires History(c, ss, steps) && i < |ss|
    ensures OneToOne(ShardNames(ss[i]))
  {
    hide History;
    IdsAlways(c, ss, steps, i);
    var s := ss[i];
    forall x, y | x in ShardNames(s) && y in ShardNames(s) ensures x.0 == y.0 <==> x.1 == y.1 {
      var k, id :| k in s.shards && id in s.shards[k].files && x == (id, s.shards[k].files[id]);
      var m, jd :| m in s.shards && jd in s.shards[m].files && y == (jd, s.shards[m].files[jd]);
    }
  }

  /** A step of a run never renumbers a path. */
  lemma AllocGrows(c: World, s: State, t: Step, p: Path)
    requires Can(c, s, t) && !t.Begin? && !t.Resume? && p in s.alloc
    ensures p in Apply(c, s, t).alloc && Apply(c, s, t).alloc[p] == s.alloc[p]
  {
    hide CusOf, Protocol.RowsOf, AccessedTable, Count, Injective, AllRows, AllNames;
    if RunStep(t) { Footprint(c, s, t); }
  }

  /** After `seed_paths`, whatever the interleaving of the steps that follow, every seeded
      path keeps its rank for the whole run. */
  lemma {:induction false} SeededRankStays(c: World, ss: seq<State>, steps: seq<Step>, b: nat, i: nat, r: nat)
    requires History(c, ss, steps) && b < i < |ss| && steps[b].Begin? && r < |steps[b].seed|
    requires forall k | b < k < i :: !steps[k].Begin? && !steps[k].Resume?
    ensures steps[b].seed[r] in ss[i].alloc && ss[i].alloc[steps[b].seed[r]] == r
  {
    var k := i - 1;
    assert Can(c, ss[k], steps[k]) && ss[k + 1] == Apply(c, ss[k], steps[k]);
    if k > b {
      hide Can, Apply;
      SeededRankStays(c, ss, steps, b, k, r);
      AllocGrows(c, ss[k], steps[k], steps[b].seed[r]);
    }
  }

  /** ... so a row a worker has just interned for a seeded path carries exactly that rank. */
  lemma SeededInternIsRank(c: World, ss: seq<State>, steps: seq<Step>, b: nat, i: nat, r: nat, w: nat, key: nat)
    requires History(c, ss, steps) && b < i < |steps| && steps[b].Begin? && r < |steps[b].seed|
    requires forall k | b < k < i :: !steps[k].Begin? && !steps[k].Resume?
    requires steps[i] == Ingest(w, LRow(key, steps[b].seed[r])) && w < |ss[i + 1].pcs|
    ensures ss[i + 1].pcs[w].Body? && IRow(key, r) in ss[i + 1].pcs[w].got
    ensures forall q | q in ss[i].pcs[w].got :: q in ss[i + 1].pcs[w].got
  {
    SeededRankStays(c, ss, steps, b, i, r);
    assert Can(c, ss[i], steps[i]) && ss[i + 1] == AfterIngest(ss[i], w, steps[i].row);
  }
}
