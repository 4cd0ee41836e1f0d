/** Durability over whole histories: the checkpoint never names a CU whose rows are not in
    a durable shard, and a finished build holds exactly the rows of the successful CUs. */
module ProtocolDurable {
  import opened Bytes
  import opened Protocol
  import opened ProtocolIds
  import opened ProtocolRows
  import ProtocolGate

  /** The worker's current CU is not in its sink yet. */
  predicate Before(pc: Pc)
  {
    pc.Idle? || pc.Registered? || pc.BackedOff? || pc.Parked? || pc.Body? || pc.InSink?
  }

  /** Entry `j` of the plan, unit `u`, is still ahead of the worker whose stripe it is on. */
  ghost predicate Waiting(c: World, s: State, j: nat, u: Cu)
    requires WorldOk(c) && Shape(c, s)
  {
    j < |s.plan| && s.plan[j] == u && (s.idx[j % c.workers] < j || (s.idx[j % c.workers] == j && Before(s.pcs[j % c.workers])))
  }

  ghost predicate InSinks(s: State, u: Cu)
  {
    exists w :: 0 <= w < |s.sinks| && u in CusOf(s.sinks[w])
  }

  /** Nothing is lost: a successful CU is durable, buffered or still to come. */
  ghost predicate Covered(c: World, s: State, u: Cu)
    requires WorldOk(c) && Shape(c, s)
  {
    u in DurableCus(s) || u in CusOf(s.acc) || InSinks(s, u) || exists j: nat :: Waiting(c, s, j, u)
  }

  ghost predicate AllCovered(c: World, s: State)
    requires WorldOk(c) && Shape(c, s)
  {
    forall u | u in c.succeeds :: Covered(c, s, u)
  }

  ghost predicate Striped(c: World, s: State)
    requires WorldOk(c) && Shape(c, s)
  {
    forall w | 0 <= w < c.workers :: s.idx[w] % c.workers == w
  }

  /** CUs whose shard is durable and whose checkpoint entry is under way. */
  function Staged(pc: Pc): set<Cu>
  {
    if pc.Written? || pc.Committing? then pc.staged else {}
  }

  ghost predicate CheckpointOk(s: State)
  {
    s.checkpoint.Some? ==> s.shards != map[] && s.checkpoint.value <= DurableCus(s)
  }

  ghost predicate StagedOk(c: World, s: State)
    requires Shape(c, s)
  {
    && s.committed <= DurableCus(s)
    && (forall w | 0 <= w < c.workers :: Staged(s.pcs[w]) <= DurableCus(s))
    && (forall w | 0 <= w < c.workers && s.pcs[w].Written? :: s.shards != map[])
  }

  ghost predicate DurableInv(c: World, s: State)
    requires WorldOk(c)
  {
    && CheckpointOk(s)
    && (s.phase == Running ==> Shape(c, s) && Striped(c, s) && StagedOk(c, s) && (!s.failed ==> AllCovered(c, s)))
  }

  // ---------------------------------------------------------------- moves that lose nothing

  lemma NextOnStripe(n: nat, i: nat, j: nat)
    requires n >= 1 && i < j && i % n == j % n
    ensures i + n <= j
  {
    assert i == n * (i / n) + i % n && j == n * (j / n) + j % n;
    var d := j / n - i / n;
    assert n * d == j - i;
    Grows(n, d);
  }

  /** A worker that stays on its entry, or steps over one that needs nothing more, leaves
      every other successful entry waiting. */
  lemma StillWaiting(c: World, s: State, s': State, w: nat, j: nat, u: Cu)
    requires WorldOk(c) && Shape(c, s) && Shape(c, s') && w < c.workers && s'.plan == s.plan && Waiting(c, s, j, u)
    requires forall v | 0 <= v < c.workers && v != w :: s'.pcs[v] == s.pcs[v] && s'.idx[v] == s.idx[v]
    requires s'.idx[w] == s.idx[w] || (s'.idx[w] == s.idx[w] + c.workers && !Before(s.pcs[w]) && s'.pcs[w] == Idle)
    requires s.idx[w] % c.workers == w
    requires s'.idx[w] == s.idx[w] && Before(s.pcs[w]) && !Before(s'.pcs[w]) ==> s.idx[w] < |s.plan| && Current(s, w) != u
    ensures Waiting(c, s', j, u)
  {
    if j % c.workers == w && s'.idx[w] != s.idx[w] { NextOnStripe(c.workers, s.idx[w], j); }
  }

  /** A step that keeps buffers and shards, and drops no successful CU from the plan. */
  lemma CoveredMove(c: World, s: State, s': State, w: nat)
    requires WorldOk(c) && Shape(c, s) && Shape(c, s') && w < c.workers && s'.plan == s.plan
    requires Striped(c, s) && AllCovered(c, s)
    requires s'.shards == s.shards && s'.acc == s.acc && s'.sinks == s.sinks
    requires forall v | 0 <= v < c.workers && v != w :: s'.pcs[v] == s.pcs[v] && s'.idx[v] == s.idx[v]
    requires s'.idx[w] == s.idx[w] || (s'.idx[w] == s.idx[w] + c.workers && !Before(s.pcs[w]) && s'.pcs[w] == Idle)
    requires s'.idx[w] == s.idx[w] && Before(s.pcs[w]) && !Before(s'.pcs[w]) ==>
      s.idx[w] < |s.plan| && Current(s, w) !in c.succeeds
    ensures AllCovered(c, s')
  {
    hide DurableCus, CusOf, Waiting, Before;
    SameShards(s, s');
    forall u | u in c.succeeds ensures Covered(c, s', u) {
      assert Covered(c, s, u);
      if exists j: nat :: Waiting(c, s, j, u) {
        var j: nat :| Waiting(c, s, j, u);
        StillWaiting(c, s, s', w, j, u);
        assert Waiting(c, s', j, u);
      }
    }
  }

  /** Buffers and shards change hands; the plan does not. */
  lemma CoveredHandover(c: World, s: State, s': State)
    requires WorldOk(c) && Shape(c, s) && Shape(c, s') && s'.plan == s.plan && s'.idx == s.idx
    requires AllCovered(c, s)
    requires forall v | 0 <= v < c.workers && Before(s.pcs[v]) :: Before(s'.pcs[v])
    requires forall u | u in DurableCus(s) || u in CusOf(s.acc) || InSinks(s, u) ::
      u in DurableCus(s') || u in CusOf(s'.acc) || InSinks(s', u)
    ensures AllCovered(c, s')
  {
    hide DurableCus, CusOf, InSinks;
    forall u | u in c.succeeds ensures Covered(c, s', u) {
      assert Covered(c, s, u);
      if exists j: nat :: Waiting(c, s, j, u) {
        var j: nat :| Waiting(c, s, j, u);
        assert Waiting(c, s', j, u);
      }
    }
  }

  // ---------------------------------------------------------------- quiet steps

  ghost predicate Simple(t: Step)
  {
    RunStep(t) && !t.MergeSink? && !t.Drain? && !t.WriteShard? && !t.WriteCheckpoint? && !t.Commit?
  }

  lemma SimpleLands(c: World, s: State, t: Step)
    requires Can(c, s, t) && Simple(t)
    ensures Shape(c, s) && Shape(c, Apply(c, s, t)) && t.w < c.workers
    ensures Staged(Apply(c, s, t).pcs[t.w]) == {} && !Apply(c, s, t).pcs[t.w].Written?
    ensures t.EndCu? ==> !Before(s.pcs[t.w]) && Apply(c, s, t).pcs[t.w] == Idle && Apply(c, s, t).idx == s.idx[t.w := s.idx[t.w] + c.workers]
    ensures Before(s.pcs[t.w]) && !Before(Apply(c, s, t).pcs[t.w]) ==> s.idx[t.w] < |s.plan| && Current(s, t.w) !in c.succeeds
  {
    hide AccessedTable, Injective, Shape;
    Shapes(c, s, t);
    if SnapStep(t) {} else {}
  }

  lemma Shapes(c: World, s: State, t: Step)
    requires Can(c, s, t) && RunStep(t)
    ensures Shape(c, s) && Shape(c, Apply(c, s, t)) && t.w < c.workers
    ensures |s.pcs| == |Apply(c, s, t).pcs| == |s.idx| == |Apply(c, s, t).idx| == c.workers
  {
    hide Can, Apply;
    Footprint(c, s, t);
  }

  lemma DurableSimple(c: World, s: State, t: Step)
    requires WorldOk(c) && DurableInv(c, s) && Can(c, s, t) && Simple(t)
    ensures DurableInv(c, Apply(c, s, t))
  {
    hide Can, Apply, AllCovered, DurableCus, Before, WorldOk;
    Footprint(c, s, t);
    SimpleLands(c, s, t);
    SameShards(s, Apply(c, s, t));
    if !s.failed { CoveredMove(c, s, Apply(c, s, t), t.w); }
    StripeKept(c, s, t);
  }

  lemma SameShards(s: State, s': State)
    requires s'.shards == s.shards
    ensures DurableCus(s') == DurableCus(s)
  {
  }

  lemma StripeKept(c: World, s: State, t: Step)
    requires WorldOk(c) && Can(c, s, t) && Simple(t) && Shape(c, s) && Shape(c, Apply(c, s, t)) && Striped(c, s)
    ensures Striped(c, Apply(c, s, t))
  {
    hide Can, Apply;
    Footprint(c, s, t);
    SimpleLands(c, s, t);
    forall w | 0 <= w < c.workers ensures Apply(c, s, t).idx[w] % c.workers == w {
      if t.EndCu? && w == t.w { ModPlus(s.idx[w], c.workers); }
    }
  }

  lemma ModPlus(i: nat, n: nat)
    requires n >= 1
    ensures (i + n) % n == i % n
  {
    assert i + n == n * (i / n + 1) + i % n;
    ModUnique(i + n, n, i / n + 1, i % n);
  }

  lemma ModUnique(a: nat, n: nat, q: nat, r: nat)
    requires n >= 1 && a == n * q + r && r < n
    ensures a % n == r
  {
    var d := a / n - q;
    assert n * d == r - a % n;
    Grows(n, d);
    Grows(n, -d);
  }

  lemma Grows(n: nat, d: int)
    ensures d >= 1 ==> n * d >= n
    ensures d <= 0 ==> n * d <= 0
  {
  }

  lemma DurableCheckpoint(c: World, s: State, w: nat, ok: bool)
    requires WorldOk(c) && DurableInv(c, s) && Can(c, s, WriteCheckpoint(w, ok))
    ensures DurableInv(c, Apply(c, s, WriteCheckpoint(w, ok)))
  {
    hide AllCovered, DurableCus, WorldOk;
    var s' := Apply(c, s, WriteCheckpoint(w, ok));
    SameShards(s, s');
    if !s.failed { hide Striped; CoveredMove(c, s, s', w); }
  }

  lemma DurableCommit(c: World, s: State, w: nat)
    requires WorldOk(c) && DurableInv(c, s) && Can(c, s, Commit(w))
    ensures DurableInv(c, Apply(c, s, Commit(w)))
  {
    hide AllCovered, DurableCus, WorldOk;
    var s' := Apply(c, s, Commit(w));
    SameShards(s, s');
    if !s.failed { CoveredMove(c, s, s', w); }
  }

  // ---------------------------------------------------------------- handing CUs over

  /** Folding a CU into the sink: its entry stops waiting because its sha is buffered. */
  lemma MergeCovers(c: World, s: State, w: nat)
    requires WorldOk(c) && Shape(c, s) && AllCovered(c, s) && Can(c, s, MergeSink(w))
    ensures Shape(c, Apply(c, s, MergeSink(w))) && AllCovered(c, Apply(c, s, MergeSink(w)))
  {
    var s' := Apply(c, s, MergeSink(w));
    var b := Batch(Current(s, w), s.pcs[w].got);
    SameShards(s, s');
    forall u | u in c.succeeds ensures Covered(c, s', u) {
      hide DurableCus, CusOf;
      assert Covered(c, s, u);
      SinkGrows(s.sinks[w], b);
      if InSinks(s, u) {
        var v :| 0 <= v < |s.sinks| && u in CusOf(s.sinks[v]);
        assert u in CusOf(s'.sinks[v]);
      } else if exists j: nat :: Waiting(c, s, j, u) {
        var j: nat :| Waiting(c, s, j, u);
        if j == s.idx[w] {
          assert u in CusOf(s'.sinks[w]);
        } else {
          assert Waiting(c, s', j, u);
        }
      }
    }
  }

  lemma SinkGrows(bs: seq<Batch>, b: Batch)
    ensures CusOf(bs + [b]) == CusOf(bs) + {b.cu}
  {
    forall u | u in CusOf(bs) ensures u in CusOf(bs + [b]) {
      var i :| 0 <= i < |bs| && bs[i].cu == u;
      assert (bs + [b])[i].cu == u;
    }
    assert (bs + [b])[|bs|] == b;
  }

  lemma CusConcat(a: seq<Batch>, b: seq<Batch>)
    ensures CusOf(a + b) == CusOf(a) + CusOf(b)
  {
    forall u | u in CusOf(a) ensures u in CusOf(a + b) {
      var i :| 0 <= i < |a| && a[i].cu == u;
      assert (a + b)[i].cu == u;
    }
    forall u | u in CusOf(b) ensures u in CusOf(a + b) {
      var i :| 0 <= i < |b| && b[i].cu == u;
      assert (a + b)[|a| + i].cu == u;
    }
  }

  lemma DurableMerge(c: World, s: State, w: nat)
    requires WorldOk(c) && DurableInv(c, s) && Can(c, s, MergeSink(w))
    ensures DurableInv(c, Apply(c, s, MergeSink(w)))
  {
    hide AllCovered, DurableCus, WorldOk;
    if !s.failed { MergeCovers(c, s, w); }
    SameShards(s, Apply(c, s, MergeSink(w)));
  }

  lemma DrainHands(s: State, w: nat, u: Cu)
    requires w < |s.pcs| && s.pcs[w].Draining? && s.pcs[w].k < |s.sinks| && |s.pcs| == |s.sinks|
    requires u in CusOf(s.acc) || InSinks(s, u)
    ensures u in CusOf(AfterDrain(s, w).acc) || InSinks(AfterDrain(s, w), u)
  {
    hide CusOf, Count;
    var k, s' := s.pcs[w].k, AfterDrain(s, w);
    CusConcat(s.acc, s.sinks[k]);
    if InSinks(s, u) {
      var v :| 0 <= v < |s.sinks| && u in CusOf(s.sinks[v]);
      if v != k || HoldsSink(s.pcs[k]) { assert u in CusOf(s'.sinks[v]); }
    }
  }

  lemma DrainLands(c: World, s: State, w: nat)
    requires Can(c, s, Drain(w))
    ensures Shape(c, AfterDrain(s, w)) && AfterDrain(s, w).pcs[w].Draining? && s.pcs[w].Draining?
    ensures AfterDrain(s, w) == s.(acc := AfterDrain(s, w).acc, sinks := AfterDrain(s, w).sinks, pcs := s.pcs[w := AfterDrain(s, w).pcs[w]])
  {
    hide Count;
  }

  lemma DurableDrain(c: World, s: State, w: nat)
    requires WorldOk(c) && DurableInv(c, s) && Can(c, s, Drain(w))
    ensures DurableInv(c, AfterDrain(s, w))
  {
    DrainLands(c, s, w);
    hide AllCovered, DurableCus, WorldOk, CusOf, InSinks, AfterDrain;
    var s' := AfterDrain(s, w);
    SameShards(s, s');
    forall u | u in CusOf(s.acc) || InSinks(s, u) ensures u in CusOf(s'.acc) || InSinks(s', u) { DrainHands(s, w, u); }
    if !s.failed { CoveredHandover(c, s, s'); }
  }

  /** A new shard under a fresh index keeps the old ones and adds its CUs. */
  lemma ShardAdded(s: State, s': State, n: nat, sh: Shard)
    requires n !in s.shards && s'.shards == s.shards[n := sh]
    ensures DurableCus(s') == DurableCus(s) + sh.cus
  {
    forall u | u in DurableCus(s) ensures u in DurableCus(s') {
      var i :| i in s.shards && u in s.shards[i].cus;
      assert i in s'.shards && u in s'.shards[i].cus;
    }
    forall u | u in sh.cus ensures u in DurableCus(s') { assert n in s'.shards; }
  }

  lemma DurableWrite(c: World, s: State, w: nat, ok: bool)
    requires WorldOk(c) && DurableInv(c, s) && IdsInv(c, s) && Can(c, s, WriteShard(w, ok))
    ensures DurableInv(c, AfterWrite(s, w, ok))
  {
    hide AllCovered, DurableCus, WorldOk, CusOf, Protocol.RowsOf, ShardsAgree, AllocOk, TablesOk;
    var s' := AfterWrite(s, w, ok);
    if ok {
      assert s.nextShard in s'.shards;
      ShardAdded(s, s', s.nextShard, Shard(CusOf(s.acc), Protocol.RowsOf(s.acc), s.pcs[w].files));
      if !s.failed {
        assert InSinksSame(s, s');
        CoveredHandover(c, s, s');
      }
    } else {
      SameShards(s, s');
    }
  }

  ghost predicate InSinksSame(s: State, s': State)
  {
    forall u | InSinks(s, u) :: InSinks(s', u)
  }

  // ---------------------------------------------------------------- starting

  lemma ModSmall(j: nat, n: nat)
    requires n >= 1
    ensures j % n <= j && j % n < n
  {
  }

  lemma StartWaits(c: World, s: State, j: nat, u: Cu)
    requires WorldOk(c) && Shape(c, s) && j < |s.plan| && s.plan[j] == u
    requires forall w | 0 <= w < c.workers :: s.pcs[w] == Idle && s.idx[w] == w
    ensures Waiting(c, s, j, u)
  {
    assert c.workers >= 1;
    hide WorldOk;
    ModSmall(j, c.workers);
  }

  lemma StartStriped(c: World, s: State)
    requires WorldOk(c) && Shape(c, s) && forall w | 0 <= w < c.workers :: s.idx[w] == w
    ensures Striped(c, s)
  {
    assert c.workers >= 1;
    hide WorldOk;
    forall w | 0 <= w < c.workers ensures s.idx[w] % c.workers == w { ModUnique(w, c.workers, 0, w); }
  }

  lemma StartCovers(c: World, s: State, done: set<Cu>, alloc: map<Path, nat>, next: nat, nextShard: nat)
    requires WorldOk(c) && CheckpointOk(s) && done <= DurableCus(s)
    ensures DurableInv(c, Started(c, s, Without(c.units, done), done, alloc, next, nextShard))
  {
    hide DurableCus, Without, Striped, Waiting;
    var plan := Without(c.units, done);
    var s' := Started(c, s, plan, done, alloc, next, nextShard);
    SameShards(s, s');
    StartStriped(c, s');
    forall u | u in c.succeeds ensures Covered(c, s', u) {
      if u !in done {
        var j :| 0 <= j < |plan| && plan[j] == u;
        StartWaits(c, s', j, u);
      }
    }
  }

  lemma {:induction false} WithoutNothing(units: seq<Cu>)
    ensures Without(units, {}) == units
  {
    if units != [] {
      var n := |units| - 1;
      WithoutNothing(units[..n]);
      assert Without(units, {}) == Without(units[..n], {}) + [units[n]];
      hide Without;
      assert units == units[..n] + [units[n]];
    }
  }

  lemma DurableStart(c: World, s: State, t: Step)
    requires WorldOk(c) && DurableInv(c, s) && Can(c, s, t) && !RunStep(t)
    ensures DurableInv(c, Apply(c, s, t))
  {
    hide DurableCus, WorldOk, AllRows, AllNames, SeededPaths, SeededFrom, Started, Without;
    match t
    case Begin(seed, alloc) =>
      WithoutNothing(c.units);
      StartCovers(c, s, {}, alloc, |seed|, 0);
    case Resume(alloc, next, nextShard) =>
      StartCovers(c, s, if s.checkpoint.Some? then s.checkpoint.value else {}, alloc, next, nextShard);
    case Crash => SameShards(s, s.(phase := Stopped));
    case Finish => SameShards(s, Apply(c, s, Finish));
  }

  // ---------------------------------------------------------------- every step, every history

  lemma DurableStep(c: World, s: State, t: Step)
    requires WorldOk(c) && DurableInv(c, s) && IdsInv(c, s) && Can(c, s, t)
    ensures DurableInv(c, Apply(c, s, t))
  {
    hide DurableInv, Can, IdsInv, WorldOk;
    if t.Drain? { DurableDrain(c, s, t.w); }
    else if t.WriteShard? { DurableWrite(c, s, t.w, t.ok); }
    else {
      hide Apply;
      if !RunStep(t) { DurableStart(c, s, t); }
      else if t.MergeSink? { DurableMerge(c, s, t.w); }
      else if t.WriteCheckpoint? { DurableCheckpoint(c, s, t.w, t.ok); }
      else if t.Commit? { DurableCommit(c, s, t.w); }
      else { DurableSimple(c, s, t); }
    }
  }

  lemma {:induction false} DurableAlways(c: World, ss: seq<State>, steps: seq<Step>, i: nat)
    requires WorldOk(c) && History(c, ss, steps) && i < |ss|
    ensures DurableInv(c, ss[i])
  {
    hide Apply, Can;
    if i > 0 {
      DurableAlways(c, ss, steps, i - 1);
      IdsAlways(c, ss, steps, i - 1);
      assert Can(c, ss[i - 1], steps[i - 1]) && ss[i - 1 + 1] == Apply(c, ss[i - 1], steps[i - 1]);
      hide WorldOk;
      DurableStep(c, ss[i - 1], steps[i - 1]);
    }
  }

  /** In every reachable state each sha in the checkpoint is a successful CU all of whose
      rows are in one durable shard, and resuming never meets a checkpoint without shards. */
  lemma CheckpointIsDurable(c: World, ss: seq<State>, steps: seq<Step>, i: nat, u: Cu)
    requires WorldOk(c) && History(c, ss, steps) && i < |ss|
    requires ss[i].checkpoint.Some? && u in ss[i].checkpoint.value
    ensures u in c.succeeds
    ensures exists k :: k in ss[i].shards && HoldsUnit(c, ss[i].shards[k], u)
  {
    hide History;
    DurableAlways(c, ss, steps, i);
    RowsAlways(c, ss, steps, i);
    var s := ss[i];
    assert u in DurableCus(s);
    var k :| k in s.shards && u in s.shards[k].cus;
    assert ShardOk(c, s.shards[k]);
    assert HoldsUnit(c, s.shards[k], u);
  }

  lemma CheckpointHasShards(c: World, ss: seq<State>, steps: seq<Step>, i: nat)
    requires WorldOk(c) && History(c, ss, steps) && i < |ss| && ss[i].checkpoint.Some?
    ensures ss[i].shards != map[]
  {
    DurableAlways(c, ss, steps, i);
  }

  // ---------------------------------------------------------------- the finished build

  /** The path-labelled rows a reader of the finished index sees. */
  ghost function Resolved(rows: set<IRow>, names: set<(nat, Path)>): set<LRow>
  {
    set r, n | r in rows && n in names && n.0 == r.file :: LRow(r.key, n.1)
  }

  ghost function Expected(c: World): set<LRow>
  {
    set u, l | u in c.succeeds && u in c.rows && l in c.rows[u] :: l
  }

  ghost predicate FinalOk(c: World, rows: set<IRow>, names: set<(nat, Path)>)
  {
    OneToOne(names) && (forall r | r in rows :: exists n :: n in names && n.0 == r.file) && Resolved(rows, names) == Expected(c)
  }

  /** All names the final merge sees are the allocator's. */
  lemma NamesEmbedded(c: World, s: State, n: (nat, Path))
    requires IdsInv(c, s) && s.phase == Running && Injective(s.alloc) && n in AllNames(s)
    ensures n.1 in s.alloc && s.alloc[n.1] == n.0
  {
    if n !in (set id | id in AccessedTable(s) :: (id, AccessedTable(s)[id])) {
      var i, id :| i in s.shards && id in s.shards[i].files && n == (id, s.shards[i].files[id]);
      assert Embeds(s.shards[i].files, s.alloc);
    }
  }

  lemma NamesOneToOne(c: World, s: State)
    requires IdsInv(c, s) && s.phase == Running && Injective(s.alloc)
    ensures OneToOne(AllNames(s))
  {
    hide IdsInv, AllNames;
    forall x, y | x in AllNames(s) && y in AllNames(s) ensures x.0 == y.0 <==> x.1 == y.1 {
      NamesEmbedded(c, s, x);
      NamesEmbedded(c, s, y);
    }
  }

  /** A buffered or durable row has a name, and that name makes it an expected row. */
  ghost predicate RowNamed(c: World, names: set<(nat, Path)>, r: IRow)
  {
    exists n :: n in names && n.0 == r.file && LRow(r.key, n.1) in Expected(c)
  }

  lemma ShardRowNamed(c: World, s: State, i: nat, r: IRow)
    requires Injective(s.alloc) && i in s.shards && ShardOk(c, s.shards[i]) && r in s.shards[i].rows
    ensures RowNamed(c, AllNames(s), r)
  {
    var n := (r.file, s.shards[i].files[r.file]);
    assert n in AllNames(s);
  }

  lemma BatchRowNamed(c: World, s: State, b: Batch, r: IRow)
    requires Injective(s.alloc) && BatchOk(c, s.alloc, s.accessed, b) && r in b.rows
    ensures RowNamed(c, AllNames(s), r)
  {
    var l :| l in c.rows[b.cu] && l.path in s.alloc && r == IRow(l.key, s.alloc[l.path]);
    var n := (r.file, l.path);
    assert AccessedTable(s)[r.file] == l.path;
    assert n in AllNames(s) && LRow(r.key, n.1) == l;
  }

  lemma EveryRowNamed(c: World, s: State, r: IRow)
    requires RowsInv(c, s) && s.phase == Running && Injective(s.alloc) && r in AllRows(s)
    ensures RowNamed(c, AllNames(s), r)
  {
    hide AllNames, BatchOk, ShardOk, PcsOk, RowNamed, Injective;
    if i :| i in s.shards && r in s.shards[i].rows { ShardRowNamed(c, s, i, r); }
    else if r in Protocol.RowsOf(s.acc) {
      var i :| 0 <= i < |s.acc| && r in s.acc[i].rows;
      BatchRowNamed(c, s, s.acc[i], r);
    } else {
      var w :| 0 <= w < |s.sinks| && r in Protocol.RowsOf(s.sinks[w]);
      assert BufferOk(c, s.alloc, s.accessed, s.sinks[w]);
      var i :| 0 <= i < |s.sinks[w]| && r in s.sinks[w][i].rows;
      BatchRowNamed(c, s, s.sinks[w][i], r);
    }
  }

  /** A labelled row is present if some name and some row say so. */
  ghost predicate Present(rows: set<IRow>, names: set<(nat, Path)>, l: LRow)
  {
    exists n :: n in names && n.1 == l.path && IRow(l.key, n.0) in rows
  }

  lemma ShardPresent(c: World, s: State, i: nat, u: Cu, l: LRow)
    requires Injective(s.alloc) && i in s.shards && ShardOk(c, s.shards[i]) && u in s.shards[i].cus && l in c.rows[u]
    ensures Present(AllRows(s), AllNames(s), l)
  {
    assert HoldsUnit(c, s.shards[i], u);
    var id :| id in s.shards[i].files && s.shards[i].files[id] == l.path && IRow(l.key, id) in s.shards[i].rows;
    assert (id, l.path) in AllNames(s) && IRow(l.key, id) in AllRows(s);
  }

  lemma BatchPresent(c: World, s: State, b: Batch, l: LRow)
    requires Injective(s.alloc) && BatchOk(c, s.alloc, s.accessed, b) && l in c.rows[b.cu] && b.rows <= AllRows(s)
    ensures Present(AllRows(s), AllNames(s), l)
  {
    hide AllRows;
    var id := s.alloc[l.path];
    assert AccessedTable(s)[id] == l.path;
    assert (id, l.path) in AllNames(s);
  }

  /** At the end of a run nothing waits: each successful CU is durable or buffered. */
  lemma AllPresent(c: World, s: State, u: Cu, l: LRow)
    requires WorldOk(c) && RowsInv(c, s) && DurableInv(c, s) && Can(c, s, Finish)
    requires u in c.succeeds && u in c.rows && l in c.rows[u]
    ensures Present(AllRows(s), AllNames(s), l)
  {
    hide AllNames, BatchOk, ShardOk, PcsOk, Present, Injective, AllRows, WorldOk, CheckpointOk, StagedOk;
    assert Covered(c, s, u);
    NothingWaits(c, s);
    if u in DurableCus(s) {
      var i :| i in s.shards && u in s.shards[i].cus;
      ShardPresent(c, s, i, u, l);
    } else if u in CusOf(s.acc) {
      var i :| 0 <= i < |s.acc| && s.acc[i].cu == u;
      AccRows(s, i);
      BatchPresent(c, s, s.acc[i], l);
    } else {
      var w :| 0 <= w < |s.sinks| && u in CusOf(s.sinks[w]);
      assert BufferOk(c, s.alloc, s.accessed, s.sinks[w]);
      var i :| 0 <= i < |s.sinks[w]| && s.sinks[w][i].cu == u;
      SinkRows(s, w, i);
      BatchPresent(c, s, s.sinks[w][i], l);
    }
  }

  lemma NothingWaits(c: World, s: State)
    requires WorldOk(c) && Can(c, s, Finish)
    ensures forall j: nat, u :: !Waiting(c, s, j, u)
  {
    forall j: nat, u ensures !Waiting(c, s, j, u) {
      if j < |s.plan| {
        var w := j % c.workers;
        assert s.idx[w] >= |s.plan|;
      }
    }
  }

  lemma AccRows(s: State, i: nat)
    requires i < |s.acc|
    ensures s.acc[i].rows <= AllRows(s)
  {
    forall r | r in s.acc[i].rows ensures r in AllRows(s) { assert r in Protocol.RowsOf(s.acc); }
  }

  lemma SinkRows(s: State, w: nat, i: nat)
    requires w < |s.sinks| && i < |s.sinks[w]|
    ensures s.sinks[w][i].rows <= AllRows(s)
  {
    forall r | r in s.sinks[w][i].rows ensures r in AllRows(s) { assert r in Protocol.RowsOf(s.sinks[w]); }
  }

  lemma FinishIsExact(c: World, s: State)
    requires WorldOk(c) && IdsInv(c, s) && RowsInv(c, s) && DurableInv(c, s) && Can(c, s, Finish)
    ensures FinalOk(c, AllRows(s), AllNames(s))
  {
    assert s.phase == Running && Injective(s.alloc);
    hide WorldOk, IdsInv, RowsInv, DurableInv, Can, AllRows, AllNames;
    NamesOneToOne(c, s);
    var rows, names := AllRows(s), AllNames(s);
    forall r | r in rows ensures RowNamed(c, names, r) { EveryRowNamed(c, s, r); }
    forall l | l in Resolved(rows, names) ensures l in Expected(c) {
      var r, n :| r in rows && n in names && n.0 == r.file && l == LRow(r.key, n.1);
      assert RowNamed(c, names, r);
    }
    forall l | l in Expected(c) ensures l in Resolved(rows, names) {
      var u :| u in c.succeeds && u in c.rows && l in c.rows[u];
      AllPresent(c, s, u, l);
      var n :| n in names && n.1 == l.path && IRow(l.key, n.0) in rows;
      assert LRow(IRow(l.key, n.0).key, n.1) == l;
    }
  }

  /** After any number of crashes and accepted resumes, a build that finishes holds exactly
      the rows of the successful CUs: none lost, none invented, re-runs absorbed, every row
      under a file name, and names one-to-one. */
  lemma FinishedBuildIsExact(c: World, ss: seq<State>, steps: seq<Step>, i: nat)
    requires WorldOk(c) && History(c, ss, steps) && i < |steps| && steps[i].Finish?
    ensures ss[i + 1].phase == Done && FinalOk(c, ss[i + 1].finalRows, ss[i + 1].finalNames)
  {
    assert Can(c, ss[i], Finish) && ss[i + 1] == Apply(c, ss[i], Finish);
    IdsAlways(c, ss, steps, i);
    RowsAlways(c, ss, steps, i);
    DurableAlways(c, ss, steps, i);
    hide FinalOk, History, IdsInv, RowsInv, DurableInv, WorldOk, AllRows, AllNames;
    FinishIsExact(c, ss[i]);
  }
}
