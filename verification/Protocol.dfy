/** The `from-kzip` snapshot, crash and resume protocol as a state machine.

    Workers stripe a plan of compilation units, ingest each into a private builder, fold
    it into their own sink, and now and then one of them becomes the snapshotter: it
    raises the park gate, drains the sinks it can lock, writes a shard, then the
    checkpoint. A crash may strike between any two steps and loses everything but the
    shards and the checkpoint. Each step below is one access to shared state or one
    critical section; a few join accesses that follow each other directly: taking the writer
    lock and raising the gate, subtracting from the gauge and copying the file table,
    committing and lowering the gate, and the guards dropped after a failed shard write. */
module Protocol {
  import opened Bytes

  type Cu = nat
  type Path = nat

  /** A row as a CU produces it, and as a builder stores it under an interned file id. */
  datatype LRow = LRow(key: nat, path: Path)
  datatype IRow = IRow(key: nat, file: nat)

  /** The world a build runs in: the units of the kzip, which of them index cleanly, and
      what each produces. */
  datatype World = World(workers: nat, units: seq<Cu>, succeeds: set<Cu>, rows: map<Cu, set<LRow>>)

  ghost predicate WorldOk(c: World)
  {
    && c.workers >= 1
    && (forall i, j :: 0 <= i < j < |c.units| ==> c.units[i] != c.units[j])
    && (forall u :: u in c.units ==> u in c.rows)
    && (forall u :: u in c.succeeds ==> u in c.units)
  }

  /** One CU folded into a builder: its sha and its deduplicated rows. */
  datatype Batch = Batch(cu: Cu, rows: set<IRow>)

  /** A durable delta shard. */
  datatype Shard = Shard(cus: set<Cu>, rows: set<IRow>, files: map<nat, Path>)

  datatype Pc =
    | Idle                                       // before the next CU of the stripe
    | Registered                                 // counted in-flight, gate not yet checked
    | BackedOff                                  // saw the gate up, about to uncount
    | Parked
    | Body(todo: set<LRow>, got: set<IRow>)      // ingesting
    | InSink(got: set<IRow>)                     // holds its sink's lock
    | Merged(rows: nat)                          // rows and sha in the sink, gauge not bumped
    | Added                                      // gauge bumped, lock still held
    | After                                      // CU accounted for
    | SnapWait                                   // gate raised, waiting for quiescence
    | Draining(k: nat, rows: nat, quiet: bool, skipped: bool)
    | Subtracted(files: map<nat, Path>, quiet: bool)
    | Written(staged: set<Cu>, quiet: bool)      // shard durable, checkpoint not yet
    | Committing(staged: set<Cu>, quiet: bool)
    | Leaving                                    // gate lowered, writer lock still held
    | Ending
    | Dead                                       // left with a shard-write error

  datatype Phase = Stopped | Running | Done

  datatype State = State(
    phase: Phase, failed: bool,
    shards: map<nat, Shard>, checkpoint: Option<set<Cu>>,
    plan: seq<Cu>, pcs: seq<Pc>, idx: seq<nat>, sinks: seq<seq<Batch>>,
    acc: seq<Batch>, committed: set<Cu>,
    alloc: map<Path, nat>, accessed: set<Path>, next: nat, nextShard: nat,
    snapActive: bool, active: int, gauge: int, writer: Option<nat>,
    finalRows: set<IRow>, finalNames: set<(nat, Path)>)

  // ---------------------------------------------------------------- helpers

  /** How many rows a buffer of batches counts for on the gauge. */
  ghost function Count(bs: seq<Batch>): nat
  {
    if bs == [] then 0 else Count(bs[..|bs| - 1]) + |bs[|bs| - 1].rows|
  }

  ghost function CusOf(bs: seq<Batch>): set<Cu>
  {
    set i | 0 <= i < |bs| :: bs[i].cu
  }

  ghost function RowsOf(bs: seq<Batch>): set<IRow>
  {
    set i, r | 0 <= i < |bs| && r in bs[i].rows :: r
  }

  /** `push_to`: the (id, path) rows of the paths referenced so far. */
  ghost function AccessedTable(s: State): map<nat, Path>
    requires Injective(s.alloc)
  {
    map p | p in s.accessed && p in s.alloc :: s.alloc[p] := p
  }

  ghost function DurableCus(s: State): set<Cu>
  {
    set i, u | i in s.shards && u in s.shards[i].cus :: u
  }

  predicate HoldsSink(pc: Pc)
  {
    pc.InSink? || pc.Merged? || pc.Added?
  }

  /** The CU worker `w` is on. */
  function Current(s: State, w: nat): Cu
    requires w < |s.idx| && s.idx[w] < |s.plan|
  {
    s.plan[s.idx[w]]
  }

  // ---------------------------------------------------------------- starting a run

  ghost predicate IsFresh(s: State)
  {
    s.shards == map[] && s.checkpoint == None
  }

  ghost function Started(c: World, s: State, plan: seq<Cu>, done: set<Cu>, alloc: map<Path, nat>, next: nat, nextShard: nat): State
  {
    State(Running, false, s.shards, s.checkpoint, plan,
          seq(c.workers, _ => Idle), seq(c.workers, i => i), seq(c.workers, _ => []),
          [], done, alloc, {}, next, nextShard, false, 0, 0, None, {}, {})
  }

  /** Remaining plan after a resume. */
  ghost function Without(units: seq<Cu>, done: set<Cu>): (r: seq<Cu>)
    ensures forall u :: u in r <==> u in units && u !in done
    ensures (forall i, j :: 0 <= i < j < |units| ==> units[i] != units[j]) ==>
      (forall i, j :: 0 <= i < j < |r| ==> r[i] != r[j])
  {
    if units == [] then []
    else
      var n := |units| - 1;
      assert units == units[..n] + [units[n]];
      var before := Without(units[..n], done);
      if units[n] in done then before else before + [units[n]]
  }

  /** The allocator state a resumed run may start from: `seed_from` over every shard,
      first id wins, and a counter past every id. */
  ghost predicate SeededFrom(shards: map<nat, Shard>, alloc: map<Path, nat>, next: nat)
  {
    && (forall i, id | i in shards && id in shards[i].files :: shards[i].files[id] in alloc && id < next)
    && (forall p | p in alloc :: exists i :: i in shards && alloc[p] in shards[i].files && shards[i].files[alloc[p]] == p)
  }

  /** `seed_paths`: a dense rank for every candidate path. */
  ghost predicate SeededPaths(paths: seq<Path>, alloc: map<Path, nat>, next: nat)
  {
    && next == |paths|
    && (forall i, j :: 0 <= i < j < |paths| ==> paths[i] != paths[j])
    && (forall p :: p in alloc <==> p in paths)
    && (forall i :: 0 <= i < |paths| ==> alloc[paths[i]] == i)
  }

  ghost predicate PastShards(shards: map<nat, Shard>, nextShard: nat)
  {
    forall i | i in shards :: i < nextShard
  }

  // ---------------------------------------------------------------- steps

  datatype Step =
    | Begin(seed: seq<Path>, alloc: map<Path, nat>)
    | Resume(alloc: map<Path, nat>, next: nat, nextShard: nat)
    | Crash
    | Finish
    | Register(w: nat)
    | Gate(w: nat)
    | BackOff(w: nat)
    | Unpark(w: nat)
    | Ingest(w: nat, row: LRow)
    | FailCu(w: nat)
    | LockSink(w: nat)
    | MergeSink(w: nat)
    | AddGauge(w: nat)
    | Unlock(w: nat)
    | SnapStart(w: nat)
    | SnapProceed(w: nat)
    | Drain(w: nat)
    | Subtract(w: nat)
    | WriteShard(w: nat, ok: bool)
    | WriteCheckpoint(w: nat, ok: bool)
    | Commit(w: nat)
    | ReleaseWriter(w: nat)
    | EndCu(w: nat)

  ghost predicate Shape(c: World, s: State)
  {
    |s.pcs| == c.workers && |s.idx| == c.workers && |s.sinks| == c.workers
  }

  ghost predicate At(c: World, s: State, w: nat)
  {
    s.phase == Running && Shape(c, s) && w < c.workers
  }

  ghost predicate OnCu(c: World, s: State, w: nat)
  {
    At(c, s, w) && s.idx[w] < |s.plan| && s.plan[s.idx[w]] in c.rows
  }

  ghost predicate Can(c: World, s: State, t: Step)
  {
    match t
    case Begin(seed, alloc) => s.phase == Stopped && IsFresh(s) && SeededPaths(seed, alloc, |seed|)
    case Resume(alloc, next, nextShard) =>
      // refused when only one of the shards and the checkpoint is present
      && s.phase == Stopped && (s.checkpoint == None <==> s.shards == map[])
      && SeededFrom(s.shards, alloc, next) && PastShards(s.shards, nextShard)
    case Crash => s.phase == Running
    case Finish => s.phase == Running && Shape(c, s) && !s.failed && Injective(s.alloc)
      && forall w | 0 <= w < c.workers :: s.pcs[w] == Idle && s.idx[w] >= |s.plan|
    case Register(w) => At(c, s, w) && s.pcs[w] == Idle && s.idx[w] < |s.plan|
    case Gate(w) => OnCu(c, s, w) && s.pcs[w] == Registered
    case BackOff(w) => At(c, s, w) && s.pcs[w] == BackedOff
    case Unpark(w) => At(c, s, w) && s.pcs[w] == Parked && !s.snapActive
    case Ingest(w, row) => OnCu(c, s, w) && s.pcs[w].Body? && row in s.pcs[w].todo
    case FailCu(w) => OnCu(c, s, w) && s.pcs[w].Body? && Current(s, w) !in c.succeeds
    case LockSink(w) => OnCu(c, s, w) && s.pcs[w].Body? && s.pcs[w].todo == {} && Current(s, w) in c.succeeds
    case MergeSink(w) => OnCu(c, s, w) && s.pcs[w].InSink?
    case AddGauge(w) => At(c, s, w) && s.pcs[w].Merged?
    case Unlock(w) => At(c, s, w) && s.pcs[w] == Added
    case SnapStart(w) => At(c, s, w) && s.pcs[w] == After && s.writer == None
    case SnapProceed(w) => At(c, s, w) && s.pcs[w] == SnapWait        // quiescent, or the time cap
    case Drain(w) => At(c, s, w) && s.pcs[w].Draining? && s.pcs[w].k < c.workers
    case Subtract(w) => At(c, s, w) && s.pcs[w].Draining? && s.pcs[w].k == c.workers && Injective(s.alloc)
    case WriteShard(w, ok) => At(c, s, w) && s.pcs[w].Subtracted?
    case WriteCheckpoint(w, ok) => At(c, s, w) && s.pcs[w].Written?
    case Commit(w) => At(c, s, w) && s.pcs[w].Committing?
    case ReleaseWriter(w) => At(c, s, w) && s.pcs[w] == Leaving
    case EndCu(w) => At(c, s, w) && (s.pcs[w] == After || s.pcs[w] == Ending)
  }

  ghost function Move(s: State, w: nat, pc: Pc): State
    requires w < |s.pcs|
  {
    s.(pcs := s.pcs[w := pc])
  }

  /** `intern`: the path's id, allocating one on first sight. */
  ghost function Interned(s: State, p: Path): State
  {
    if p in s.alloc then s.(accessed := s.accessed + {p})
    else s.(alloc := s.alloc[p := s.next], next := s.next + 1, accessed := s.accessed + {p})
  }

  ghost function AfterIngest(s: State, w: nat, row: LRow): State
    requires w < |s.pcs| && s.pcs[w].Body?
  {
    var t := Interned(s, row.path);
    Move(t, w, Body(s.pcs[w].todo - {row}, s.pcs[w].got + {IRow(row.key, t.alloc[row.path])}))
  }

  ghost function AfterDrain(s: State, w: nat): State
    requires w < |s.pcs| && s.pcs[w].Draining? && s.pcs[w].k < |s.sinks| && |s.pcs| == |s.sinks|
  {
    var pc := s.pcs[w];
    if HoldsSink(s.pcs[pc.k]) then Move(s, w, Draining(pc.k + 1, pc.rows, pc.quiet, true))
    else
      var taken := s.sinks[pc.k];
      Move(s.(acc := s.acc + taken, sinks := s.sinks[pc.k := []]), w,
           Draining(pc.k + 1, pc.rows + Count(taken), pc.quiet, pc.skipped))
  }

  ghost function AfterWrite(s: State, w: nat, ok: bool): State
    requires w < |s.pcs| && s.pcs[w].Subtracted?
  {
    var pc := s.pcs[w];
    if ok then
      var shard := Shard(CusOf(s.acc), RowsOf(s.acc), pc.files);
      Move(s.(shards := s.shards[s.nextShard := shard], nextShard := s.nextShard + 1, acc := []), w,
           Written(CusOf(s.acc), pc.quiet))
    else
      // the staged CUs are gone; guards lower the gate, uncount and release the writer
      Move(s.(acc := [], nextShard := s.nextShard + 1, failed := true, snapActive := false, active := s.active - 1,
              writer := None), w, Dead)
  }

  ghost function AllNames(s: State): set<(nat, Path)>
    requires Injective(s.alloc)
  {
    (set i, id | i in s.shards && id in s.shards[i].files :: (id, s.shards[i].files[id]))
    + (set id | id in AccessedTable(s) :: (id, AccessedTable(s)[id]))
  }

  ghost function AllRows(s: State): set<IRow>
  {
    (set i, r | i in s.shards && r in s.shards[i].rows :: r) + RowsOf(s.acc)
    + (set w, r | 0 <= w < |s.sinks| && r in RowsOf(s.sinks[w]) :: r)
  }

  ghost function Apply(c: World, s: State, t: Step): State
    requires Can(c, s, t)
  {
    match t
    case Begin(seed, alloc) => Started(c, s, c.units, {}, alloc, |seed|, 0)
    case Resume(alloc, next, nextShard) =>
      var done := if s.checkpoint.Some? then s.checkpoint.value else {};
      Started(c, s, Without(c.units, done), done, alloc, next, nextShard)
    case Crash => s.(phase := Stopped)
    case Finish => s.(phase := Done, finalRows := AllRows(s), finalNames := AllNames(s))
    case Register(w) => Move(s, w, Registered).(active := s.active + 1)
    case Gate(w) => if s.snapActive then Move(s, w, BackedOff) else Move(s, w, Body(c.rows[Current(s, w)], {}))
    case BackOff(w) => Move(s, w, Parked).(active := s.active - 1)
    case Unpark(w) => Move(s, w, Idle)
    case Ingest(w, row) => AfterIngest(s, w, row)
    case FailCu(w) => Move(s, w, After)
    case LockSink(w) => Move(s, w, InSink(s.pcs[w].got))
    case MergeSink(w) =>
      Move(s.(sinks := s.sinks[w := s.sinks[w] + [Batch(Current(s, w), s.pcs[w].got)]]), w, Merged(|s.pcs[w].got|))
    case AddGauge(w) => Move(s, w, Added).(gauge := s.gauge + s.pcs[w].rows)
    case Unlock(w) => Move(s, w, After)
    case SnapStart(w) => Move(s, w, SnapWait).(writer := Some(w), snapActive := true)
    case SnapProceed(w) => Move(s, w, Draining(0, 0, s.active == 1, false))
    case Drain(w) => AfterDrain(s, w)
    case Subtract(w) =>
      Move(s, w, Subtracted(AccessedTable(s), s.pcs[w].quiet)).(gauge := s.gauge - s.pcs[w].rows)
    case WriteShard(w, ok) => AfterWrite(s, w, ok)
    case WriteCheckpoint(w, ok) =>
      var pc := s.pcs[w];
      Move(if ok then s.(checkpoint := Some(s.committed + pc.staged)) else s, w, Committing(pc.staged, pc.quiet))
    case Commit(w) => Move(s, w, Leaving).(committed := s.committed + s.pcs[w].staged, snapActive := false)
    case ReleaseWriter(w) => Move(s, w, Ending).(writer := None)
    case EndCu(w) => Move(s, w, Idle).(active := s.active - 1, idx := s.idx[w := s.idx[w] + c.workers])
  }

  ghost predicate Initial(s: State)
  {
    s.phase == Stopped && IsFresh(s)
  }

  /** A history: any interleaving of steps, crashes and resumes from a clean start. */
  ghost predicate History(c: World, ss: seq<State>, steps: seq<Step>)
  {
    && |ss| == |steps| + 1 && Initial(ss[0])
    && (forall i :: 0 <= i < |steps| ==> Can(c, ss[i], steps[i]) && ss[i + 1] == Apply(c, ss[i], steps[i]))
  }
}
