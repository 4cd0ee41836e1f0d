/** What a checkpoint holds, exactly: the checkpoint the run started from and every CU of every
    shard the run has written. So it never shrinks, and no later resume runs those CUs again. */
module ProtocolCheckpoint {
  import opened Bytes
  import opened Protocol
  import opened ProtocolIds
  import opened ProtocolDurable
  import ProtocolGate

  /** The CUs of the shards that were not there before. */
  ghost function NewCus(shards: map<nat, Shard>, earlier: set<nat>): set<Cu>
  {
    set k, u | k in shards && k !in earlier && u in shards[k].cus :: u
  }

  /** The CUs of the shard the writer has stored and not yet committed. */
  ghost function Pending(s: State): set<Cu>
  {
    if s.writer.Some? && s.writer.value < |s.pcs| then Staged(s.pcs[s.writer.value]) else {}
  }

  ghost function Held(s: State): set<Cu>
  {
    if s.checkpoint.Some? then s.checkpoint.value else {}
  }

  /** In a run that started with these shards and this checkpoint. */
  ghost predicate RunInv(s: State, before: set<nat>, start: set<Cu>)
  {
    && s.committed + Pending(s) == start + NewCus(s.shards, before)
    && start <= Held(s) <= start + NewCus(s.shards, before)
    && forall k | k in before :: k in s.shards
  }

  // ---------------------------------------------------------------- steps

  lemma WriterPends(c: World, s: State, w: nat)
    requires ProtocolGate.GateInv(c, s) && s.phase == Running && w < c.workers && Shape(c, s)
    requires s.pcs[w].Subtracted? || s.pcs[w].Written? || s.pcs[w].Committing?
    ensures s.writer == Some(w) && Pending(s) == Staged(s.pcs[w])
  {
    ProtocolGate.WriterIs(c, s, w);
  }

  ghost predicate Quiet(t: Step)
  {
    Simple(t) || t.MergeSink? || t.Drain?
  }

  /** Who holds the writer lock after a quiet step. */
  lemma QuietWriter(c: World, s: State, t: Step)
    requires Can(c, s, t) && Quiet(t)
    ensures t.w < |s.pcs| && Staged(s.pcs[t.w]) == {}
    ensures t.SnapStart? ==> Apply(c, s, t).writer == Some(t.w) && s.writer == None
    ensures t.ReleaseWriter? ==> Apply(c, s, t).writer == None
    ensures !t.SnapStart? && !t.ReleaseWriter? ==> Apply(c, s, t).writer == s.writer
  {
    hide AccessedTable, Count, Injective;
  }

  lemma QuietLands(c: World, s: State, t: Step)
    requires Can(c, s, t) && Quiet(t)
    ensures t.w < |Apply(c, s, t).pcs| && Staged(Apply(c, s, t).pcs[t.w]) == {}
  {
    hide Count;
    if t.MergeSink? || t.Drain? {} else { SimpleLands(c, s, t); }
  }

  lemma QuietPends(c: World, s: State, t: Step)
    requires Can(c, s, t) && Quiet(t) && ProtocolGate.GateInv(c, s)
    ensures Pending(Apply(c, s, t)) == Pending(s)
  {
    QuietWriter(c, s, t);
    QuietLands(c, s, t);
    Footprint(c, s, t);
    if t.ReleaseWriter? { Releases(c, s, t.w); }
    hide Can, Apply, ProtocolGate.GateInv;
  }

  lemma Releases(c: World, s: State, w: nat)
    requires Can(c, s, ReleaseWriter(w)) && ProtocolGate.GateInv(c, s)
    ensures s.writer == Some(w)
  {
    ProtocolGate.WriterIs(c, s, w);
  }

  lemma QuietKeeps(c: World, s: State, t: Step, before: set<nat>, start: set<Cu>)
    requires Can(c, s, t) && Quiet(t) && ProtocolGate.GateInv(c, s) && RunInv(s, before, start)
    ensures RunInv(Apply(c, s, t), before, start)
  {
    QuietPends(c, s, t);
    Footprint(c, s, t);
    hide Can, Apply, Pending, ProtocolGate.GateInv;
  }

  /** A stored shard's CUs are pending; a failed write stores nothing. */
  lemma WriteKeeps(c: World, s: State, w: nat, ok: bool, before: set<nat>, start: set<Cu>)
    requires Can(c, s, WriteShard(w, ok)) && ProtocolGate.GateInv(c, s) && IdsInv(c, s) && RunInv(s, before, start)
    ensures RunInv(AfterWrite(s, w, ok), before, start)
  {
    WriterPends(c, s, w);
    hide CusOf, Protocol.RowsOf, ProtocolGate.GateInv;
    if ok {
      var sh := Shard(CusOf(s.acc), Protocol.RowsOf(s.acc), s.pcs[w].files);
      assert s.nextShard !in s.shards;
      NewShard(s.shards, before, s.nextShard, sh);
    }
  }

  lemma NewShard(shards: map<nat, Shard>, before: set<nat>, n: nat, sh: Shard)
    requires n !in shards && n !in before
    ensures NewCus(shards[n := sh], before) == NewCus(shards, before) + sh.cus
  {
    var after := shards[n := sh];
    forall u | u in NewCus(shards, before) ensures u in NewCus(after, before) {
      var k :| k in shards && k !in before && u in shards[k].cus;
      assert k in after && after[k] == shards[k];
    }
    forall u | u in sh.cus ensures u in NewCus(after, before) { assert n in after && after[n] == sh; }
  }

  /** A successful checkpoint write: everything the run started from, and everything its
      shards hold. */
  lemma CheckpointHolds(c: World, s: State, w: nat, before: set<nat>, start: set<Cu>)
    requires Can(c, s, WriteCheckpoint(w, true)) && ProtocolGate.GateInv(c, s) && RunInv(s, before, start)
    ensures Apply(c, s, WriteCheckpoint(w, true)).checkpoint == Some(start + NewCus(s.shards, before))
    ensures Held(s) <= start + NewCus(s.shards, before)
  {
    WriterPends(c, s, w);
    hide ProtocolGate.GateInv;
  }

  lemma CheckpointKeeps(c: World, s: State, w: nat, ok: bool, before: set<nat>, start: set<Cu>)
    requires Can(c, s, WriteCheckpoint(w, ok)) && ProtocolGate.GateInv(c, s) && RunInv(s, before, start)
    ensures RunInv(Apply(c, s, WriteCheckpoint(w, ok)), before, start)
  {
    WriterPends(c, s, w);
    if ok { CheckpointHolds(c, s, w, before, start); }
    hide ProtocolGate.GateInv;
  }

  lemma CommitKeeps(c: World, s: State, w: nat, before: set<nat>, start: set<Cu>)
    requires Can(c, s, Commit(w)) && ProtocolGate.GateInv(c, s) && RunInv(s, before, start)
    ensures RunInv(Apply(c, s, Commit(w)), before, start)
  {
    WriterPends(c, s, w);
    hide ProtocolGate.GateInv;
  }

  lemma RunKeeps(c: World, s: State, t: Step, before: set<nat>, start: set<Cu>)
    requires Can(c, s, t) && RunStep(t) && ProtocolGate.GateInv(c, s) && IdsInv(c, s) && RunInv(s, before, start)
    ensures RunInv(Apply(c, s, t), before, start)
  {
    hide Can, RunInv, ProtocolGate.GateInv, IdsInv;
    if t.WriteShard? { WriteKeeps(c, s, t.w, t.ok, before, start); }
    else {
      hide Apply;
      if t.WriteCheckpoint? { CheckpointKeeps(c, s, t.w, t.ok, before, start); }
      else if t.Commit? { CommitKeeps(c, s, t.w, before, start); }
      else { QuietKeeps(c, s, t, before, start); }
    }
  }

  /** A run starts from what it finds. */
  lemma RunStarts(c: World, s: State, t: Step)
    requires Can(c, s, t) && (t.Begin? || t.Resume?)
    ensures RunInv(Apply(c, s, t), s.shards.Keys, Held(s))
    ensures Apply(c, s, t).plan == Without(c.units, Held(s)) && Apply(c, s, t).checkpoint == s.checkpoint
  {
    hide SeededFrom, SeededPaths, PastShards, Without;
    assert NewCus(s.shards, s.shards.Keys) == {};
    if t.Begin? { WithoutNothing(c.units); }
  }

  // ---------------------------------------------------------------- histories

  ghost predicate Starts(t: Step)
  {
    t.Begin? || t.Resume?
  }

  /** State `i` belongs to the run that step `b` started. */
  ghost predicate InRun(steps: seq<Step>, b: nat, i: nat)
  {
    b < i <= |steps| && Starts(steps[b]) && forall j | b < j < i :: RunStep(steps[j])
  }

  lemma {:induction false} RunAlways(c: World, ss: seq<State>, steps: seq<Step>, b: nat, i: nat)
    requires History(c, ss, steps) && InRun(steps, b, i)
    ensures RunInv(ss[i], ss[b].shards.Keys, Held(ss[b]))
    decreases i
  {
    hide Apply, Can, RunInv, ProtocolGate.GateInv, IdsInv;
    assert Can(c, ss[i - 1], steps[i - 1]) && ss[i - 1 + 1] == Apply(c, ss[i - 1], steps[i - 1]);
    if i - 1 == b {
      RunStarts(c, ss[b], steps[b]);
    } else {
      RunAlways(c, ss, steps, b, i - 1);
      ProtocolGate.GateAlways(c, ss, steps, i - 1);
      IdsAlways(c, ss, steps, i - 1);
      RunKeeps(c, ss[i - 1], steps[i - 1], ss[b].shards.Keys, Held(ss[b]));
    }
  }

  /** Over every history: a successful checkpoint write leaves exactly the checkpoint the run
      started from and every CU of every shard the run has written so far. */
  lemma CheckpointIsExact(c: World, ss: seq<State>, steps: seq<Step>, b: nat, i: nat)
    requires History(c, ss, steps) && InRun(steps, b, i) && i < |steps| && steps[i].WriteCheckpoint? && steps[i].ok
    ensures ss[i + 1].checkpoint == Some(Held(ss[b]) + NewCus(ss[i].shards, ss[b].shards.Keys))
    ensures Held(ss[i]) <= ss[i + 1].checkpoint.value
  {
    assert Can(c, ss[i], steps[i]) && ss[i + 1] == Apply(c, ss[i], steps[i]);
    RunAlways(c, ss, steps, b, i);
    ProtocolGate.GateAlways(c, ss, steps, i);
    hide Apply, Can, RunInv, ProtocolGate.GateInv;
    CheckpointHolds(c, ss[i], steps[i].w, ss[b].shards.Keys, Held(ss[b]));
  }

  /** Only a successful write changes it, and that one keeps what is there. */
  lemma CheckpointStep(c: World, ss: seq<State>, steps: seq<Step>, i: nat)
    requires History(c, ss, steps) && i < |steps|
    ensures ss[i].checkpoint.Some? ==> ss[i + 1].checkpoint.Some?
    ensures Held(ss[i]) <= Held(ss[i + 1])
  {
    hide Apply, Can;
    assert Can(c, ss[i], steps[i]) && ss[i + 1] == Apply(c, ss[i], steps[i]);
    if RunStep(steps[i]) {
      if steps[i].WriteCheckpoint? {
        RunningInside(c, ss, steps, i);
        var b := RunOf(c, ss, steps, i);
        WriteStep(c, ss, steps, b, i);
      } else {
        Footprint(c, ss[i], steps[i]);
      }
    } else {
      CheckpointStays(c, ss[i], steps[i]);
    }
  }

  lemma WriteStep(c: World, ss: seq<State>, steps: seq<Step>, b: nat, i: nat)
    requires History(c, ss, steps) && InRun(steps, b, i) && i < |steps| && steps[i].WriteCheckpoint?
    ensures ss[i].checkpoint.Some? ==> ss[i + 1].checkpoint.Some?
    ensures Held(ss[i]) <= Held(ss[i + 1])
  {
    if steps[i].ok {
      CheckpointIsExact(c, ss, steps, b, i);
    } else {
      assert Can(c, ss[i], steps[i]) && ss[i + 1] == Apply(c, ss[i], steps[i]);
    }
  }

  lemma CheckpointStays(c: World, s: State, t: Step)
    requires Can(c, s, t) && !RunStep(t)
    ensures Apply(c, s, t).checkpoint == s.checkpoint
  {
    hide SeededFrom, SeededPaths, PastShards, Without, AllRows, AllNames;
  }

  lemma RunningInside(c: World, ss: seq<State>, steps: seq<Step>, i: nat)
    requires History(c, ss, steps) && i < |steps| && RunStep(steps[i])
    ensures ss[i].phase == Running
  {
    hide Apply, Can;
    assert Can(c, ss[i], steps[i]) && ss[i + 1] == Apply(c, ss[i], steps[i]);
    Footprint(c, ss[i], steps[i]);
  }

  /** A running state belongs to some run. */
  lemma {:induction false} RunOf(c: World, ss: seq<State>, steps: seq<Step>, i: nat) returns (b: nat)
    requires History(c, ss, steps) && i < |ss| && ss[i].phase == Running
    ensures InRun(steps, b, i)
  {
    hide Apply, Can;
    assert Initial(ss[0]) && i > 0;
    assert Can(c, ss[i - 1], steps[i - 1]) && ss[i - 1 + 1] == Apply(c, ss[i - 1], steps[i - 1]);
    if Starts(steps[i - 1]) {
      b := i - 1;
    } else {
      StillRunning(c, ss[i - 1], steps[i - 1]);
      RunningInside(c, ss, steps, i - 1);
      b := RunOf(c, ss, steps, i - 1);
    }
  }

  lemma StillRunning(c: World, s: State, t: Step)
    requires Can(c, s, t) && !Starts(t) && Apply(c, s, t).phase == Running
    ensures RunStep(t)
  {
  }

  lemma HistoryLength(c: World, ss: seq<State>, steps: seq<Step>)
    requires History(c, ss, steps)
    ensures |ss| == |steps| + 1
  {
    hide Can, Apply;
  }

  /** Across steps, crashes and resumes: the checkpoint never shrinks. */
  lemma {:induction false} CheckpointNeverShrinks(c: World, ss: seq<State>, steps: seq<Step>, i: nat, j: nat)
    requires History(c, ss, steps) && i <= j < |ss|
    ensures ss[i].checkpoint.Some? ==> ss[j].checkpoint.Some?
    ensures Held(ss[i]) <= Held(ss[j])
    decreases j
  {
    hide History, Held, Can, Apply;
    HistoryLength(c, ss, steps);
    if i < j {
      CheckpointNeverShrinks(c, ss, steps, i, j - 1);
      CheckpointStep(c, ss, steps, j - 1);
    }
  }

  /** A resume plans exactly the units the checkpoint does not hold. So once a run's checkpoint
      write has succeeded, no later resume runs again a CU of a shard that run had written. */
  lemma ResumeSkips(c: World, ss: seq<State>, steps: seq<Step>, b: nat, i: nat, r: nat, k: nat, u: Cu)
    requires History(c, ss, steps) && InRun(steps, b, i) && i < |steps| && steps[i].WriteCheckpoint? && steps[i].ok
    requires i < r < |steps| && steps[r].Resume?
    requires k in ss[i].shards && k !in ss[b].shards && u in ss[i].shards[k].cus
    ensures u !in ss[r + 1].plan
    ensures forall v :: v in ss[r + 1].plan <==> v in c.units && v !in Held(ss[r])
  {
    assert Can(c, ss[r], steps[r]) && ss[r + 1] == Apply(c, ss[r], steps[r]);
    hide History, Apply, Can;
    CheckpointIsExact(c, ss, steps, b, i);
    assert u in NewCus(ss[i].shards, ss[b].shards.Keys);
    CheckpointNeverShrinks(c, ss, steps, i + 1, r);
    RunStarts(c, ss[r], steps[r]);
  }

  /** A resume from that checkpoint, exactly: a unit runs again unless the run that wrote it
      started from it or stored it. A shard an earlier run left without a checkpoint does not
      count. */
  lemma ResumePlanIs(c: World, ss: seq<State>, steps: seq<Step>, b: nat, i: nat, r: nat, u: Cu)
    requires History(c, ss, steps) && InRun(steps, b, i) && i < |steps| && steps[i].WriteCheckpoint? && steps[i].ok
    requires i < r < |steps| && steps[r].Resume? && ss[r].checkpoint == ss[i + 1].checkpoint
    ensures u in ss[r + 1].plan <==>
      u in c.units && u !in Held(ss[b]) && forall k | k in ss[i].shards && u in ss[i].shards[k].cus :: k in ss[b].shards
  {
    assert Can(c, ss[r], steps[r]) && ss[r + 1] == Apply(c, ss[r], steps[r]);
    hide History, Apply, Can;
    CheckpointIsExact(c, ss, steps, b, i);
    RunStarts(c, ss[r], steps[r]);
    assert u in Held(ss[r]) <==> u in ss[i + 1].checkpoint.value;
  }
}
