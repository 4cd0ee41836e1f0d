/** The park gate and the row gauge: what holds in every state of every history. */
module ProtocolGate {
  import opened Bytes
  import opened Protocol

  // ---------------------------------------------------------------- counting busy workers

  /** Counted in `active_cus`. */
  predicate Busy(pc: Pc)
  {
    !(pc.Idle? || pc.Parked? || pc.Dead?)
  }

  /** Between raising the gate and releasing the writer lock. */
  predicate Snapping(pc: Pc)
  {
    pc.SnapWait? || pc.Draining? || pc.Subtracted? || pc.Written? || pc.Committing? || pc.Leaving?
  }

  /** The gate is up. */
  predicate Flagged(pc: Pc)
  {
    Snapping(pc) && !pc.Leaving?
  }

  /** Not inside a CU body. */
  predicate Outside(pc: Pc)
  {
    pc.Idle? || pc.Registered? || pc.BackedOff? || pc.Parked? || pc.Dead?
  }

  /** Left the wait because it was the only active worker, and has not lowered the gate. */
  predicate Quiet(pc: Pc)
  {
    || (pc.Draining? && pc.quiet) || (pc.Subtracted? && pc.quiet)
    || (pc.Written? && pc.quiet) || (pc.Committing? && pc.quiet)
  }

  ghost function CountBusy(pcs: seq<Pc>): nat
  {
    if pcs == [] then 0 else CountBusy(pcs[..|pcs| - 1]) + if Busy(pcs[|pcs| - 1]) then 1 else 0
  }

  lemma {:induction false} CountUpdate(pcs: seq<Pc>, w: nat, pc: Pc)
    requires w < |pcs|
    ensures CountBusy(pcs[w := pc]) == CountBusy(pcs) - (if Busy(pcs[w]) then 1 else 0) + (if Busy(pc) then 1 else 0)
  {
    var n := |pcs| - 1;
    if w < n {
      assert pcs[w := pc][..n] == pcs[..n][w := pc];
      CountUpdate(pcs[..n], w, pc);
    } else {
      assert pcs[w := pc][..n] == pcs[..n];
    }
  }

  lemma {:induction false} CountZero(pcs: seq<Pc>)
    ensures CountBusy(pcs) == 0 <==> forall v :: 0 <= v < |pcs| ==> !Busy(pcs[v])
  {
    if pcs != [] { CountZero(pcs[..|pcs| - 1]); }
  }

  /** If only one worker is counted and `w` is, nobody else is. */
  lemma OnlyOne(pcs: seq<Pc>, w: nat)
    requires w < |pcs| && Busy(pcs[w]) && CountBusy(pcs) == 1
    ensures forall v :: 0 <= v < |pcs| && v != w ==> !Busy(pcs[v])
  {
    CountUpdate(pcs, w, Idle);
    CountZero(pcs[w := Idle]);
    forall v | 0 <= v < |pcs| && v != w ensures !Busy(pcs[v]) { assert pcs[w := Idle][v] == pcs[v]; }
  }

  // ---------------------------------------------------------------- the gate

  /** A worker's own step towards the body of its CU. */
  ghost predicate Entering(t: Step)
  {
    t.Register? || t.Gate? || t.BackOff? || t.Unpark?
  }

  /** A worker's own step inside a CU, other than folding it into its sink. */
  ghost predicate Inside(t: Step)
  {
    t.Ingest? || t.FailCu? || t.LockSink? || t.AddGauge? || t.Unlock? || t.EndCu?
  }

  ghost predicate GateInv(c: World, s: State)
  {
    s.phase == Running ==>
      && Shape(c, s)
      && s.active == CountBusy(s.pcs)
      && (forall w | 0 <= w < c.workers :: Snapping(s.pcs[w]) <==> s.writer == Some(w))
      && (forall w | 0 <= w < c.workers && Flagged(s.pcs[w]) :: s.snapActive)
      && (s.snapActive ==> exists w :: 0 <= w < c.workers && Flagged(s.pcs[w]))
      && (forall w, v | 0 <= w < c.workers && 0 <= v < c.workers && v != w && Quiet(s.pcs[w]) :: Outside(s.pcs[v]))
      && (forall w | 0 <= w < c.workers && s.pcs[w].Draining? && s.pcs[w].quiet :: !s.pcs[w].skipped)
  }

  lemma {:induction false} AllIdle(n: nat)
    ensures CountBusy(seq(n, _ => Idle)) == 0
  {
    CountZero(seq(n, _ => Idle));
  }

  /** A worker that moves between two places of the same standing. */
  lemma GateMove(c: World, s: State, s': State, w: nat)
    requires GateInv(c, s) && s.phase == Running && s'.phase == Running && w < c.workers
    requires Shape(c, s') && s'.pcs == s.pcs[w := s'.pcs[w]]
    requires s'.active == s.active - (if Busy(s.pcs[w]) then 1 else 0) + (if Busy(s'.pcs[w]) then 1 else 0)
    requires s'.writer == s.writer && s'.snapActive == s.snapActive
    requires Snapping(s'.pcs[w]) == Snapping(s.pcs[w]) && Flagged(s'.pcs[w]) == Flagged(s.pcs[w])
    requires Quiet(s'.pcs[w]) ==> Quiet(s.pcs[w]) || forall v | 0 <= v < c.workers && v != w :: Outside(s.pcs[v])
    requires Outside(s.pcs[w]) && !Outside(s'.pcs[w]) ==> !s.snapActive
    requires s'.pcs[w].Draining? && s'.pcs[w].quiet ==> !s'.pcs[w].skipped
    ensures GateInv(c, s')
  {
    CountUpdate(s.pcs, w, s'.pcs[w]);
    forall u, v | 0 <= u < c.workers && 0 <= v < c.workers && v != u && Quiet(s'.pcs[u]) ensures Outside(s'.pcs[v]) {
      if u != w { assert Quiet(s.pcs[u]) && Flagged(s.pcs[u]); }
    }
    if s.snapActive {
      var u :| 0 <= u < c.workers && Flagged(s.pcs[u]);
      assert Flagged(s'.pcs[u]);
    }
  }

  lemma GateEntering(c: World, s: State, t: Step)
    requires GateInv(c, s) && Can(c, s, t) && Entering(t)
    ensures GateInv(c, Apply(c, s, t))
  {
    hide GateInv, CountBusy;
    GateShape(c, s);
    GateMove(c, s, Apply(c, s, t), t.w);
  }

  lemma GateInside(c: World, s: State, t: Step)
    requires GateInv(c, s) && Can(c, s, t) && (t.FailCu? || t.LockSink? || t.AddGauge? || t.Unlock?)
    ensures GateInv(c, Apply(c, s, t))
  {
    hide GateInv, CountBusy;
    GateShape(c, s);
    GateMove(c, s, Apply(c, s, t), t.w);
  }

  lemma GateRows(c: World, s: State, t: Step)
    requires GateInv(c, s) && Can(c, s, t) && (t.Ingest? || t.MergeSink? || t.EndCu?)
    ensures GateInv(c, Apply(c, s, t))
  {
    hide GateInv, CountBusy;
    GateShape(c, s);
    GateMove(c, s, Apply(c, s, t), t.w);
  }

  lemma GateShape(c: World, s: State)
    requires GateInv(c, s) && s.phase == Running
    ensures Shape(c, s)
  {
  }

  lemma GateFacts(c: World, s: State, w: nat)
    requires GateInv(c, s) && s.phase == Running && w < c.workers
    ensures s.active == CountBusy(s.pcs)
    ensures Quiet(s.pcs[w]) ==> forall v | 0 <= v < c.workers && v != w :: Outside(s.pcs[v]) && !HoldsSink(s.pcs[v])
    ensures s.pcs[w].Draining? && s.pcs[w].quiet ==> !s.pcs[w].skipped
  {
  }

  lemma GateProceed(c: World, s: State, w: nat)
    requires GateInv(c, s) && Can(c, s, SnapProceed(w))
    ensures GateInv(c, Apply(c, s, SnapProceed(w)))
  {
    hide CountBusy, GateInv;
    GateFacts(c, s, w);
    if s.active == 1 { OnlyOne(s.pcs, w); }
    GateMove(c, s, Move(s, w, Draining(0, 0, s.active == 1, false)), w);
  }

  lemma GateDrain(c: World, s: State, w: nat)
    requires GateInv(c, s) && Can(c, s, Drain(w))
    ensures GateInv(c, Apply(c, s, Drain(w)))
  {
    hide CountBusy, Count, GateInv;
    GateFacts(c, s, w);
    GateMove(c, s, AfterDrain(s, w), w);
  }

  lemma GateStaged(c: World, s: State, t: Step)
    requires GateInv(c, s) && Can(c, s, t)
    requires t.Subtract? || t.WriteCheckpoint?
    ensures GateInv(c, Apply(c, s, t))
  {
    hide CountBusy, Count, AccessedTable, GateInv;
    GateShape(c, s);
    GateMove(c, s, Apply(c, s, t), t.w);
  }

  /** A move that raises, lowers or hands back the gate. */
  lemma GateFlip(c: World, s: State, s': State, w: nat)
    requires GateInv(c, s) && s.phase == Running && s'.phase == Running && w < c.workers
    requires Shape(c, s') && s'.pcs == s.pcs[w := s'.pcs[w]]
    requires s'.active == s.active - (if Busy(s.pcs[w]) then 1 else 0) + (if Busy(s'.pcs[w]) then 1 else 0)
    requires s.writer == None || s.writer == Some(w)
    requires s'.writer == if Snapping(s'.pcs[w]) then Some(w) else None
    requires s'.snapActive == Flagged(s'.pcs[w])
    requires Quiet(s'.pcs[w]) ==> Quiet(s.pcs[w])
    requires Outside(s.pcs[w]) ==> Outside(s'.pcs[w])
    requires !s'.pcs[w].Draining?
    ensures GateInv(c, s')
  {
    hide CountBusy;
    CountUpdate(s.pcs, w, s'.pcs[w]);
    forall v | 0 <= v < c.workers && v != w ensures !Snapping(s'.pcs[v]) && !Quiet(s'.pcs[v]) {
      assert s'.pcs[v] == s.pcs[v] && s.writer != Some(v);
    }
    if s'.snapActive { assert Flagged(s'.pcs[w]); }
  }

  lemma WriterIs(c: World, s: State, w: nat)
    requires GateInv(c, s) && s.phase == Running && w < c.workers && Snapping(s.pcs[w])
    ensures s.writer == Some(w)
    ensures s.snapActive <==> Flagged(s.pcs[w])
  {
  }

  lemma GateFlag(c: World, s: State, t: Step)
    requires GateInv(c, s) && Can(c, s, t)
    requires t.SnapStart? || t.WriteShard? || t.Commit? || t.ReleaseWriter?
    ensures GateInv(c, Apply(c, s, t))
  {
    hide GateInv, CusOf, Protocol.RowsOf;
    if !t.SnapStart? { WriterIs(c, s, t.w); }
    GateFlip(c, s, Apply(c, s, t), t.w);
  }

  lemma GateStart(c: World, s: State, t: Step)
    requires Can(c, s, t) && (t.Begin? || t.Resume? || t.Crash? || t.Finish?)
    ensures GateInv(c, Apply(c, s, t))
  {
    AllIdle(c.workers);
  }

  lemma GateStep(c: World, s: State, t: Step)
    requires GateInv(c, s) && Can(c, s, t)
    ensures GateInv(c, Apply(c, s, t))
  {
    hide GateInv, Apply, Can;
    if t.Begin? || t.Resume? || t.Crash? || t.Finish? { GateStart(c, s, t); }
    else if t.SnapProceed? { GateProceed(c, s, t.w); }
    else if t.Drain? { GateDrain(c, s, t.w); }
    else if t.Subtract? || t.WriteCheckpoint? { GateStaged(c, s, t); }
    else if t.SnapStart? || t.WriteShard? || t.Commit? || t.ReleaseWriter? { GateFlag(c, s, t); }
    else if Entering(t) { GateEntering(c, s, t); }
    else if t.Ingest? || t.MergeSink? || t.EndCu? { GateRows(c, s, t); }
    else { GateInside(c, s, t); }
  }

  lemma {:induction false} GateAlways(c: World, ss: seq<State>, steps: seq<Step>, i: nat)
    requires History(c, ss, steps) && i < |ss|
    ensures GateInv(c, ss[i])
  {
    hide Apply, Can;
    if i > 0 {
      GateAlways(c, ss, steps, i - 1);
      assert Can(c, ss[i - 1], steps[i - 1]) && ss[i - 1 + 1] == Apply(c, ss[i - 1], steps[i - 1]);
      GateStep(c, ss[i - 1], steps[i - 1]);
    }
  }

  /** In every state of every history: while a snapshotter that left its wait by seeing
      itself alone still has the gate up, no other worker is inside a CU body or holds
      its sink, so the drain has skipped, and will skip, no sink. */
  lemma QuietSnapshotIsComplete(c: World, ss: seq<State>, steps: seq<Step>, i: nat, w: nat)
    requires History(c, ss, steps) && i < |ss| && ss[i].phase == Running
    requires w < |ss[i].pcs| && Quiet(ss[i].pcs[w])
    ensures ss[i].snapActive
    ensures forall v | 0 <= v < |ss[i].pcs| && v != w :: Outside(ss[i].pcs[v]) && !HoldsSink(ss[i].pcs[v])
    ensures ss[i].pcs[w].Draining? ==> !ss[i].pcs[w].skipped
  {
    GateAlways(c, ss, steps, i);
  }

  /** The in-flight count is exact and at most one snapshotter exists, always. */
  lemma GateExact(c: World, ss: seq<State>, steps: seq<Step>, i: nat)
    requires History(c, ss, steps) && i < |ss| && ss[i].phase == Running
    ensures ss[i].active == CountBusy(ss[i].pcs) >= 0
    ensures forall w, v | 0 <= w < |ss[i].pcs| && 0 <= v < |ss[i].pcs| && Snapping(ss[i].pcs[w]) && Snapping(ss[i].pcs[v]) :: w == v
    ensures ss[i].snapActive <==> exists w :: 0 <= w < |ss[i].pcs| && Flagged(ss[i].pcs[w])
  {
    GateAlways(c, ss, steps, i);
  }

  // ---------------------------------------------------------------- the gauge

  /** Rows merged into the sink whose gauge add is still to come. */
  ghost function Owed(pcs: seq<Pc>): nat
  {
    if pcs == [] then 0
    else Owed(pcs[..|pcs| - 1]) + if pcs[|pcs| - 1].Merged? then pcs[|pcs| - 1].rows else 0
  }

  /** Rows drained but not yet subtracted. */
  ghost function Drained(pcs: seq<Pc>): nat
  {
    if pcs == [] then 0
    else Drained(pcs[..|pcs| - 1]) + if pcs[|pcs| - 1].Draining? then pcs[|pcs| - 1].rows else 0
  }

  ghost function Buffered(sinks: seq<seq<Batch>>): nat
  {
    if sinks == [] then 0 else Buffered(sinks[..|sinks| - 1]) + Count(sinks[|sinks| - 1])
  }

  lemma {:induction false} PcSumsUpdate(pcs: seq<Pc>, w: nat, pc: Pc)
    requires w < |pcs|
    ensures Owed(pcs[w := pc]) == Owed(pcs) - (if pcs[w].Merged? then pcs[w].rows else 0) + (if pc.Merged? then pc.rows else 0)
    ensures Drained(pcs[w := pc]) == Drained(pcs) - (if pcs[w].Draining? then pcs[w].rows else 0) + (if pc.Draining? then pc.rows else 0)
  {
    var n := |pcs| - 1;
    if w < n {
      assert pcs[w := pc][..n] == pcs[..n][w := pc];
      PcSumsUpdate(pcs[..n], w, pc);
    } else {
      assert pcs[w := pc][..n] == pcs[..n];
    }
  }

  lemma {:induction false} BufferedUpdate(sinks: seq<seq<Batch>>, w: nat, bs: seq<Batch>)
    requires w < |sinks|
    ensures Buffered(sinks[w := bs]) == Buffered(sinks) - Count(sinks[w]) + Count(bs)
  {
    var n := |sinks| - 1;
    if w < n {
      assert sinks[w := bs][..n] == sinks[..n][w := bs];
      BufferedUpdate(sinks[..n], w, bs);
    } else {
      assert sinks[w := bs][..n] == sinks[..n];
    }
  }

  /** Every worker's owed rows are still in its own sink. */
  ghost predicate OwedInSink(s: State)
    requires |s.pcs| == |s.sinks|
  {
    forall w | 0 <= w < |s.pcs| && s.pcs[w].Merged? :: s.pcs[w].rows <= Count(s.sinks[w])
  }

  ghost predicate GaugeInv(c: World, s: State)
  {
    s.phase == Running ==>
      && Shape(c, s) && OwedInSink(s)
      && s.gauge + Owed(s.pcs) == Buffered(s.sinks) + Drained(s.pcs)
  }

  lemma {:induction false} OwedBound(pcs: seq<Pc>, sinks: seq<seq<Batch>>)
    requires |pcs| == |sinks|
    requires forall w | 0 <= w < |pcs| && pcs[w].Merged? :: pcs[w].rows <= Count(sinks[w])
    ensures Owed(pcs) <= Buffered(sinks)
  {
    if pcs != [] { OwedBound(pcs[..|pcs| - 1], sinks[..|sinks| - 1]); }
  }

  lemma CountAppend(bs: seq<Batch>, b: Batch)
    ensures Count(bs + [b]) == Count(bs) + |b.rows|
  {
    assert (bs + [b])[..|bs|] == bs;
  }

  lemma {:induction false} NoneOwed(pcs: seq<Pc>)
    requires forall w :: 0 <= w < |pcs| ==> pcs[w] == Idle
    ensures Owed(pcs) == 0 && Drained(pcs) == 0
  {
    if pcs != [] { NoneOwed(pcs[..|pcs| - 1]); }
  }

  lemma {:induction false} NoneBuffered(sinks: seq<seq<Batch>>)
    requires forall w :: 0 <= w < |sinks| ==> sinks[w] == []
    ensures Buffered(sinks) == 0
  {
    if sinks != [] { NoneBuffered(sinks[..|sinks| - 1]); }
  }

  lemma GaugeMove(c: World, s: State, s': State, w: nat)
    requires GaugeInv(c, s) && s.phase == Running && s'.phase == Running && w < c.workers
    requires Shape(c, s') && s'.pcs == s.pcs[w := s'.pcs[w]] && s'.sinks == s.sinks
    requires s'.pcs[w].Merged? ==> s.pcs[w] == s'.pcs[w]
    requires s'.gauge - s.gauge == (if s.pcs[w].Merged? && !s'.pcs[w].Merged? then s.pcs[w].rows else 0)
      + (if s'.pcs[w].Draining? then s'.pcs[w].rows else 0) - (if s.pcs[w].Draining? then s.pcs[w].rows else 0)
    ensures GaugeInv(c, s')
  {
    PcSumsUpdate(s.pcs, w, s'.pcs[w]);
  }

  lemma GaugeMerge(c: World, s: State, w: nat)
    requires GaugeInv(c, s) && Can(c, s, MergeSink(w))
    ensures GaugeInv(c, Apply(c, s, MergeSink(w)))
  {
    var s' := Apply(c, s, MergeSink(w));
    PcSumsUpdate(s.pcs, w, s'.pcs[w]);
    BufferedUpdate(s.sinks, w, s'.sinks[w]);
    CountAppend(s.sinks[w], Batch(Current(s, w), s.pcs[w].got));
  }

  lemma GaugeDrain(c: World, s: State, w: nat)
    requires GaugeInv(c, s) && Can(c, s, Drain(w))
    ensures GaugeInv(c, Apply(c, s, Drain(w)))
  {
    hide GaugeInv;
    if HoldsSink(s.pcs[s.pcs[w].k]) { GaugeMove(c, s, AfterDrain(s, w), w); }
    else { GaugeTake(c, s, AfterDrain(s, w), w); }
  }

  lemma GaugeTake(c: World, s: State, s': State, w: nat)
    requires GaugeInv(c, s) && s.phase == Running && w < c.workers && Shape(c, s)
    requires s.pcs[w].Draining? && s.pcs[w].k < c.workers && !HoldsSink(s.pcs[s.pcs[w].k])
    requires s' == AfterDrain(s, w)
    ensures GaugeInv(c, s')
  {
    hide Owed, Drained, Buffered, Count;
    PcSumsUpdate(s.pcs, w, s'.pcs[w]);
    BufferedUpdate(s.sinks, s.pcs[w].k, []);
    NothingCounted();
  }

  lemma NothingCounted()
    ensures Count([]) == 0
  {
  }

  lemma GaugeStart(c: World, s: State, t: Step)
    requires Can(c, s, t) && (t.Begin? || t.Resume? || t.Crash? || t.Finish?)
    ensures GaugeInv(c, Apply(c, s, t))
  {
    hide Owed, Drained, Buffered, Count, AllRows, AllNames;
    if t.Begin? || t.Resume? {
      NoneOwed(Apply(c, s, t).pcs);
      NoneBuffered(Apply(c, s, t).sinks);
    }
  }

  lemma GaugeStep(c: World, s: State, t: Step)
    requires GaugeInv(c, s) && Can(c, s, t)
    ensures GaugeInv(c, Apply(c, s, t))
  {
    hide GaugeInv, Apply, Can;
    if t.Begin? || t.Resume? || t.Crash? || t.Finish? { GaugeStart(c, s, t); }
    else if t.MergeSink? { GaugeMerge(c, s, t.w); }
    else if t.Drain? { GaugeDrain(c, s, t.w); }
    else if Entering(t) || Inside(t) { GaugeOwn(c, s, t); }
    else if t.Subtract? || t.WriteShard? { GaugeDelta(c, s, t); }
    else { GaugeSnap(c, s, t); }
  }

  lemma GaugeOwn(c: World, s: State, t: Step)
    requires GaugeInv(c, s) && Can(c, s, t) && (Entering(t) || Inside(t))
    ensures GaugeInv(c, Apply(c, s, t))
  {
    hide GaugeInv;
    GaugeMove(c, s, Apply(c, s, t), t.w);
  }

  lemma GaugeSnap(c: World, s: State, t: Step)
    requires GaugeInv(c, s) && Can(c, s, t)
    requires t.SnapStart? || t.SnapProceed? || t.WriteCheckpoint? || t.Commit? || t.ReleaseWriter?
    ensures GaugeInv(c, Apply(c, s, t))
  {
    hide GaugeInv;
    GaugeMove(c, s, Apply(c, s, t), t.w);
  }

  lemma GaugeDelta(c: World, s: State, t: Step)
    requires GaugeInv(c, s) && Can(c, s, t) && (t.Subtract? || t.WriteShard?)
    ensures GaugeInv(c, Apply(c, s, t))
  {
    hide GaugeInv, CusOf, Protocol.RowsOf, AccessedTable;
    GaugeMove(c, s, Apply(c, s, t), t.w);
  }

  lemma {:induction false} GaugeAlways(c: World, ss: seq<State>, steps: seq<Step>, i: nat)
    requires History(c, ss, steps) && i < |ss|
    ensures GaugeInv(c, ss[i])
  {
    hide Apply, Can;
    if i > 0 {
      GaugeAlways(c, ss, steps, i - 1);
      assert Can(c, ss[i - 1], steps[i - 1]) && ss[i - 1 + 1] == Apply(c, ss[i - 1], steps[i - 1]);
      GaugeStep(c, ss[i - 1], steps[i - 1]);
    }
  }

  /** In every state of every history the gauge is the rows buffered in the sinks, plus
      those drained and not yet subtracted, less those whose add the owner of the sink's
      lock is about to make. It is never negative and no subtraction underflows. */
  lemma GaugeExact(c: World, ss: seq<State>, steps: seq<Step>, i: nat)
    requires History(c, ss, steps) && i < |ss| && ss[i].phase == Running
    ensures ss[i].gauge == Buffered(ss[i].sinks) + Drained(ss[i].pcs) - Owed(ss[i].pcs)
    ensures ss[i].gauge >= Drained(ss[i].pcs) >= 0
    ensures forall w | 0 <= w < |ss[i].pcs| && ss[i].pcs[w].Draining? :: ss[i].gauge >= ss[i].pcs[w].rows
  {
    GaugeAlways(c, ss, steps, i);
    var s := ss[i];
    OwedBound(s.pcs, s.sinks);
    forall w | 0 <= w < |s.pcs| && s.pcs[w].Draining? ensures s.gauge >= s.pcs[w].rows {
      PcSumsUpdate(s.pcs, w, Idle);
    }
  }
}
