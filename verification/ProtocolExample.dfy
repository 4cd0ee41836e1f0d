/** One history end to end: a CU is ingested and snapshotted, the run crashes before it ends,
    and a resumed run finishes the build. */
module ProtocolExample {
  import opened Bytes
  import opened Protocol

  /** One worker, one CU with one row. */
  ghost function TheWorld(): World
  {
    World(1, [0], {0}, map[0 := {LRow(5, 7)}])
  }

  ghost function Fresh(): State
  {
    State(Stopped, false, map[], None, [], [], [], [], [], {}, map[], {}, 0, 0, false, 0, 0, None, {}, {})
  }

  ghost function Begun(): State
  {
    State(Running, false, map[], None, [0], [Idle], [0], [[]], [], {}, map[7 := 0], {}, 1, 0, false, 0, 0, None, {}, {})
  }

  ghost function Rows(): set<IRow>
  {
    {IRow(5, 0)}
  }

  /** After the CU has been folded into the sink. */
  ghost function Folded(): State
  {
    Begun().(pcs := [After], sinks := [[Batch(0, Rows())]], accessed := {7}, active := 1, gauge := 1)
  }

  ghost function Durable(): Shard
  {
    Shard({0}, Rows(), map[0 := 7])
  }

  /** After the snapshot, the gate still up. */
  ghost function Snapped(): State
  {
    Folded().(pcs := [Committing({0}, true)], sinks := [[]], gauge := 0, snapActive := true, writer := Some(0),
              shards := map[0 := Durable()], nextShard := 1, checkpoint := Some({0}))
  }

  ghost predicate Leads(s: State, t: Step, s': State)
  {
    Can(TheWorld(), s, t) && Apply(TheWorld(), s, t) == s'
  }

  lemma StartOk()
    ensures Leads(Fresh(), Begin([7], map[7 := 0]), Begun())
  {
    assert Without([0], {}) == [0];
    var a := Apply(TheWorld(), Fresh(), Begin([7], map[7 := 0]));
    assert a.pcs == [Idle] && a.idx == [0] && a.sinks == [[]];
  }

  lemma EnterOk()
    ensures var s1 := Begun().(pcs := [Registered], active := 1);
      var s2 := s1.(pcs := [Body({LRow(5, 7)}, {})]);
      Leads(Begun(), Register(0), s1) && Leads(s1, Gate(0), s2)
  {
  }

  lemma IngestOk()
    ensures var s2 := Begun().(pcs := [Body({LRow(5, 7)}, {})], active := 1);
      var s3 := s2.(pcs := [Body({}, Rows())], accessed := {7});
      var s4 := s3.(pcs := [InSink(Rows())]);
      Leads(s2, Ingest(0, LRow(5, 7)), s3) && Leads(s3, LockSink(0), s4)
  {
    assert {LRow(5, 7)} - {LRow(5, 7)} == {} && {} + {IRow(5, 0)} == Rows() && {} + {7} == {7};
  }

  lemma FoldOk()
    ensures var s4 := Begun().(pcs := [InSink(Rows())], accessed := {7}, active := 1);
      var s5 := s4.(pcs := [Merged(1)], sinks := [[Batch(0, Rows())]]);
      var s6 := s5.(pcs := [Added], gauge := 1);
      Leads(s4, MergeSink(0), s5) && Leads(s5, AddGauge(0), s6) && Leads(s6, Unlock(0), Folded())
  {
    assert [] + [Batch(0, Rows())] == [Batch(0, Rows())];
  }

  ghost function Waiting(): State
  {
    Folded().(pcs := [SnapWait], snapActive := true, writer := Some(0))
  }

  lemma GateOk()
    ensures Leads(Folded(), SnapStart(0), Waiting())
  {
  }

  lemma ProceedOk()
    ensures Leads(Waiting(), SnapProceed(0), Waiting().(pcs := [Draining(0, 0, true, false)]))
  {
  }

  lemma DrainOk()
    ensures var s9 := Folded().(pcs := [Draining(0, 0, true, false)], snapActive := true, writer := Some(0));
      var s10 := s9.(pcs := [Draining(1, 1, true, false)], acc := [Batch(0, Rows())], sinks := [[]]);
      Leads(s9, Drain(0), s10)
  {
    OneRow();
    hide Count, Rows;
    var s9 := Folded().(pcs := [Draining(0, 0, true, false)], snapActive := true, writer := Some(0));
    assert Can(TheWorld(), s9, Drain(0));
    assert s9.acc + s9.sinks[0] == [Batch(0, Rows())];
    assert AfterDrain(s9, 0) == s9.(pcs := [Draining(1, 1, true, false)], acc := [Batch(0, Rows())], sinks := [[]]);
  }

  lemma OneRow()
    ensures Count([Batch(0, Rows())]) == 1
  {
    assert Count([Batch(0, Rows())]) == Count([]) + 1;
  }

  lemma SubtractOk()
    ensures var s10 := Folded().(pcs := [Draining(1, 1, true, false)], snapActive := true, writer := Some(0),
                                 acc := [Batch(0, Rows())], sinks := [[]]);
      var s11 := s10.(pcs := [Subtracted(map[0 := 7], true)], gauge := 0);
      Leads(s10, Subtract(0), s11)
  {
    var s10 := Folded().(pcs := [Draining(1, 1, true, false)], snapActive := true, writer := Some(0), acc := [Batch(0, Rows())], sinks := [[]]);
    assert AccessedTable(s10) == map[0 := 7];
  }

  ghost function Drained(): State
  {
    Folded().(pcs := [Subtracted(map[0 := 7], true)], snapActive := true, writer := Some(0),
              acc := [Batch(0, Rows())], sinks := [[]], gauge := 0)
  }

  ghost function Stored(): State
  {
    Drained().(pcs := [Written({0}, true)], acc := [], shards := map[0 := Durable()], nextShard := 1)
  }

  lemma WriteOk()
    ensures Leads(Drained(), WriteShard(0, true), Stored())
  {
    var b := [Batch(0, Rows())];
    assert CusOf(b) == {0} by { assert b[0].cu == 0; }
    assert Protocol.RowsOf(b) == Rows() by { assert b[0].rows == Rows(); }
  }

  lemma CheckpointOk()
    ensures Leads(Stored(), WriteCheckpoint(0, true), Snapped())
  {
    assert {} + {0} == {0};
  }

  ghost function Resumed(): State
  {
    State(Running, false, map[0 := Durable()], Some({0}), [], [Idle], [0], [[]], [], {0}, map[7 := 0], {}, 1, 1, false, 0, 0, None, {}, {})
  }

  lemma ResumeOk()
    ensures Leads(Snapped(), Crash, Snapped().(phase := Stopped))
    ensures Leads(Snapped().(phase := Stopped), Resume(map[7 := 0], 1, 1), Resumed())
  {
    var s := Snapped().(phase := Stopped);
    assert 0 in s.shards && s.shards[0].files[0] == 7;
    assert SeededFrom(s.shards, map[7 := 0], 1);
    assert Without([0], {0}) == [];
    var a := Apply(TheWorld(), s, Resume(map[7 := 0], 1, 1));
    assert a.pcs == [Idle] && a.idx == [0] && a.sinks == [[]];
  }

  /** The resumed run finishes, and what it hands over is the CU's one row. */
  lemma FinishOk()
    ensures Can(TheWorld(), Resumed(), Finish)
    ensures Apply(TheWorld(), Resumed(), Finish).finalRows == {IRow(5, 0)}
    ensures Apply(TheWorld(), Resumed(), Finish).finalNames == {(0, 7)}
  {
    var s := Resumed();
    assert AllRows(s) == {IRow(5, 0)} by {
      assert 0 in s.shards && IRow(5, 0) in s.shards[0].rows;
      assert Protocol.RowsOf([]) == {};
    }
    assert AllNames(s) == {(0, 7)} by { assert 0 in s.shards && 0 in s.shards[0].files; }
  }

  /** Some history of this world ends in `s`. */
  ghost predicate Arrives(s: State)
  {
    exists ss, steps :: History(TheWorld(), ss, steps) && |ss| > 0 && ss[|ss| - 1] == s
  }

  lemma Departs()
    ensures Arrives(Fresh())
  {
    assert History(TheWorld(), [Fresh()], []);
  }

  lemma Onwards(s: State, t: Step, s': State)
    requires Arrives(s) && Leads(s, t, s')
    ensures Arrives(s')
  {
    hide Can, Apply;
    var ss: seq<State>, steps: seq<Step> :| History(TheWorld(), ss, steps) && |ss| > 0 && ss[|ss| - 1] == s;
    var more, longer := ss + [s'], steps + [t];
    forall i | 0 <= i < |longer| ensures Can(TheWorld(), more[i], longer[i]) && more[i + 1] == Apply(TheWorld(), more[i], longer[i]) {
      if i < |steps| {
        assert more[i] == ss[i] && more[i + 1] == ss[i + 1] && longer[i] == steps[i];
      }
    }
    assert History(TheWorld(), more, longer);
  }

  lemma ArrivesSnapped()
    ensures Arrives(Snapped())
  {
    Departs();
    StartOk();
    EnterOk();
    IngestOk();
    FoldOk();
    GateOk();
    ProceedOk();
    DrainOk();
    SubtractOk();
    WriteOk();
    CheckpointOk();
    hide Arrives, Leads;
    var s1 := Begun().(pcs := [Registered], active := 1);
    var s2 := s1.(pcs := [Body({LRow(5, 7)}, {})]);
    var s3 := s2.(pcs := [Body({}, Rows())], accessed := {7});
    var s4 := s3.(pcs := [InSink(Rows())]);
    var s5 := s4.(pcs := [Merged(1)], sinks := [[Batch(0, Rows())]]);
    var s6 := s5.(pcs := [Added], gauge := 1);
    Onwards(Fresh(), Begin([7], map[7 := 0]), Begun());
    Onwards(Begun(), Register(0), s1);
    Onwards(s1, Gate(0), s2);
    Onwards(s2, Ingest(0, LRow(5, 7)), s3);
    Onwards(s3, LockSink(0), s4);
    Onwards(s4, MergeSink(0), s5);
    Onwards(s5, AddGauge(0), s6);
    Onwards(s6, Unlock(0), Folded());
    var s8 := Folded().(pcs := [SnapWait], snapActive := true, writer := Some(0));
    var s9 := s8.(pcs := [Draining(0, 0, true, false)]);
    var s10 := s9.(pcs := [Draining(1, 1, true, false)], acc := [Batch(0, Rows())], sinks := [[]]);
    var s11 := s10.(pcs := [Subtracted(map[0 := 7], true)], gauge := 0);
    var s12 := s11.(pcs := [Written({0}, true)], acc := [], shards := map[0 := Durable()], nextShard := 1);
    Onwards(Folded(), SnapStart(0), s8);
    Onwards(s8, SnapProceed(0), s9);
    Onwards(s9, Drain(0), s10);
    Onwards(s10, Subtract(0), s11);
    Onwards(s11, WriteShard(0, true), s12);
    Onwards(s12, WriteCheckpoint(0, true), Snapped());
  }

  /** A history with a snapshot, a crash, an accepted resume and a finished build exists. */
  lemma CrashedBuildFinishes() returns (done: State)
    ensures Arrives(done) && done.phase == Done && done.finalRows == {IRow(5, 0)} && done.finalNames == {(0, 7)}
  {
    ArrivesSnapped();
    ResumeOk();
    FinishOk();
    done := Apply(TheWorld(), Resumed(), Finish);
    assert done.phase == Done;
    hide Arrives, Apply;
    Onwards(Snapped(), Crash, Snapped().(phase := Stopped));
    Onwards(Snapped().(phase := Stopped), Resume(map[7 := 0], 1, 1), Resumed());
    Onwards(Resumed(), Finish, done);
  }
}
