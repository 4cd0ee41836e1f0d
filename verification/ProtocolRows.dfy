/** Rows over whole histories: what is buffered is exactly what its CUs produce, under the
    allocator's ids, and every durable shard resolves to exactly the rows of its CUs. */
module ProtocolRows {
  import opened Bytes
  import opened Protocol
  import opened ProtocolIds
  import ProtocolGate

  /** `rows` is `labelled` with each path replaced by its id. */
  ghost predicate Carries(rows: set<IRow>, labelled: set<LRow>, alloc: map<Path, nat>)
  {
    && (forall l | l in labelled :: l.path in alloc && IRow(l.key, alloc[l.path]) in rows)
    && (forall r | r in rows :: exists l :: l in labelled && l.path in alloc && r == IRow(l.key, alloc[l.path]))
  }

  ghost predicate Seen(labelled: set<LRow>, accessed: set<Path>)
  {
    forall l | l in labelled :: l.path in accessed
  }

  ghost predicate BatchOk(c: World, alloc: map<Path, nat>, accessed: set<Path>, b: Batch)
  {
    b.cu in c.succeeds && b.cu in c.rows && Carries(b.rows, c.rows[b.cu], alloc) && Seen(c.rows[b.cu], accessed)
  }

  ghost predicate BufferOk(c: World, alloc: map<Path, nat>, accessed: set<Path>, bs: seq<Batch>)
  {
    forall i | 0 <= i < |bs| :: BatchOk(c, alloc, accessed, bs[i])
  }

  /** Every path of the buffered rows has its id in the file table. */
  ghost predicate Covers(c: World, alloc: map<Path, nat>, files: map<nat, Path>, bs: seq<Batch>)
  {
    forall i, l | 0 <= i < |bs| && bs[i].cu in c.rows && l in c.rows[bs[i].cu] :: l.path in alloc && alloc[l.path] in files
  }

  ghost predicate PcOk(c: World, s: State, w: nat)
    requires Shape(c, s) && w < c.workers
  {
    match s.pcs[w]
    case Body(todo, got) =>
      && s.idx[w] < |s.plan| && Current(s, w) in c.rows && todo <= c.rows[Current(s, w)]
      && Carries(got, c.rows[Current(s, w)] - todo, s.alloc) && Seen(c.rows[Current(s, w)] - todo, s.accessed)
    case InSink(got) =>
      s.idx[w] < |s.plan| && BatchOk(c, s.alloc, s.accessed, Batch(Current(s, w), got))
    case Subtracted(files, _) => Covers(c, s.alloc, files, s.acc)
    case _ => true
  }

  /** The shard holds every row the unit produces, under its own file table. */
  ghost predicate HoldsUnit(c: World, sh: Shard, u: Cu)
  {
    u in c.rows && forall l | l in c.rows[u] :: exists id :: id in sh.files && sh.files[id] == l.path && IRow(l.key, id) in sh.rows
  }

  /** A durable shard resolves, through its own file table, to exactly its CUs' rows. */
  ghost predicate ShardOk(c: World, sh: Shard)
  {
    && (forall u | u in sh.cus :: u in c.succeeds && u in c.rows)
    && (forall r | r in sh.rows :: r.file in sh.files && exists u :: u in sh.cus && LRow(r.key, sh.files[r.file]) in c.rows[u])
    && (forall u | u in sh.cus :: HoldsUnit(c, sh, u))
  }

  ghost predicate ShardsOk(c: World, shards: map<nat, Shard>)
  {
    forall i | i in shards :: ShardOk(c, shards[i])
  }

  ghost predicate SinksOk(c: World, s: State)
  {
    forall w | 0 <= w < |s.sinks| :: BufferOk(c, s.alloc, s.accessed, s.sinks[w])
  }

  ghost predicate PcsOk(c: World, s: State)
    requires Shape(c, s)
  {
    forall w | 0 <= w < c.workers :: PcOk(c, s, w)
  }

  ghost predicate RowsInv(c: World, s: State)
  {
    && ShardsOk(c, s.shards)
    && (s.phase == Running ==>
      Shape(c, s) && SinksOk(c, s) && BufferOk(c, s.alloc, s.accessed, s.acc) && PcsOk(c, s))
  }

  // ---------------------------------------------------------------- quiet steps

  ghost predicate Neutral(pc: Pc)
  {
    !pc.Body? && !pc.InSink? && !pc.Subtracted?
  }

  ghost predicate SameStore(s: State, s': State)
  {
    s'.sinks == s.sinks && s'.acc == s.acc && s'.alloc == s.alloc && s'.accessed == s.accessed && s'.plan == s.plan && s'.shards == s.shards
  }

  lemma PcFrame(c: World, s: State, s': State, v: nat)
    requires Shape(c, s) && Shape(c, s') && v < c.workers && PcOk(c, s, v)
    requires s'.pcs[v] == s.pcs[v] && s'.idx[v] == s.idx[v] && s'.plan == s.plan
    requires s'.acc == s.acc && s'.alloc == s.alloc && s'.accessed == s.accessed
    ensures PcOk(c, s', v)
  {
  }

  /** A step that leaves the buffers alone and puts its worker in an acceptable place. */
  lemma RowsMove(c: World, s: State, s': State, w: nat)
    requires RowsInv(c, s) && s.phase == Running && s'.phase == Running && Shape(c, s') && w < c.workers
    requires SameStore(s, s') && PcOk(c, s', w)
    requires forall v | 0 <= v < c.workers && v != w :: s'.pcs[v] == s.pcs[v] && s'.idx[v] == s.idx[v]
    ensures RowsInv(c, s')
  {
    hide PcOk, BufferOk, ShardsOk;
    forall v | 0 <= v < c.workers ensures PcOk(c, s', v) {
      if v != w { PcFrame(c, s, s', v); }
    }
  }

  lemma RowsQuiet(c: World, s: State, t: Step)
    requires RowsInv(c, s) && Can(c, s, t) && RunStep(t)
    requires !t.Gate? && !t.Ingest? && !t.LockSink? && !t.MergeSink? && !t.Drain? && !t.Subtract? && !t.WriteShard?
    ensures RowsInv(c, Apply(c, s, t))
  {
    hide RowsInv, Can;
    Footprint(c, s, t);
    QuietLands(c, s, t);
    hide Apply;
    RowsMove(c, s, Apply(c, s, t), t.w);
  }

  lemma QuietLands(c: World, s: State, t: Step)
    requires Can(c, s, t) && RunStep(t)
    requires !t.Gate? && !t.Ingest? && !t.LockSink? && !t.MergeSink? && !t.Drain? && !t.Subtract? && !t.WriteShard?
    ensures |Apply(c, s, t).pcs| == |s.pcs| && t.w < |s.pcs| && Neutral(Apply(c, s, t).pcs[t.w])
    ensures forall v | 0 <= v < |s.idx| && v != t.w :: |Apply(c, s, t).idx| == |s.idx| && Apply(c, s, t).idx[v] == s.idx[v]
  {
  }

  lemma RowsGate(c: World, s: State, w: nat)
    requires RowsInv(c, s) && Can(c, s, Gate(w))
    ensures RowsInv(c, Apply(c, s, Gate(w)))
  {
    hide RowsInv;
    var s' := Apply(c, s, Gate(w));
    assert !s.snapActive ==> s'.pcs[w].todo == c.rows[Current(s, w)] && c.rows[Current(s, w)] - s'.pcs[w].todo == {};
    RowsMove(c, s, s', w);
  }

  lemma RowsLock(c: World, s: State, w: nat)
    requires RowsInv(c, s) && Can(c, s, LockSink(w))
    ensures RowsInv(c, Apply(c, s, LockSink(w)))
  {
    hide RowsInv, Carries, Seen;
    var s' := Apply(c, s, LockSink(w));
    PcAt(c, s, w);
    var rows := c.rows[Current(s, w)];
    assert rows - {} == rows;
    RowsMove(c, s, s', w);
  }

  lemma PcAt(c: World, s: State, w: nat)
    requires RowsInv(c, s) && s.phase == Running && w < c.workers
    ensures Shape(c, s) && PcOk(c, s, w)
  {
  }

  lemma RowsSubtract(c: World, s: State, w: nat)
    requires RowsInv(c, s) && IdsInv(c, s) && Can(c, s, Subtract(w))
    ensures RowsInv(c, Apply(c, s, Subtract(w)))
  {
    hide RowsInv, ShardsAgree, TablesOk;
    var s' := Apply(c, s, Subtract(w));
    AccBufferOk(c, s);
    assert Covers(c, s.alloc, AccessedTable(s), s.acc);
    RowsMove(c, s, s', w);
  }

  lemma AccBufferOk(c: World, s: State)
    requires RowsInv(c, s) && s.phase == Running
    ensures BufferOk(c, s.alloc, s.accessed, s.acc)
  {
  }

  // ---------------------------------------------------------------- ingesting

  ghost predicate Extends(alloc: map<Path, nat>, more: map<Path, nat>)
  {
    forall q | q in alloc :: q in more && more[q] == alloc[q]
  }

  lemma CarriesMore(rows: set<IRow>, labelled: set<LRow>, alloc: map<Path, nat>, more: map<Path, nat>)
    requires Carries(rows, labelled, alloc) && Extends(alloc, more)
    ensures Carries(rows, labelled, more)
  {
    forall r | r in rows ensures exists l :: l in labelled && l.path in more && r == IRow(l.key, more[l.path]) {
      var l :| l in labelled && l.path in alloc && r == IRow(l.key, alloc[l.path]);
      assert l in labelled && more[l.path] == alloc[l.path];
    }
  }

  lemma CarriesStable(rows: set<IRow>, labelled: set<LRow>, s: State, p: Path)
    requires AllocOk(s) && Carries(rows, labelled, s.alloc) && Seen(labelled, s.accessed)
    ensures Carries(rows, labelled, Interned(s, p).alloc) && Seen(labelled, Interned(s, p).accessed)
  {
    hide Carries;
    InternKeeps(s, p);
    CarriesMore(rows, labelled, s.alloc, Interned(s, p).alloc);
  }

  lemma BufferStable(c: World, s: State, p: Path, bs: seq<Batch>)
    requires AllocOk(s) && BufferOk(c, s.alloc, s.accessed, bs)
    ensures BufferOk(c, Interned(s, p).alloc, Interned(s, p).accessed, bs)
  {
    hide Carries, Seen, AllocOk, Interned;
    forall i | 0 <= i < |bs| ensures BatchOk(c, Interned(s, p).alloc, Interned(s, p).accessed, bs[i]) {
      assert BatchOk(c, s.alloc, s.accessed, bs[i]);
      CarriesStable(bs[i].rows, c.rows[bs[i].cu], s, p);
    }
  }

  lemma PcStable(c: World, s: State, p: Path, w: nat)
    requires Shape(c, s) && w < c.workers && AllocOk(s) && PcOk(c, s, w)
    ensures PcOk(c, Interned(s, p), w)
  {
    hide Carries, Seen, AllocOk;
    match s.pcs[w]
    case Body(todo, got) => CarriesStable(got, c.rows[Current(s, w)] - todo, s, p);
    case InSink(got) => CarriesStable(got, c.rows[Current(s, w)], s, p);
    case Subtracted(files, _) => CoversStable(c, s, p, files, s.acc);
    case _ =>
  }

  lemma CoversStable(c: World, s: State, p: Path, files: map<nat, Path>, bs: seq<Batch>)
    requires AllocOk(s) && Covers(c, s.alloc, files, bs)
    ensures Covers(c, Interned(s, p).alloc, files, bs)
  {
  }

  lemma CarriesOneMore(got: set<IRow>, labelled: set<LRow>, row: LRow, alloc: map<Path, nat>)
    requires Carries(got, labelled, alloc) && row.path in alloc
    ensures Carries(got + {IRow(row.key, alloc[row.path])}, labelled + {row}, alloc)
  {
    var all := labelled + {row};
    forall r | r in got + {IRow(row.key, alloc[row.path])}
      ensures exists l :: l in all && l.path in alloc && r == IRow(l.key, alloc[l.path])
    {
      if r in got {
        var l :| l in labelled && l.path in alloc && r == IRow(l.key, alloc[l.path]);
        assert l in all;
      } else {
        assert row in all;
      }
    }
  }

  lemma IngestOne(rows: set<LRow>, todo: set<LRow>, got: set<IRow>, row: LRow, s: State)
    requires AllocOk(s) && row in todo && todo <= rows && Carries(got, rows - todo, s.alloc) && Seen(rows - todo, s.accessed)
    ensures row.path in Interned(s, row.path).alloc
    ensures Carries(got + {IRow(row.key, Interned(s, row.path).alloc[row.path])}, rows - (todo - {row}), Interned(s, row.path).alloc)
    ensures Seen(rows - (todo - {row}), Interned(s, row.path).accessed)
  {
    hide Carries, AllocOk;
    CarriesStable(got, rows - todo, s, row.path);
    CarriesOneMore(got, rows - todo, row, Interned(s, row.path).alloc);
    assert rows - (todo - {row}) == rows - todo + {row};
  }

  lemma RowsIntern(c: World, s: State, p: Path)
    requires RowsInv(c, s) && s.phase == Running && AllocOk(s)
    ensures RowsInv(c, Interned(s, p))
  {
    hide AllocOk, PcOk, BufferOk, ShardsOk;
    BufferStable(c, s, p, s.acc);
    forall w | 0 <= w < |s.sinks| ensures BufferOk(c, Interned(s, p).alloc, Interned(s, p).accessed, s.sinks[w]) {
      BufferStable(c, s, p, s.sinks[w]);
    }
    forall w | 0 <= w < c.workers ensures PcOk(c, Interned(s, p), w) { PcStable(c, s, p, w); }
  }

  lemma RowsIngest(c: World, s: State, w: nat, row: LRow)
    requires RowsInv(c, s) && IdsInv(c, s) && Can(c, s, Ingest(w, row))
    ensures RowsInv(c, AfterIngest(s, w, row))
  {
    hide RowsInv, AllocOk, ShardsAgree, TablesOk, Carries, Seen;
    PcAt(c, s, w);
    IngestOne(c.rows[Current(s, w)], s.pcs[w].todo, s.pcs[w].got, row, s);
    RowsIntern(c, s, row.path);
    RowsMove(c, Interned(s, row.path), AfterIngest(s, w, row), w);
  }

  // ---------------------------------------------------------------- buffers change hands

  lemma RowsMerge(c: World, s: State, w: nat)
    requires RowsInv(c, s) && Can(c, s, MergeSink(w))
    ensures RowsInv(c, Apply(c, s, MergeSink(w)))
  {
    hide BatchOk, ShardsOk, Covers, Carries, Seen;
    var s' := Apply(c, s, MergeSink(w));
    assert PcOk(c, s, w);
    assert BufferOk(c, s.alloc, s.accessed, s.sinks[w]);
    forall v | 0 <= v < c.workers ensures PcOk(c, s', v) {
      assert PcOk(c, s, v);
    }
  }

  lemma RowsDrain(c: World, s: State, w: nat)
    requires RowsInv(c, s) && ProtocolGate.GateInv(c, s) && Can(c, s, Drain(w))
    ensures RowsInv(c, AfterDrain(s, w))
  {
    hide BatchOk, ShardsOk, Covers, Carries, Seen, ProtocolGate.GateInv, Count;
    ProtocolGate.WriterIs(c, s, w);
    var s' := AfterDrain(s, w);
    assert BufferOk(c, s.alloc, s.accessed, s.sinks[s.pcs[w].k]);
    forall v | 0 <= v < c.workers ensures PcOk(c, s', v) {
      assert PcOk(c, s, v);
      if s.pcs[v].Subtracted? { ProtocolGate.WriterIs(c, s, v); }
    }
  }

  /** What the snapshotter writes is right. */
  lemma NewShardOk(c: World, s: State, bs: seq<Batch>, files: map<nat, Path>)
    requires AllocOk(s) && Embeds(files, s.alloc) && BufferOk(c, s.alloc, s.accessed, bs) && Covers(c, s.alloc, files, bs)
    ensures ShardOk(c, Shard(CusOf(bs), Protocol.RowsOf(bs), files))
  {
    var sh := Shard(CusOf(bs), Protocol.RowsOf(bs), files);
    forall r | r in sh.rows
      ensures r.file in sh.files && exists u :: u in sh.cus && LRow(r.key, sh.files[r.file]) in c.rows[u]
    {
      var i :| 0 <= i < |bs| && r in bs[i].rows;
      assert BatchOk(c, s.alloc, s.accessed, bs[i]);
      var l :| l in c.rows[bs[i].cu] && l.path in s.alloc && r == IRow(l.key, s.alloc[l.path]);
      assert sh.files[r.file] == l.path;
      assert bs[i].cu in sh.cus && LRow(r.key, sh.files[r.file]) == l;
    }
    forall u, l | u in sh.cus && l in c.rows[u]
      ensures exists id :: id in sh.files && sh.files[id] == l.path && IRow(l.key, id) in sh.rows
    {
      var i :| 0 <= i < |bs| && bs[i].cu == u;
      assert BatchOk(c, s.alloc, s.accessed, bs[i]);
      var id := s.alloc[l.path];
      assert id in files && sh.files[id] == l.path && IRow(l.key, id) in bs[i].rows;
    }
  }

  lemma RowsWrite(c: World, s: State, w: nat, ok: bool)
    requires RowsInv(c, s) && IdsInv(c, s) && Can(c, s, WriteShard(w, ok))
    ensures RowsInv(c, AfterWrite(s, w, ok))
  {
    hide AllocOk, BatchOk, Carries, Seen, ShardsAgree, ShardOk, CusOf, Protocol.RowsOf;
    var s' := AfterWrite(s, w, ok);
    assert PcOk(c, s, w);
    hide Embeds;
    NewShardOk(c, s, s.acc, s.pcs[w].files);
    forall v | 0 <= v < c.workers ensures PcOk(c, s', v) {
      assert PcOk(c, s, v);
    }
  }

  // ---------------------------------------------------------------- every step, every history

  lemma RowsStart(c: World, s: State, t: Step)
    requires RowsInv(c, s) && Can(c, s, t) && !RunStep(t)
    ensures RowsInv(c, Apply(c, s, t))
  {
    hide ShardsOk, AllRows, AllNames, SeededPaths, SeededFrom;
  }

  lemma RowsStep(c: World, s: State, t: Step)
    requires RowsInv(c, s) && IdsInv(c, s) && ProtocolGate.GateInv(c, s) && Can(c, s, t)
    ensures RowsInv(c, Apply(c, s, t))
  {
    hide RowsInv, Can, IdsInv, ProtocolGate.GateInv;
    if !RunStep(t) { hide Apply; RowsStart(c, s, t); }
    else if t.Ingest? { RowsIngest(c, s, t.w, t.row); }
    else if t.Drain? { RowsDrain(c, s, t.w); }
    else if t.WriteShard? { RowsWrite(c, s, t.w, t.ok); }
    else {
      hide Apply;
      if t.Gate? { RowsGate(c, s, t.w); }
      else if t.LockSink? { RowsLock(c, s, t.w); }
      else if t.MergeSink? { RowsMerge(c, s, t.w); }
      else if t.Subtract? { RowsSubtract(c, s, t.w); }
      else { RowsQuiet(c, s, t); }
    }
  }

  lemma {:induction false} RowsAlways(c: World, ss: seq<State>, steps: seq<Step>, i: nat)
    requires History(c, ss, steps) && i < |ss|
    ensures RowsInv(c, ss[i])
  {
    hide Apply, Can;
    if i > 0 {
      RowsAlways(c, ss, steps, i - 1);
      IdsAlways(c, ss, steps, i - 1);
      ProtocolGate.GateAlways(c, ss, steps, i - 1);
      assert Can(c, ss[i - 1], steps[i - 1]) && ss[i - 1 + 1] == Apply(c, ss[i - 1], steps[i - 1]);
      RowsStep(c, ss[i - 1], steps[i - 1]);
    }
  }
}
