/** Which paths get a row in a file table: only those some unit's rows are about. Seeding the
    allocator with every candidate path adds none. */
module ProtocolNames {
  import opened Bytes
  import opened Protocol
  import opened ProtocolIds

  /** A path some unit's row is about. */
  ghost predicate Touched(c: World, p: Path)
  {
    exists u, l :: u in c.rows && l in c.rows[u] && l.path == p
  }

  ghost predicate AllTouched(c: World, files: map<nat, Path>)
  {
    forall id | id in files :: Touched(c, files[id])
  }

  ghost predicate NamesInv(c: World, s: State)
  {
    && (forall i | i in s.shards :: AllTouched(c, s.shards[i].files))
    && (s.phase == Running ==>
          && Shape(c, s) && (forall p | p in s.accessed :: Touched(c, p))
          && (forall w | 0 <= w < c.workers && s.pcs[w].Subtracted? :: AllTouched(c, s.pcs[w].files))
          && (forall w, l | 0 <= w < c.workers && s.pcs[w].Body? && l in s.pcs[w].todo :: Touched(c, l.path)))
  }

  /** A step that leaves the shards and the referenced paths, and arrives nowhere special. */
  lemma NamesMove(c: World, s: State, s': State, w: nat)
    requires NamesInv(c, s) && s.phase == Running && s'.phase == Running && Shape(c, s') && w < c.workers
    requires s'.shards == s.shards && s'.accessed == s.accessed
    requires forall v | 0 <= v < c.workers && v != w :: s'.pcs[v] == s.pcs[v]
    requires !s'.pcs[w].Subtracted? && !s'.pcs[w].Body?
    ensures NamesInv(c, s')
  {
  }

  lemma Elsewhere(c: World, s: State, t: Step)
    requires Can(c, s, t) && RunStep(t) && !t.Gate? && !t.Ingest? && !t.Subtract? && !t.WriteShard?
    ensures t.w < |Apply(c, s, t).pcs| && !Apply(c, s, t).pcs[t.w].Subtracted? && !Apply(c, s, t).pcs[t.w].Body?
  {
    hide Count, AccessedTable;
    if SnapStep(t) { ElsewhereSnap(c, s, t); } else if t.Drain? {} else { ElsewhereOwn(c, s, t); }
  }

  lemma ElsewhereSnap(c: World, s: State, t: Step)
    requires Can(c, s, t) && SnapStep(t) && !t.Subtract?
    ensures t.w < |Apply(c, s, t).pcs| && !Apply(c, s, t).pcs[t.w].Subtracted? && !Apply(c, s, t).pcs[t.w].Body?
  {
  }

  lemma ElsewhereOwn(c: World, s: State, t: Step)
    requires Can(c, s, t) && RunStep(t) && !SnapStep(t) && !t.Drain? && !t.WriteShard? && !t.Gate? && !t.Ingest?
    ensures t.w < |Apply(c, s, t).pcs| && !Apply(c, s, t).pcs[t.w].Subtracted? && !Apply(c, s, t).pcs[t.w].Body?
  {
  }

  lemma NamesGate(c: World, s: State, w: nat)
    requires NamesInv(c, s) && Can(c, s, Gate(w))
    ensures NamesInv(c, Apply(c, s, Gate(w)))
  {
    var u := Current(s, w);
    forall l | l in c.rows[u] ensures Touched(c, l.path) {}
  }

  lemma NamesIngest(c: World, s: State, w: nat, row: LRow)
    requires NamesInv(c, s) && Can(c, s, Ingest(w, row))
    ensures NamesInv(c, Apply(c, s, Ingest(w, row)))
  {
    hide Touched;
  }

  lemma NamesSubtract(c: World, s: State, w: nat)
    requires NamesInv(c, s) && Can(c, s, Subtract(w))
    ensures NamesInv(c, Apply(c, s, Subtract(w)))
  {
    hide Touched;
    var files := AccessedTable(s);
    assert AllTouched(c, files);
  }

  lemma NamesWrite(c: World, s: State, w: nat, ok: bool)
    requires NamesInv(c, s) && Can(c, s, WriteShard(w, ok))
    ensures NamesInv(c, Apply(c, s, WriteShard(w, ok)))
  {
    hide AllTouched, Touched, CusOf, Protocol.RowsOf;
  }

  lemma NamesStart(c: World, s: State, t: Step)
    requires NamesInv(c, s) && Can(c, s, t) && !RunStep(t)
    ensures NamesInv(c, Apply(c, s, t))
  {
    hide AllTouched, Touched, AllRows, AllNames, SeededFrom, SeededPaths, Without;
  }

  lemma NamesStep(c: World, s: State, t: Step)
    requires NamesInv(c, s) && Can(c, s, t)
    ensures NamesInv(c, Apply(c, s, t))
  {
    hide NamesInv, Can, Apply;
    if !RunStep(t) { NamesStart(c, s, t); }
    else if t.Gate? { NamesGate(c, s, t.w); }
    else if t.Ingest? { NamesIngest(c, s, t.w, t.row); }
    else if t.Subtract? { NamesSubtract(c, s, t.w); }
    else if t.WriteShard? { NamesWrite(c, s, t.w, t.ok); }
    else {
      Footprint(c, s, t);
      Elsewhere(c, s, t);
      NamesMove(c, s, Apply(c, s, t), t.w);
    }
  }

  lemma {:induction false} NamesAlways(c: World, ss: seq<State>, steps: seq<Step>, i: nat)
    requires History(c, ss, steps) && i < |ss|
    ensures NamesInv(c, ss[i])
  {
    hide Apply, Can;
    if i > 0 {
      NamesAlways(c, ss, steps, i - 1);
      assert Can(c, ss[i - 1], steps[i - 1]) && ss[i - 1 + 1] == Apply(c, ss[i - 1], steps[i - 1]);
      NamesStep(c, ss[i - 1], steps[i - 1]);
    }
  }

  /** Every path in the file table of a durable shard or of a finished build is one some unit's
      row is about. */
  lemma NamedPathsTouched(c: World, ss: seq<State>, steps: seq<Step>, i: nat)
    requires History(c, ss, steps) && i < |ss|
    ensures forall k, id | k in ss[i].shards && id in ss[i].shards[k].files :: Touched(c, ss[i].shards[k].files[id])
    ensures i < |steps| && steps[i].Finish? ==> forall n | n in ss[i + 1].finalNames :: Touched(c, n.1)
  {
    NamesAlways(c, ss, steps, i);
    if i < |steps| && steps[i].Finish? {
      assert Can(c, ss[i], steps[i]) && ss[i + 1] == Apply(c, ss[i], steps[i]);
      hide Touched, History, AllRows;
      FinalTouched(c, ss[i]);
    }
  }

  lemma FinalTouched(c: World, s: State)
    requires NamesInv(c, s) && Can(c, s, Finish)
    ensures forall n | n in AllNames(s) :: Touched(c, n.1)
  {
    hide Touched;
  }
}
