/** How often each row is emitted, counted in the events of the stream: an edge of an anchor
    whose kind and start arrive at all yields its rows once, whenever it arrives. */
module AnchorCounts {
  import opened Bytes
  import opened Anchors
  import opened AnchorOrder

  ghost predicate Kinded(es: seq<Event>, k: Key)
  {
    exists i :: 0 <= i < |es| && es[i].Kind? && es[i].key == k
  }

  ghost predicate StartsAt(es: seq<Event>, k: Key, at: nat)
  {
    exists i :: 0 <= i < |es| && es[i].Start? && es[i].key == k && es[i].at == at
  }

  ghost predicate EndsAt(es: seq<Event>, k: Key, at: nat)
  {
    exists i :: 0 <= i < |es| && es[i] == End(k, at)
  }

  /** Edge event `e` of the stream gives row `o`. */
  ghost predicate Gives(es: seq<Event>, e: Event, o: Out)
  {
    e.Edge? && Kinded(es, e.key) &&
    match o
    case Xref(sym, role, path, at) =>
      StartsAt(es, e.key, at) && e.path == path && !e.pend.empty && e.pend.sym == sym && e.pend.role == role
    case CallSite(path, at, sym, role) =>
      (role == Ref || role == Call) && StartsAt(es, e.key, at) && e.path == path && e.pend.sym == sym && e.pend.role == role
    case Body(path, from, to, sym) =>
      StartsAt(es, e.key, from) && EndsAt(es, e.key, to) && e.path == path && e.pend.sym == sym && e.pend.role == Def
  }

  /** How many of the events `part` of the stream `es` give `o`. */
  ghost function Tally(es: seq<Event>, part: seq<Event>, o: Out): nat
  {
    if part == [] then 0
    else Tally(es, part[..|part| - 1], o) + if Gives(es, part[|part| - 1], o) then 1 else 0
  }

  // ---------------------------------------------------------------- summaries are events

  /** What a consistent stream's summary says, its events say. */
  ghost predicate SummaryTells(q: Summary, es: seq<Event>, k: Key)
  {
    && (q.kind <==> Kinded(es, k))
    && (forall at: nat :: q.start == Some(at) <==> StartsAt(es, k, at))
    && (forall at: nat :: q.end == Some(at) <==> EndsAt(es, k, at))
  }

  lemma {:induction false} SummaryIs(es: seq<Event>, k: Key)
    requires Consistent(es)
    ensures SummaryTells(SummaryOf(es, k), es, k)
  {
    if es != [] {
      var n := |es| - 1;
      forall i, j | 0 <= i < j < n ensures Compatible(es[..n][i], es[..n][j]) {}
      SummaryIs(es[..n], k);
      assert es == es[..n] + [es[n]];
      SummaryMore(es[..n], es[n], k);
    }
  }

  lemma SummaryMore(es: seq<Event>, e: Event, k: Key)
    requires Consistent(es + [e]) && SummaryTells(SummaryOf(es, k), es, k)
    ensures SummaryTells(SummaryOf(es + [e], k), es + [e], k)
  {
    var fs := es + [e];
    SummaryLast(es, e, k);
    hide SummaryOf, Compatible;
    assert fs[|es|] == e && forall i :: 0 <= i < |es| ==> fs[i] == es[i];
    forall at: nat ensures StartsAt(fs, k, at) <==> StartsAt(es, k, at) || (e.Start? && e.key == k && e.at == at) {
      if StartsAt(es, k, at) { var i :| 0 <= i < |es| && es[i].Start? && es[i].key == k && es[i].at == at; assert fs[i] == es[i]; }
    }
    forall at: nat ensures EndsAt(fs, k, at) <==> EndsAt(es, k, at) || e == End(k, at) {
      if EndsAt(es, k, at) { var i :| 0 <= i < |es| && es[i] == End(k, at); assert fs[i] == es[i]; }
    }
    assert Kinded(fs, k) <==> Kinded(es, k) || (e.Kind? && e.key == k);
    if e.key == k { OneStart(es, e, k); }
  }

  /** A second start is the first one's; there is no second end. */
  lemma OneStart(es: seq<Event>, e: Event, k: Key)
    requires Consistent(es + [e]) && e.key == k
    ensures e.Start? ==> forall at: nat | StartsAt(es, k, at) :: at == e.at
    ensures e.End? ==> forall at: nat :: !EndsAt(es, k, at)
  {
    forall i | 0 <= i < |es| ensures Compatible(es[i], e) { assert (es + [e])[i] == es[i] && (es + [e])[|es|] == e; }
  }

  // ---------------------------------------------------------------- one anchor

  /** Among the events `part`, those of anchor `k` that give `o`. */
  ghost function KeyTally(es: seq<Event>, part: seq<Event>, k: Key, o: Out): nat
  {
    if part == [] then 0
    else KeyTally(es, part[..|part| - 1], k, o) + if part[|part| - 1].key == k && Gives(es, part[|part| - 1], o) then 1 else 0
  }

  /** An edge of a complete anchor gives what it yields at the anchor's place. */
  lemma GivesYields(es: seq<Event>, e: Event, o: Out)
    requires Consistent(es) && e in es && e.Edge?
    ensures var q := SummaryOf(es, e.key);
      Gives(es, e, o) <==> Complete(q) && Yields(q.path, q.start.value, q.end, e.pend, o)
  {
    SummaryIs(es, e.key);
    SummarySourced(es, e.key);
    PathIs(es, e);
    hide SummaryOf, Consistent, Sourced, Kinded, StartsAt, EndsAt;
  }

  lemma PathIs(es: seq<Event>, e: Event)
    requires Consistent(es) && e in es && e.Edge? && Sourced(es, e.key, SummaryOf(es, e.key))
    ensures Complete(SummaryOf(es, e.key)) ==> SummaryOf(es, e.key).path == e.path
  {
    hide SummaryOf;
    var q := SummaryOf(es, e.key);
    if Complete(q) {
      assert Heard(q);
      var i :| 0 <= i < |es| && es[i].key == e.key && !es[i].End? && es[i].path == q.path;
      var j :| 0 <= j < |es| && es[j] == e;
      if i < j { assert Compatible(es[i], es[j]); }
      if j < i { assert Compatible(es[j], es[i]); }
    }
  }

  lemma YieldMore(path: string, start: nat, end: Option<nat>, ps: seq<Pend>, p: Pend, o: Out)
    ensures YieldCount(path, start, end, ps + [p], o) == YieldCount(path, start, end, ps, o) + if Yields(path, start, end, p, o) then 1 else 0
  {
    assert (ps + [p])[..|ps|] == ps;
  }

  /** The edges of an anchor, in the summary of a part of the stream. */
  lemma {:induction false} KeyTallyIs(es: seq<Event>, part: seq<Event>, k: Key, o: Out)
    requires Consistent(es) && forall e | e in part :: e in es
    ensures var q := SummaryOf(es, k);
      KeyTally(es, part, k, o) == if Complete(q) then YieldCount(q.path, q.start.value, q.end, SummaryOf(part, k).edges, o) else 0
  {
    if part != [] {
      var n := |part| - 1;
      var q, e := SummaryOf(es, k), part[n];
      assert part == part[..n] + [e];
      KeyTallyIs(es, part[..n], k, o);
      SummaryLast(part[..n], e, k);
      if e.Edge? && e.key == k {
        GivesYields(es, e, o);
        if Complete(q) { YieldMore(q.path, q.start.value, q.end, SummaryOf(part[..n], k).edges, e.pend, o); }
      }
      hide SummaryOf, Consistent, Yields, YieldCount;
    } else {
      assert SummaryOf(part, k).edges == [];
    }
  }

  lemma OwedIs(es: seq<Event>, k: Key, o: Out)
    requires Consistent(es)
    ensures Owed(SummaryOf(es, k))[o] == KeyTally(es, es, k, o)
  {
    KeyTallyIs(es, es, k, o);
    var q := SummaryOf(es, k);
    if Complete(q) { AllRowsAre(q.path, q.start.value, q.end, q.edges, o); }
  }

  // ---------------------------------------------------------------- a late end, in any stream

  /** Edge `i` is the last `defines` of the list. */
  ghost predicate LastDef(ps: seq<Pend>, i: nat)
  {
    i < |ps| && ps[i].role == Def && forall j :: i < j < |ps| ==> ps[j].role != Def
  }

  lemma {:induction false} FlushLeaves(body: Option<nat>, end: Option<nat>, ps: seq<Pend>)
    ensures forall i: nat | LastDef(ps, i) :: FlushedBody(body, end, ps) == if end.Some? then None else Some(ps[i].sym)
    ensures (forall j :: 0 <= j < |ps| ==> ps[j].role != Def) ==> FlushedBody(body, end, ps) == body
  {
    if ps != [] {
      var n := |ps| - 1;
      FlushLeaves(body, end, ps[..n]);
      forall i: nat | LastDef(ps, i) && i < n ensures LastDef(ps[..n], i) {}
    }
  }

  /** Whatever the stream: an end that arrives after a flush records the last `defines` flushed,
      unless the flush knew an end and recorded it itself; with none flushed, the one that was
      there before. */
  lemma EndAfterFlush(v: View, k: Key, a: Accum, at: nat)
    requires Ready(a)
    ensures var w := Flushed(v, k, a); var out := Step(w, End(k, at)).out;
      && (forall i: nat | LastDef(a.pending, i) ::
            out == if a.end.Some? then w.out else w.out + multiset{Body(a.path, a.start.value, at, a.pending[i].sym)})
      && ((forall j :: 0 <= j < |a.pending| ==> a.pending[j].role != Def) ==>
            out == if a.body.None? then w.out else w.out + multiset{Body(a.path, a.start.value, at, a.body.value)})
  {
    FlushLeaves(a.body, a.end, a.pending);
    hide FlushedBody, Anchors.AllRows;
  }

  // ---------------------------------------------------------------- all anchors

  ghost function SumTally(es: seq<Event>, part: seq<Event>, ks: seq<Key>, o: Out): nat
  {
    if ks == [] then 0 else SumTally(es, part, ks[..|ks| - 1], o) + KeyTally(es, part, ks[|ks| - 1], o)
  }

  lemma {:induction false} TotalIs(es: seq<Event>, ks: seq<Key>, o: Out)
    requires Consistent(es)
    ensures Total(es, ks)[o] == SumTally(es, es, ks, o)
  {
    hide Owed, SummaryOf, Consistent;
    if ks != [] {
      TotalIs(es, ks[..|ks| - 1], o);
      OwedIs(es, ks[|ks| - 1], o);
    }
  }

  /** One more event counts for its own anchor. */
  lemma {:induction false} SumMore(es: seq<Event>, part: seq<Event>, e: Event, ks: seq<Key>, o: Out)
    requires Distinct(ks)
    ensures SumTally(es, part + [e], ks, o) == SumTally(es, part, ks, o) + if e.key in ks && Gives(es, e, o) then 1 else 0
  {
    hide Gives;
    if ks != [] {
      var n := |ks| - 1;
      SumMore(es, part, e, ks[..n], o);
      assert (part + [e])[..|part|] == part;
      assert ks == ks[..n] + [ks[n]];
    }
  }

  lemma {:induction false} SumNone(es: seq<Event>, ks: seq<Key>, o: Out)
    ensures SumTally(es, [], ks, o) == 0
  {
    if ks != [] { SumNone(es, ks[..|ks| - 1], o); }
  }

  lemma {:induction false} SumIsTally(es: seq<Event>, part: seq<Event>, ks: seq<Key>, o: Out)
    requires Distinct(ks) && Lists(ks, part)
    ensures SumTally(es, part, ks, o) == Tally(es, part, o)
  {
    if part == [] {
      SumNone(es, ks, o);
    } else {
      var n := |part| - 1;
      assert part == part[..n] + [part[n]];
      SumIsTally(es, part[..n], ks, o);
      SumMore(es, part[..n], part[n], ks, o);
    }
  }

  /** For every well-formed stream and every row: it is emitted exactly as often as there are
      edge events that give it. */
  lemma RunEmitsCounted(es: seq<Event>, o: Out)
    requires WellFormed(es)
    ensures Run(es).out[o] == Tally(es, es, o)
  {
    var ks := KeysOf(es);
    RunEmitsOwed(es, ks);
    TotalIs(es, ks, o);
    SumIsTally(es, es, ks, o);
  }

  /** The vectors of an ingest that folded the stream: xrefs, call sites and bodies. */
  ghost predicate Counted(s: IngestState, es: seq<Event>)
    reads s
  {
    && (forall sym, role, path, at :: var o := Xref(sym, role, path, at); multiset(s.xrefs)[o] == Tally(es, es, o))
    && (forall path, at, sym, role :: var o := CallSite(path, at, sym, role); multiset(s.callSites)[o] == Tally(es, es, o))
    && (forall path, from, to, sym :: var o := Body(path, from, to, sym); multiset(s.bodyAnchors)[o] == Tally(es, es, o))
  }

  lemma IngestCounted(s: IngestState, es: seq<Event>)
    requires s.Valid() && s.AsView() == Run(es) && WellFormed(es)
    ensures Counted(s, es)
  {
    hide Run, WellFormed, Tally;
    forall o: Out
      ensures o.Xref? ==> multiset(s.xrefs)[o] == Tally(es, es, o)
      ensures o.CallSite? ==> multiset(s.callSites)[o] == Tally(es, es, o)
      ensures o.Body? ==> multiset(s.bodyAnchors)[o] == Tally(es, es, o)
    {
      RunEmitsCounted(es, o);
      OnlyOwn(s.xrefs, s.callSites, s.bodyAnchors, o);
    }
  }

  /** Ingest of one compilation unit: the stream's state, and for a well-formed stream every
      vector holds each row as often as the stream gives it. */
  method Ingest(es: seq<Event>) returns (s: IngestState)
    ensures fresh(s) && s.Valid() && s.AsView() == Run(es)
    ensures WellFormed(es) ==> Counted(s, es)
  {
    hide Counted, WellFormed, Step;
    s := new IngestState();
    var i := 0;
    while i < |es|
      invariant 0 <= i <= |es| && fresh(s) && s.Valid() && s.AsView() == Run(es[..i])
    {
      assert es[..i + 1][..i] == es[..i];
      s.ProcessEntry(es[i]);
      i := i + 1;
    }
    assert es[..i] == es;
    if WellFormed(es) { IngestCounted(s, es); }
  }
}
