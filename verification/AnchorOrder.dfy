/** Rows do not depend on arrival order: for every stream of anchor events, what the
    accumulator emits is a function of the events as a bag. */
module AnchorOrder {
  import opened Bytes
  import opened Anchors
  import Order

  // ---------------------------------------------------------------- what a stream says of an anchor

  datatype Summary = Summary(kind: bool, path: string, start: Option<nat>, end: Option<nat>, edges: seq<Pend>)

  ghost function Extend(q: Summary, e: Event): Summary
  {
    match e
    case Kind(_, path) => q.(kind := true, path := path)
    case Start(_, path, at) => q.(path := path, start := Some(at))
    case End(_, at) => q.(end := Some(at))
    case Edge(_, path, p) => q.(path := path, edges := q.edges + [p])
  }

  ghost function SummaryOf(es: seq<Event>, k: Key): Summary
  {
    if es == [] then Summary(false, "", None, None, [])
    else
      var q := SummaryOf(es[..|es| - 1], k);
      if es[|es| - 1].key == k then Extend(q, es[|es| - 1]) else q
  }

  ghost predicate Complete(q: Summary)
  {
    q.kind && q.start.Some?
  }

  /** The rows an anchor is owed: each of its edges once if its kind and start arrive, and
      nothing otherwise. */
  ghost function Owed(q: Summary): multiset<Out>
  {
    if Complete(q) then Anchors.AllRows(q.path, q.start.value, q.end, q.edges) else multiset{}
  }

  /** Over a list of anchors. */
  ghost function Total(es: seq<Event>, ks: seq<Key>): multiset<Out>
  {
    if ks == [] then multiset{} else Total(es, ks[..|ks| - 1]) + Owed(SummaryOf(es, ks[|ks| - 1]))
  }

  ghost function FilesOf(es: seq<Event>, ks: seq<Key>): set<string>
  {
    set k | k in ks && Complete(SummaryOf(es, k)) :: SummaryOf(es, k).path
  }

  // ---------------------------------------------------------------- well-formed streams

  /** Two events of one anchor agree on its path and start, and are not two ends. */
  ghost predicate Compatible(d: Event, e: Event)
  {
    d.key == e.key ==>
      && (!d.End? && !e.End? ==> d.path == e.path)
      && (d.Start? && e.Start? ==> d.at == e.at)
      && !(d.End? && e.End?)
  }

  ghost predicate Consistent(es: seq<Event>)
  {
    forall i, j :: 0 <= i < j < |es| ==> Compatible(es[i], es[j])
  }

  /** How many `defines` edges. */
  ghost function DefCount(ps: seq<Pend>): nat
  {
    if ps == [] then 0 else DefCount(ps[..|ps| - 1]) + if ps[|ps| - 1].role.Def? then 1 else 0
  }

  /** A complete anchor with an end has at most one `defines` edge. */
  ghost predicate OneBody(q: Summary)
  {
    Complete(q) && q.end.Some? ==> DefCount(q.edges) <= 1
  }

  ghost predicate WellFormed(es: seq<Event>)
  {
    Consistent(es) && forall k :: OneBody(SummaryOf(es, k))
  }

  ghost predicate Distinct(ks: seq<Key>)
  {
    forall i, j :: 0 <= i < j < |ks| ==> ks[i] != ks[j]
  }

  ghost predicate Lists(ks: seq<Key>, es: seq<Event>)
  {
    forall i :: 0 <= i < |es| ==> es[i].key in ks
  }

  // ---------------------------------------------------------------- one anchor, one event

  /** The sym of the `defines` edge, if there is one. */
  ghost function DefOf(ps: seq<Pend>): Option<nat>
  {
    if ps == [] then None
    else if ps[|ps| - 1].role.Def? then Some(ps[|ps| - 1].sym)
    else DefOf(ps[..|ps| - 1])
  }

  ghost predicate AccumOk(a: Accum, q: Summary)
  {
    && a.isAnchor == q.kind && a.start == q.start && a.end == q.end && a.path == q.path
    && a.pending == (if Complete(q) then [] else q.edges)
    && (q.end == None ==> a.body == DefOf(q.edges))
  }

  /** The event may follow what the summary has seen. */
  ghost predicate MayFollow(q: Summary, e: Event)
  {
    && (!e.End? ==> (q.path == "" && !q.kind && q.start == None && q.edges == []) || q.path == e.path)
    && (e.Start? ==> q.start == None || q.start == Some(e.at))
    && (e.End? ==> q.end == None)
  }

  lemma {:induction false} NoDef(ps: seq<Pend>)
    ensures DefOf(ps) == None <==> DefCount(ps) == 0
  {
    if ps != [] { NoDef(ps[..|ps| - 1]); }
  }

  lemma Shuffle(a: multiset<Out>, b: multiset<Out>, c: multiset<Out>, d: multiset<Out>)
    ensures (a + b) + (c + d) == (a + c) + (b + d)
  {
  }

  ghost function BodyIf(path: string, start: nat, at: nat, def: Option<nat>): multiset<Out>
  {
    OneIf(def.Some?, Body(path, start, at, EndOr(def)))
  }

  ghost function DefIf(p: Pend): Option<nat>
  {
    if p.role.Def? then Some(p.sym) else None
  }

  lemma EdgeEndOwes(path: string, start: nat, at: nat, p: Pend)
    ensures EdgeRows(path, start, Some(at), p) == EdgeRows(path, start, None, p) + BodyIf(path, start, at, DefIf(p))
  {
  }

  lemma BodiesJoin(path: string, start: nat, at: nat, d: Option<nat>, e: Option<nat>)
    requires d == None || e == None
    ensures BodyIf(path, start, at, d) + BodyIf(path, start, at, e) == BodyIf(path, start, at, if d == None then e else d)
  {
  }

  /** An end that arrives last owes exactly the body range. */
  lemma {:induction false} EndOwes(path: string, start: nat, at: nat, ps: seq<Pend>)
    requires DefCount(ps) <= 1
    ensures Anchors.AllRows(path, start, Some(at), ps) == Anchors.AllRows(path, start, None, ps) + BodyIf(path, start, at, DefOf(ps))
  {
    hide OneIf, EdgeRows;
    if ps != [] {
      var n := |ps| - 1;
      EndOwes(path, start, at, ps[..n]);
      NoDef(ps[..n]);
      EdgeEndOwes(path, start, at, ps[n]);
      BodiesJoin(path, start, at, DefOf(ps[..n]), DefIf(ps[n]));
      hide BodyIf;
      Shuffle(Anchors.AllRows(path, start, None, ps[..n]), BodyIf(path, start, at, DefOf(ps[..n])),
        EdgeRows(path, start, None, ps[n]), BodyIf(path, start, at, DefIf(ps[n])));
    } else {
      BodiesJoin(path, start, at, None, None);
      NoBody(path, start, at);
    }
  }

  lemma NoBody(path: string, start: nat, at: nat)
    ensures BodyIf(path, start, at, None) == multiset{}
  {
  }

  lemma {:induction false} FlushIsDef(body: Option<nat>, ps: seq<Pend>)
    ensures FlushedBody(body, None, ps) == if DefOf(ps) == None then body else DefOf(ps)
  {
    if ps != [] { FlushIsDef(body, ps[..|ps| - 1]); }
  }

  lemma OneMore(path: string, start: nat, end: Option<nat>, ps: seq<Pend>, p: Pend)
    ensures Anchors.AllRows(path, start, end, ps + [p]) == Anchors.AllRows(path, start, end, ps) + EdgeRows(path, start, end, p)
    ensures DefOf(ps + [p]) == if p.role.Def? then Some(p.sym) else DefOf(ps)
  {
    assert (ps + [p])[..|ps|] == ps;
  }

  /** The step seen from its own anchor. */
  ghost predicate LocalStep(v: View, e: Event, q: Summary)
  {
    && AccumOk(At(Step(v, e).anchors, e.key), Extend(q, e))
    && v.out + Owed(Extend(q, e)) == Step(v, e).out + Owed(q)
    && Step(v, e).files == v.files + (if Complete(Extend(q, e)) then {Extend(q, e).path} else {})
  }

  /** A kind or a start: the flush pays what becomes owed. */
  lemma LocalFlush(v: View, e: Event, q: Summary)
    requires (e.Kind? || e.Start?) && AccumOk(At(v.anchors, e.key), q) && MayFollow(q, e)
    ensures LocalStep(v, e, q)
  {
    hide Anchors.AllRows, EdgeRows, DefOf, FlushedBody;
    var a := At(v.anchors, e.key);
    var b := if e.Kind? then WithPath(a, e.path).(isAnchor := true) else WithPath(a, e.path).(start := Some(e.at));
    var q' := Extend(q, e);
    assert b.isAnchor == q'.kind && b.start == q'.start && b.end == q'.end && b.path == q'.path && b.body == a.body && b.pending == a.pending;
    assert Step(v, e) == Flushed(v, e.key, b);
    if Complete(q) {
      assert q' == q;
      NothingToFlush(b);
    } else if Complete(q') {
      FlushIsDef(b.body, q.edges);
    }
  }

  lemma NothingToFlush(a: Accum)
    requires Ready(a)
    ensures FlushedBody(a.body, a.end, []) == a.body
    ensures Anchors.AllRows(a.path, a.start.value, a.end, []) == multiset{}
  {
  }

  lemma LocalEdge(v: View, e: Event, q: Summary)
    requires e.Edge? && AccumOk(At(v.anchors, e.key), q) && MayFollow(q, e)
    ensures LocalStep(v, e, q)
  {
    hide Anchors.AllRows, EdgeRows, DefOf, FlushedBody;
    if Complete(q) { OneMore(e.path, q.start.value, q.end, q.edges, e.pend); }
    OneMore(e.path, 0, None, q.edges, e.pend);
  }

  lemma LocalEnd(v: View, e: Event, q: Summary)
    requires e.End? && AccumOk(At(v.anchors, e.key), q) && MayFollow(q, e)
    requires Complete(q) ==> q.path in v.files && DefCount(q.edges) <= 1
    ensures LocalStep(v, e, q)
  {
    hide Anchors.AllRows, EdgeRows, DefOf, FlushedBody;
    if Complete(q) { EndOwes(q.path, q.start.value, e.at, q.edges); }
  }

  // ---------------------------------------------------------------- whole streams

  ghost predicate Heard(q: Summary)
  {
    q.kind || q.start.Some? || q.edges != []
  }

  /** Everything in a summary was said by some event. */
  ghost predicate Sourced(es: seq<Event>, k: Key, q: Summary)
  {
    && (if Heard(q) then exists i :: 0 <= i < |es| && es[i].key == k && !es[i].End? && es[i].path == q.path else q.path == "")
    && (q.start.Some? ==> exists i :: 0 <= i < |es| && es[i].key == k && es[i].Start? && es[i].at == q.start.value)
    && (q.end.Some? ==> exists i :: 0 <= i < |es| && es[i].key == k && es[i].End?)
  }

  lemma {:induction false} SummarySourced(es: seq<Event>, k: Key)
    ensures Sourced(es, k, SummaryOf(es, k))
  {
    if es != [] {
      var n := |es| - 1;
      SummarySourced(es[..n], k);
      SourcedMore(es, k);
    }
  }

  lemma SourcedMore(es: seq<Event>, k: Key)
    requires es != [] && Sourced(es[..|es| - 1], k, SummaryOf(es[..|es| - 1], k))
    ensures Sourced(es, k, SummaryOf(es, k))
  {
    var n := |es| - 1;
    assert forall i :: 0 <= i < n ==> es[..n][i] == es[i];
    if es[n].key == k {
      assert es[n].key == k;
    }
  }

  lemma NextMayFollow(es: seq<Event>, e: Event)
    requires Consistent(es + [e])
    ensures MayFollow(SummaryOf(es, e.key), e)
  {
    hide SummaryOf;
    SummarySourced(es, e.key);
    forall i | 0 <= i < |es| ensures Compatible(es[i], e) { assert (es + [e])[i] == es[i] && (es + [e])[|es|] == e; }
  }

  /** What a prefix has seen, the whole stream has. */
  lemma {:induction false} SummaryMono(es: seq<Event>, n: nat, k: Key)
    requires n <= |es|
    ensures var p, q := SummaryOf(es[..n], k), SummaryOf(es, k);
      (Complete(p) ==> Complete(q)) && (p.end.Some? ==> q.end.Some?) && DefCount(p.edges) <= DefCount(q.edges)
    decreases |es|
  {
    if n < |es| {
      var m := |es| - 1;
      assert es[..m][..n] == es[..n];
      SummaryMono(es[..m], n, k);
      var q := SummaryOf(es[..m], k);
      if es[m].Edge? { DefMore(q.edges, es[m].pend); }
    } else {
      assert es[..n] == es;
    }
  }

  lemma DefMore(ps: seq<Pend>, p: Pend)
    ensures DefCount(ps + [p]) == DefCount(ps) + if p.role.Def? then 1 else 0
  {
    assert (ps + [p])[..|ps|] == ps;
  }

  lemma PrefixWellFormed(es: seq<Event>, n: nat)
    requires WellFormed(es) && n <= |es|
    ensures WellFormed(es[..n])
  {
    forall k ensures OneBody(SummaryOf(es[..n], k)) {
      assert OneBody(SummaryOf(es, k));
      SummaryMono(es, n, k);
    }
  }

  /** An end that finds its anchor complete finds at most one `defines`. */
  lemma EndFindsOne(es: seq<Event>, e: Event)
    requires WellFormed(es + [e]) && e.End? && Complete(SummaryOf(es, e.key))
    ensures DefCount(SummaryOf(es, e.key).edges) <= 1
  {
    assert OneBody(SummaryOf(es + [e], e.key));
    SummaryGrows(es, e, e.key);
  }

  lemma SummaryGrows(es: seq<Event>, e: Event, k: Key)
    ensures SummaryOf(es + [e], k) == if e.key == k then Extend(SummaryOf(es, k), e) else SummaryOf(es, k)
  {
    assert (es + [e])[..|es|] == es;
  }

  /** Only the event's own anchor is owed anything new. */
  lemma {:induction false} TotalStep(es: seq<Event>, e: Event, ks: seq<Key>)
    requires Distinct(ks)
    ensures e.key in ks ==>
      Total(es + [e], ks) + Owed(SummaryOf(es, e.key)) == Total(es, ks) + Owed(Extend(SummaryOf(es, e.key), e))
    ensures e.key !in ks ==> Total(es + [e], ks) == Total(es, ks)
  {
    hide Owed, Extend;
    if ks != [] {
      var n := |ks| - 1;
      TotalStep(es, e, ks[..n]);
      var q := SummaryOf(es, e.key);
      SummaryGrows(es, e, ks[n]);
      hide SummaryOf;
      if ks[n] == e.key {
        assert e.key !in ks[..n];
        Shuffle(Total(es, ks[..n]), Owed(Extend(q, e)), Owed(q), multiset{});
        assert Owed(q) + multiset{} == Owed(q);
      } else if e.key in ks {
        assert e.key in ks[..n];
        Rearrange(Total(es + [e], ks[..n]), Owed(SummaryOf(es, ks[n])), Owed(q), Total(es, ks[..n]), Owed(Extend(q, e)));
      } else {
        assert e.key !in ks[..n];
      }
    }
  }

  lemma Rearrange(t: multiset<Out>, x: multiset<Out>, o: multiset<Out>, u: multiset<Out>, n: multiset<Out>)
    requires t + o == u + n
    ensures t + x + o == u + x + n
  {
    assert t + x + o == t + o + x;
    assert u + x + n == u + n + x;
  }

  /** The state after a stream, from the stream alone. */
  ghost predicate Tracks(v: View, es: seq<Event>, ks: seq<Key>)
  {
    && (forall k :: AccumOk(At(v.anchors, k), SummaryOf(es, k)))
    && v.out == Total(es, ks) && v.files == FilesOf(es, ks)
  }

  lemma FilesStep(es: seq<Event>, e: Event, ks: seq<Key>)
    requires e.key in ks && MayFollow(SummaryOf(es, e.key), e)
    ensures FilesOf(es + [e], ks) == FilesOf(es, ks)
      + (if Complete(Extend(SummaryOf(es, e.key), e)) then {Extend(SummaryOf(es, e.key), e).path} else {})
  {
    var es' := es + [e];
    assert es'[..|es|] == es;
    var q := SummaryOf(es, e.key);
    forall p | p in FilesOf(es, ks) ensures p in FilesOf(es', ks) {
      var k :| k in ks && Complete(SummaryOf(es, k)) && p == SummaryOf(es, k).path;
      assert Complete(SummaryOf(es', k)) && p == SummaryOf(es', k).path;
    }
    forall p | p in FilesOf(es', ks) && p !in FilesOf(es, ks) ensures Complete(Extend(q, e)) && p == Extend(q, e).path {
      var k :| k in ks && Complete(SummaryOf(es', k)) && p == SummaryOf(es', k).path;
      assert k in ks;
    }
    if Complete(Extend(q, e)) { assert e.key in ks && SummaryOf(es', e.key) == Extend(q, e); }
  }

  lemma TrackStep(v: View, es: seq<Event>, e: Event, ks: seq<Key>)
    requires Tracks(v, es, ks) && WellFormed(es + [e]) && Distinct(ks) && e.key in ks
    ensures Tracks(Step(v, e), es + [e], ks)
  {
    var es' := es + [e];
    assert es'[..|es|] == es;
    var q := SummaryOf(es, e.key);
    NextMayFollow(es, e);
    PrefixWellFormed(es', |es|);
    if e.End? && Complete(q) { EndFindsOne(es, e); }
    TotalStep(es, e, ks);
    FilesStep(es, e, ks);
    LocalOf(v, e, q, ks, es);
    Cancel(v.out, Owed(Extend(q, e)), Step(v, e).out, Owed(q), Total(es', ks));
    OthersKept(v, e);
    hide Step, Total, FilesOf, Owed, MayFollow, AccumOk, WellFormed;
  }

  lemma LocalOf(v: View, e: Event, q: Summary, ks: seq<Key>, es: seq<Event>)
    requires Tracks(v, es, ks) && e.key in ks && q == SummaryOf(es, e.key) && MayFollow(q, e)
    requires e.End? && Complete(q) ==> DefCount(q.edges) <= 1
    ensures LocalStep(v, e, q)
  {
    hide LocalStep, Total, DefCount, MayFollow;
    if e.End? { LocalEnd(v, e, q); } else if e.Edge? { LocalEdge(v, e, q); } else { LocalFlush(v, e, q); }
  }

  lemma Cancel(out: multiset<Out>, owed: multiset<Out>, next: multiset<Out>, had: multiset<Out>, total: multiset<Out>)
    requires out + owed == next + had && total + had == out + owed
    ensures next == total
  {
    assert forall x :: next[x] + had[x] == total[x] + had[x] by {
      forall x ensures next[x] + had[x] == total[x] + had[x] {
        assert (next + had)[x] == (total + had)[x];
      }
    }
  }

  lemma OthersKept(v: View, e: Event)
    ensures forall k | k != e.key :: At(Step(v, e).anchors, k) == At(v.anchors, k)
  {
    hide Anchors.AllRows, EdgeRows, FlushedBody, OneIf;
  }

  /** For every stream in which each anchor has one path, one start position and at most one
      end and one `defines` edge: the rows emitted are exactly those owed to each anchor,
      and the files touched are exactly those of complete anchors. */
  lemma {:induction false} RunEmitsOwed(es: seq<Event>, ks: seq<Key>)
    requires WellFormed(es) && Distinct(ks) && Lists(ks, es)
    ensures Tracks(Run(es), es, ks)
  {
    hide Tracks, WellFormed, Step, Distinct, Run, Lists;
    if es == [] {
      NothingYet(ks);
    } else {
      var n := |es| - 1;
      PrefixWellFormed(es, n);
      PrefixListed(ks, es, n);
      RunEmitsOwed(es[..n], ks);
      assert es == es[..n] + [es[n]];
      RunLast(es[..n], es[n]);
      TrackStep(Run(es[..n]), es[..n], es[n], ks);
    }
  }

  lemma PrefixListed(ks: seq<Key>, es: seq<Event>, n: nat)
    requires Lists(ks, es) && n < |es|
    ensures Lists(ks, es[..n]) && es[n].key in ks
  {
  }

  lemma NothingYet(ks: seq<Key>)
    ensures Tracks(Run([]), [], ks)
  {
    NothingOwed(ks);
  }

  lemma {:induction false} NothingOwed(ks: seq<Key>)
    ensures Total([], ks) == multiset{} && FilesOf([], ks) == {}
  {
    if ks != [] { NothingOwed(ks[..|ks| - 1]); }
  }

  // ---------------------------------------------------------------- order does not matter

  /** Equal up to the order of the edges. */
  ghost predicate Alike(p: Summary, q: Summary)
  {
    p.kind == q.kind && p.path == q.path && p.start == q.start && p.end == q.end && multiset(p.edges) == multiset(q.edges)
  }

  ghost function ExtendFor(q: Summary, e: Event, k: Key): Summary
  {
    if e.key == k then Extend(q, e) else q
  }

  /** Two compatible events say the same in either order. */
  lemma EventsCommute(q: Summary, x: Event, y: Event, k: Key)
    requires Compatible(x, y)
    ensures Alike(ExtendFor(ExtendFor(q, x, k), y, k), ExtendFor(ExtendFor(q, y, k), x, k))
  {
  }

  lemma ExtendAlike(p: Summary, q: Summary, e: Event, k: Key)
    requires Alike(p, q)
    ensures Alike(ExtendFor(p, e, k), ExtendFor(q, e, k))
  {
  }

  lemma SummaryLast(es: seq<Event>, e: Event, k: Key)
    ensures SummaryOf(es + [e], k) == ExtendFor(SummaryOf(es, k), e, k)
  {
    assert (es + [e])[..|es|] == es;
  }

  /** An event in the middle may as well come last. */
  lemma {:induction false} MoveLast(a: seq<Event>, x: Event, b: seq<Event>, k: Key)
    requires forall y | y in b :: Compatible(x, y)
    ensures Alike(SummaryOf(a + [x] + b, k), ExtendFor(SummaryOf(a + b, k), x, k))
  {
    hide Alike, ExtendFor, Compatible;
    if b == [] {
      assert a + [x] + b == a + [x] && a + b == a;
      SummaryLast(a, x, k);
      AlikeRefl(SummaryOf(a + [x], k));
    } else {
      var n := |b| - 1;
      var c, y := b[..n], b[n];
      assert b == c + [y] && a + [x] + b == (a + [x] + c) + [y] && a + b == (a + c) + [y];
      MoveLast(a, x, c, k);
      SummaryLast(a + [x] + c, y, k);
      SummaryLast(a + c, y, k);
      var q := SummaryOf(a + c, k);
      ExtendAlike(SummaryOf(a + [x] + c, k), ExtendFor(q, x, k), y, k);
      EventsCommute(q, x, y, k);
      AlikeTrans(SummaryOf(a + [x] + b, k), ExtendFor(ExtendFor(q, x, k), y, k), ExtendFor(ExtendFor(q, y, k), x, k));
    }
  }

  lemma AlikeRefl(p: Summary)
    ensures Alike(p, p)
  {
  }

  lemma AlikeTrans(p: Summary, q: Summary, r: Summary)
    requires Alike(p, q) && Alike(q, r)
    ensures Alike(p, r) && Alike(r, p)
  {
  }

  lemma WithoutOne(a: seq<Event>, x: Event, b: seq<Event>)
    requires Consistent(a + [x] + b)
    ensures Consistent(a + b) && forall y | y in a + b :: Compatible(x, y)
  {
    hide Compatible;
    var fs := a + [x] + b;
    var gs := a + b;
    forall i, j | 0 <= i < j < |gs| ensures Compatible(gs[i], gs[j]) {
      var i', j' := if i < |a| then i else i + 1, if j < |a| then j else j + 1;
      assert gs[i] == fs[i'] && gs[j] == fs[j'];
    }
    forall y | y in gs ensures Compatible(x, y) {
      var i :| 0 <= i < |gs| && gs[i] == y;
      var i' := if i < |a| then i else i + 1;
      assert fs[i'] == y && fs[|a|] == x;
      CompatibleSymmetric(x, y);
    }
  }

  lemma CompatibleSymmetric(x: Event, y: Event)
    ensures Compatible(x, y) <==> Compatible(y, x)
  {
  }

  lemma {:induction false} SummaryOrderFree(es: seq<Event>, fs: seq<Event>, k: Key)
    requires Consistent(fs) && multiset(es) == multiset(fs)
    ensures Alike(SummaryOf(es, k), SummaryOf(fs, k))
  {
    if es == [] {
      assert |multiset(fs)| == 0 && fs == [];
    } else {
      var n := |es| - 1;
      assert es == es[..n] + [es[n]];
      var a, b := Order.TakeOut(fs, es[n], es[..n]);
      WithoutOne(a, es[n], b);
      SummaryOrderFree(es[..n], a + b, k);
      hide Alike, ExtendFor, Compatible, Consistent;
      SummaryLast(es[..n], es[n], k);
      ExtendAlike(SummaryOf(es[..n], k), SummaryOf(a + b, k), es[n], k);
      MoveLast(a, es[n], b, k);
      AlikeSwap(SummaryOf(fs, k), ExtendFor(SummaryOf(a + b, k), es[n], k));
      AlikeTrans(SummaryOf(es, k), ExtendFor(SummaryOf(a + b, k), es[n], k), SummaryOf(fs, k));
    }
  }

  lemma AlikeSwap(p: Summary, q: Summary)
    requires Alike(p, q)
    ensures Alike(q, p)
  {
  }

  lemma {:induction false} DefConcat(a: seq<Pend>, b: seq<Pend>)
    ensures DefCount(a + b) == DefCount(a) + DefCount(b)
  {
    if b == [] {
      assert a + b == a;
    } else {
      assert (a + b)[..|a + b| - 1] == a + b[..|b| - 1];
      DefConcat(a, b[..|b| - 1]);
    }
  }

  lemma {:induction false} DefOrderFree(ps: seq<Pend>, qs: seq<Pend>)
    requires multiset(ps) == multiset(qs)
    ensures DefCount(ps) == DefCount(qs)
  {
    if ps == [] {
      assert |multiset(qs)| == 0 && qs == [];
    } else {
      var n := |ps| - 1;
      assert ps == ps[..n] + [ps[n]];
      var a, b := Order.TakeOut(qs, ps[n], ps[..n]);
      DefOrderFree(ps[..n], a + b);
      DefConcat(a, b);
      DefConcat(a + [ps[n]], b);
      DefMore(a, ps[n]);
      hide DefCount;
    }
  }

  lemma WellFormedOrderFree(es: seq<Event>, fs: seq<Event>)
    requires WellFormed(fs) && multiset(es) == multiset(fs)
    ensures WellFormed(es)
  {
    ConsistentOrderFree(es, fs);
    forall k ensures OneBody(SummaryOf(es, k)) {
      assert OneBody(SummaryOf(fs, k));
      SummaryOrderFree(es, fs, k);
      DefOrderFree(SummaryOf(es, k).edges, SummaryOf(fs, k).edges);
    }
  }

  lemma {:induction false} ConsistentOrderFree(es: seq<Event>, fs: seq<Event>)
    requires Consistent(fs) && multiset(es) == multiset(fs)
    ensures Consistent(es)
  {
    if es != [] {
      var n := |es| - 1;
      assert es == es[..n] + [es[n]];
      var a, b := Order.TakeOut(fs, es[n], es[..n]);
      WithoutOne(a, es[n], b);
      ConsistentOrderFree(es[..n], a + b);
      hide Compatible;
      forall i, j | 0 <= i < j < |es| ensures Compatible(es[i], es[j]) {
        if j < n {
          assert es[..n][i] == es[i] && es[..n][j] == es[j];
        } else {
          assert es[i] in multiset(es[..n]) by { assert es[..n][i] == es[i]; }
          assert es[i] in a + b;
          CompatibleSymmetric(es[i], es[n]);
        }
      }
    }
  }

  lemma LastTwo(r: multiset<Out>, s: multiset<Out>, t: multiset<Out>)
    ensures r + s + t == r + t + s
  {
  }

  lemma {:induction false} RowsMoveLast(path: string, start: nat, end: Option<nat>, a: seq<Pend>, x: Pend, b: seq<Pend>)
    ensures Anchors.AllRows(path, start, end, a + [x] + b) == Anchors.AllRows(path, start, end, a + b) + EdgeRows(path, start, end, x)
  {
    hide EdgeRows, Anchors.AllRows;
    if b == [] {
      assert a + [x] + b == a + [x] && a + b == a;
      OneMore(path, start, end, a, x);
    } else {
      var n := |b| - 1;
      var c, y := b[..n], b[n];
      assert b == c + [y] && a + [x] + b == (a + [x] + c) + [y] && a + b == (a + c) + [y];
      RowsMoveLast(path, start, end, a, x, c);
      OneMore(path, start, end, a + [x] + c, y);
      OneMore(path, start, end, a + c, y);
      LastTwo(Anchors.AllRows(path, start, end, a + c), EdgeRows(path, start, end, x), EdgeRows(path, start, end, y));
    }
  }

  lemma {:induction false} RowsOrderFree(path: string, start: nat, end: Option<nat>, ps: seq<Pend>, qs: seq<Pend>)
    requires multiset(ps) == multiset(qs)
    ensures Anchors.AllRows(path, start, end, ps) == Anchors.AllRows(path, start, end, qs)
  {
    if ps == [] {
      assert |multiset(qs)| == 0 && qs == [];
    } else {
      var n := |ps| - 1;
      assert ps == ps[..n] + [ps[n]];
      var a, b := Order.TakeOut(qs, ps[n], ps[..n]);
      RowsOrderFree(path, start, end, ps[..n], a + b);
      hide EdgeRows, Anchors.AllRows;
      OneMore(path, start, end, ps[..n], ps[n]);
      RowsMoveLast(path, start, end, a, ps[n], b);
    }
  }

  lemma {:induction false} TotalOrderFree(es: seq<Event>, fs: seq<Event>, ks: seq<Key>)
    requires WellFormed(fs) && multiset(es) == multiset(fs)
    ensures Total(es, ks) == Total(fs, ks)
  {
    if ks != [] {
      var n := |ks| - 1;
      TotalOrderFree(es, fs, ks[..n]);
      SummaryOrderFree(es, fs, ks[n]);
      var p, q := SummaryOf(es, ks[n]), SummaryOf(fs, ks[n]);
      if Complete(p) { RowsOrderFree(p.path, p.start.value, p.end, p.edges, q.edges); }
    }
  }

  lemma FilesOrderFree(es: seq<Event>, fs: seq<Event>, ks: seq<Key>)
    requires WellFormed(fs) && multiset(es) == multiset(fs)
    ensures FilesOf(es, ks) == FilesOf(fs, ks)
  {
    forall k ensures Alike(SummaryOf(es, k), SummaryOf(fs, k)) { SummaryOrderFree(es, fs, k); }
    hide SummaryOf;
  }

  /** A duplicate-free list of a stream's anchors. */
  ghost function KeysOf(es: seq<Event>): (ks: seq<Key>)
    ensures Distinct(ks) && Lists(ks, es)
  {
    if es == [] then []
    else
      var ks := KeysOf(es[..|es| - 1]);
      assert es == es[..|es| - 1] + [es[|es| - 1]];
      if es[|es| - 1].key in ks then ks else ks + [es[|es| - 1].key]
  }

  /** Any two orders of the same events give the same rows and the same files. */
  lemma EmissionOrderFree(es: seq<Event>, fs: seq<Event>)
    requires WellFormed(fs) && multiset(es) == multiset(fs)
    ensures Run(es).out == Run(fs).out && Run(es).files == Run(fs).files
  {
    var ks := KeysOf(fs);
    WellFormedOrderFree(es, fs);
    assert Lists(ks, es) by {
      forall i | 0 <= i < |es| ensures es[i].key in ks {
        assert es[i] in multiset(fs);
        var j :| 0 <= j < |fs| && fs[j] == es[i];
      }
    }
    RunEmitsOwed(es, ks);
    RunEmitsOwed(fs, ks);
    TotalOrderFree(es, fs, ks);
    FilesOrderFree(es, fs, ks);
  }

  /** ... in each of the three vectors separately. */
  lemma VectorsOrderFree(es: seq<Event>, fs: seq<Event>, s: IngestState, t: IngestState)
    requires WellFormed(fs) && multiset(es) == multiset(fs)
    requires s.Valid() && t.Valid() && s.AsView() == Run(es) && t.AsView() == Run(fs)
    ensures multiset(s.xrefs) == multiset(t.xrefs)
    ensures multiset(s.callSites) == multiset(t.callSites)
    ensures multiset(s.bodyAnchors) == multiset(t.bodyAnchors)
  {
    EmissionOrderFree(es, fs);
    hide Run, WellFormed;
    var m := s.AsView().out;
    VectorsOf(s.xrefs, s.callSites, s.bodyAnchors, t.xrefs, t.callSites, t.bodyAnchors);
  }

  lemma VectorsOf(xs: seq<Out>, cs: seq<Out>, bs: seq<Out>, us: seq<Out>, ds: seq<Out>, es: seq<Out>)
    requires Separate(xs, cs, bs) && Separate(us, ds, es) && Together(xs, cs, bs) == Together(us, ds, es)
    ensures multiset(xs) == multiset(us) && multiset(cs) == multiset(ds) && multiset(bs) == multiset(es)
  {
    forall x: Out ensures multiset(xs)[x] == multiset(us)[x] && multiset(cs)[x] == multiset(ds)[x] && multiset(bs)[x] == multiset(es)[x] {
      assert Together(xs, cs, bs)[x] == Together(us, ds, es)[x];
      OnlyOwn(xs, cs, bs, x);
      OnlyOwn(us, ds, es, x);
    }
  }

  lemma OnlyOwn(xs: seq<Out>, cs: seq<Out>, bs: seq<Out>, x: Out)
    requires Separate(xs, cs, bs)
    ensures !x.Xref? ==> multiset(xs)[x] == 0
    ensures !x.CallSite? ==> multiset(cs)[x] == 0
    ensures !x.Body? ==> multiset(bs)[x] == 0
    ensures Together(xs, cs, bs)[x] == multiset(xs)[x] + multiset(cs)[x] + multiset(bs)[x]
  {
    assert x in multiset(xs) <==> x in xs;
    assert x in multiset(cs) <==> x in cs;
    assert x in multiset(bs) <==> x in bs;
  }

  lemma RunLast(es: seq<Event>, e: Event)
    ensures Run(es + [e]) == Step(Run(es), e)
  {
    assert (es + [e])[..|es|] == es;
  }

  /** At most one `defines` edge is really needed: with two, an end that comes last records
      one body range, and an end that comes first records both. */
  lemma TwoDefinesDiffer(path: string, x: nat, y: nat)
    ensures var k, s, e := Kind(0, path), Start(0, path, 1), End(0, 9);
      var a, b := Edge(0, path, Pend(x, true, Def)), Edge(0, path, Pend(y, true, Def));
      Run([k, s, a, b, e]).out == multiset{Body(path, 1, 9, y)}
      && Run([k, s, e, a, b]).out == multiset{Body(path, 1, 9, x), Body(path, 1, 9, y)}
  {
    var k, s, e := Kind(0, path), Start(0, path, 1), End(0, 9);
    var a, b := Edge(0, path, Pend(x, true, Def)), Edge(0, path, Pend(y, true, Def));
    hide Run, Step;
    KindThenStart(path);
    RunFive(k, s, a, b, e);
    RunFive(k, s, e, a, b);
    DefinesThenEnd(Run([k, s]), path, x, y);
    EndThenDefines(Run([k, s]), path, x, y);
  }

  lemma RunFive(k: Event, s: Event, x: Event, y: Event, z: Event)
    ensures Run([k, s, x, y, z]) == Step(Step(Step(Run([k, s]), x), y), z)
  {
    hide Run, Step;
    RunLast([k, s], x);
    RunLast([k, s] + [x], y);
    RunLast([k, s] + [x] + [y], z);
    assert [k, s] + [x] + [y] + [z] == [k, s, x, y, z];
  }

  lemma KindThenStart(path: string)
    ensures var v := Run([Kind(0, path), Start(0, path, 1)]);
      At(v.anchors, 0) == Accum(true, path, Some(1), None, [], None) && v.out == multiset{}
  {
    var k, s := Kind(0, path), Start(0, path, 1);
    RunLast([], k);
    RunLast([k], s);
    assert [] + [k] == [k] && [k] + [s] == [k, s];
  }

  lemma DefinesThenEnd(v: View, path: string, x: nat, y: nat)
    requires At(v.anchors, 0) == Accum(true, path, Some(1), None, [], None) && v.out == multiset{}
    ensures var a, b := Edge(0, path, Pend(x, true, Def)), Edge(0, path, Pend(y, true, Def));
      Step(Step(Step(v, a), b), End(0, 9)).out == multiset{Body(path, 1, 9, y)}
  {
  }

  lemma EndThenDefines(v: View, path: string, x: nat, y: nat)
    requires At(v.anchors, 0) == Accum(true, path, Some(1), None, [], None) && v.out == multiset{}
    ensures var a, b := Edge(0, path, Pend(x, true, Def)), Edge(0, path, Pend(y, true, Def));
      Step(Step(Step(v, End(0, 9)), a), b).out == multiset{Body(path, 1, 9, x), Body(path, 1, 9, y)}
  {
  }

  // ---------------------------------------------------------------- the exact condition

  /** What an event makes of its own accumulator, and what it emits. */
  ghost function NextAccum(a: Accum, e: Event): Accum
  {
    At(Step(View(map[e.key := a], multiset{}, {}), e).anchors, e.key)
  }

  ghost function Emits(a: Accum, e: Event): multiset<Out>
  {
    Step(View(map[e.key := a], multiset{}, {}), e).out
  }

  lemma NothingPlus(m: multiset<Out>)
    ensures multiset{} + m == m
  {
  }

  /** A step is that, whatever else the state holds. */
  lemma StepIsLocal(v: View, e: Event)
    ensures Step(v, e).out == v.out + Emits(At(v.anchors, e.key), e)
    ensures At(Step(v, e).anchors, e.key) == NextAccum(At(v.anchors, e.key), e)
    ensures forall k | k != e.key :: At(Step(v, e).anchors, k) == At(v.anchors, k)
  {
    hide Anchors.AllRows, EdgeRows, FlushedBody, OneIf;
    var a := At(v.anchors, e.key);
    assert At(map[e.key := a], e.key) == a;
    OthersKept(v, e);
  }

  /** An end in place adds one row for every `defines`. */
  lemma {:induction false} EndAdds(path: string, start: nat, at: nat, ps: seq<Pend>)
    ensures |Anchors.AllRows(path, start, Some(at), ps)| == |Anchors.AllRows(path, start, None, ps)| + DefCount(ps)
  {
    if ps != [] {
      var n := |ps| - 1;
      EndAdds(path, start, at, ps[..n]);
      EndAddsOne(path, start, at, ps[n]);
      hide EdgeRows;
    }
  }

  lemma EndAddsOne(path: string, start: nat, at: nat, p: Pend)
    ensures |EdgeRows(path, start, Some(at), p)| == |EdgeRows(path, start, None, p)| + if p.role.Def? then 1 else 0
  {
    EdgeEndOwes(path, start, at, p);
    hide EdgeRows;
    assert |BodyIf(path, start, at, DefIf(p))| == if p.role.Def? then 1 else 0;
  }

  /** Until its end comes, an accumulator is what the stream says of its anchor, however many
      `defines` there are. */
  lemma {:induction false} KeyTracks(es: seq<Event>, k: Key)
    requires Consistent(es) && forall i | 0 <= i < |es| && es[i].key == k :: !es[i].End?
    ensures AccumOk(At(Run(es).anchors, k), SummaryOf(es, k)) && SummaryOf(es, k).end == None
  {
    if es != [] {
      var n := |es| - 1;
      KeyTracks(es[..n], k);
      assert es == es[..n] + [es[n]];
      NextMayFollow(es[..n], es[n]);
      var v, e, q := Run(es[..n]), es[n], SummaryOf(es[..n], k);
      hide Step, AccumOk, MayFollow;
      if e.key == k {
        if e.Edge? { LocalEdge(v, e, q); } else { LocalFlush(v, e, q); }
      } else {
        StepIsLocal(v, e);
      }
    }
  }

  /** The first run has seen the end of `k`, the second has not; otherwise they are alike, and
      the first is ahead by one row for every `defines` of `k` it could emit. */
  ghost predicate Ahead(v: View, w: View, k: Key, at: nat, q: Summary)
  {
    && (forall j | j != k :: At(v.anchors, j) == At(w.anchors, j))
    && (var a, b := At(v.anchors, k), At(w.anchors, k); a == b.(end := Some(at), body := a.body))
    && |v.out| == |w.out| + if Complete(q) then DefCount(q.edges) else 0
  }

  /** One event of `k` itself. */
  lemma AheadOwn(a: Accum, b: Accum, at: nat, q: Summary, e: Event)
    requires a == b.(end := Some(at), body := a.body) && AccumOk(b, q) && q.end == None && MayFollow(q, e) && !e.End?
    ensures NextAccum(a, e) == NextAccum(b, e).(end := Some(at), body := NextAccum(a, e).body)
    ensures |Emits(a, e)| - |Emits(b, e)| ==
      (if Complete(Extend(q, e)) then DefCount(Extend(q, e).edges) else 0) - (if Complete(q) then DefCount(q.edges) else 0)
  {
    if e.Edge? { AheadEdge(a, b, at, q, e); } else { AheadFlush(a, b, at, q, e); }
  }

  lemma AheadEdge(a: Accum, b: Accum, at: nat, q: Summary, e: Event)
    requires a == b.(end := Some(at), body := a.body) && AccumOk(b, q) && q.end == None && MayFollow(q, e) && e.Edge?
    ensures NextAccum(a, e) == NextAccum(b, e).(end := Some(at), body := NextAccum(a, e).body)
    ensures |Emits(a, e)| - |Emits(b, e)| ==
      (if Complete(Extend(q, e)) then DefCount(Extend(q, e).edges) else 0) - (if Complete(q) then DefCount(q.edges) else 0)
  {
    hide Anchors.AllRows, EdgeRows, FlushedBody, OneIf, DefCount, DefOf;
    DefMore(q.edges, e.pend);
    if Complete(q) {
      var path := WithPath(b, e.path).path;
      EndAddsOne(path, q.start.value, at, e.pend);
      NothingPlus(EdgeRows(path, q.start.value, Some(at), e.pend));
      NothingPlus(EdgeRows(path, q.start.value, None, e.pend));
    }
  }

  lemma AheadFlush(a: Accum, b: Accum, at: nat, q: Summary, e: Event)
    requires a == b.(end := Some(at), body := a.body) && AccumOk(b, q) && q.end == None && MayFollow(q, e) && (e.Kind? || e.Start?)
    ensures NextAccum(a, e) == NextAccum(b, e).(end := Some(at), body := NextAccum(a, e).body)
    ensures |Emits(a, e)| - |Emits(b, e)| ==
      (if Complete(Extend(q, e)) then DefCount(Extend(q, e).edges) else 0) - (if Complete(q) then DefCount(q.edges) else 0)
  {
    hide Anchors.AllRows, EdgeRows, FlushedBody, OneIf, DefOf;
    var q' := Extend(q, e);
    NoDefs();
    if Complete(q') {
      var path, start := q'.path, q'.start.value;
      EndAdds(path, start, at, b.pending);
      NothingPlus(Anchors.AllRows(path, start, Some(at), b.pending));
      NothingPlus(Anchors.AllRows(path, start, None, b.pending));
    }
  }

  lemma NoDefs()
    ensures DefCount([]) == 0
  {
  }

  lemma AheadStep(v: View, w: View, k: Key, at: nat, q: Summary, e: Event)
    requires Ahead(v, w, k, at, q) && AccumOk(At(w.anchors, k), q) && q.end == None
    requires e.key == k ==> MayFollow(q, e) && !e.End?
    ensures Ahead(Step(v, e), Step(w, e), k, at, ExtendFor(q, e, k))
  {
    hide Step, AccumOk, MayFollow, Extend, Emits, NextAccum, DefCount;
    StepIsLocal(v, e);
    StepIsLocal(w, e);
    if e.key == k { AheadOwn(At(v.anchors, k), At(w.anchors, k), at, q, e); }
  }

  lemma AheadAtStart(x: Event)
    requires x.End?
    ensures Ahead(Run([x]), Run([]), x.key, x.at, SummaryOf([], x.key))
  {
    assert [x] == [] + [x];
    RunLast([], x);
  }

  lemma {:induction false} StaysAhead(x: Event, es: seq<Event>)
    requires x.End? && Consistent(es) && forall i | 0 <= i < |es| && es[i].key == x.key :: !es[i].End?
    ensures Ahead(Run([x] + es), Run(es), x.key, x.at, SummaryOf(es, x.key))
  {
    if es == [] {
      assert [x] + es == [x];
      AheadAtStart(x);
    } else {
      var n := |es| - 1;
      var es', e, k := es[..n], es[n], x.key;
      assert es == es' + [e] && [x] + es == ([x] + es') + [e];
      assert Consistent(es');
      hide Run, Step, AccumOk, MayFollow, Extend, SummaryOf, Compatible, Ahead;
      StaysAhead(x, es');
      KeyTracks(es', k);
      NextMayFollow(es', e);
      RunLast([x] + es', e);
      RunLast(es', e);
      SummaryLast(es', e, k);
      AheadStep(Run([x] + es'), Run(es'), k, x.at, SummaryOf(es', k), e);
    }
  }

  /** An end that comes last adds one row, if there is a `defines` at all. */
  lemma EndLast(x: Event, es: seq<Event>)
    requires x.End? && Consistent(es) && forall i | 0 <= i < |es| && es[i].key == x.key :: !es[i].End?
    requires Complete(SummaryOf(es, x.key)) && DefCount(SummaryOf(es, x.key).edges) > 0
    ensures |Run(es + [x]).out| == |Run(es).out| + 1
  {
    hide Run, SummaryOf, DefOf, DefCount, Consistent;
    KeyTracks(es, x.key);
    RunLast(es, x);
    NoDef(SummaryOf(es, x.key).edges);
  }

  lemma {:induction false} EndSeen(es: seq<Event>, k: Key) returns (i: nat)
    requires SummaryOf(es, k).end.Some?
    ensures i < |es| && es[i].End? && es[i].key == k
  {
    var n := |es| - 1;
    if es[n].key == k && es[n].End? { i := n; } else { i := EndSeen(es[..n], k); }
  }

  /** Moving the end of such an anchor from first to last changes what is emitted. */
  lemma TwoBodiesDiffer(es: seq<Event>, k: Key) returns (fs: seq<Event>)
    requires Consistent(es) && !OneBody(SummaryOf(es, k))
    ensures multiset(fs) == multiset(es) && Run(fs).out != Run(es).out
  {
    var i := EndSeen(es, k);
    var x, a, b := es[i], es[..i], es[i + 1..];
    assert es == a + [x] + b;
    WithoutOne(a, x, b);
    var rest := a + b;
    forall j | 0 <= j < |rest| && rest[j].key == k ensures !rest[j].End? { assert rest[j] in rest && Compatible(x, rest[j]); }
    MoveLast(a, x, b, k);
    var first, last := [x] + rest, rest + [x];
    assert multiset(es) == multiset(rest) + multiset{x} == multiset(first) == multiset(last);
    DefOrderFree(SummaryOf(es, k).edges, SummaryOf(rest, k).edges);
    StaysAhead(x, rest);
    EndLast(x, rest);
    hide Run, SummaryOf, Consistent;
    assert |Run(first).out| > |Run(last).out|;
    fs := if Run(first).out != Run(es).out then first else last;
  }

  /** For every stream that gives each anchor one path, one start and at most one end: what is
      emitted is free of order, if and only if every complete anchor with an end has at most
      one `defines` edge. */
  lemma OrderFreeIff(es: seq<Event>)
    requires Consistent(es)
    ensures (forall fs: seq<Event> | multiset(fs) == multiset(es) :: Run(fs).out == Run(es).out) <==> forall k :: OneBody(SummaryOf(es, k))
  {
    hide Consistent, Run, SummaryOf, OneBody;
    if forall k :: OneBody(SummaryOf(es, k)) {
      forall fs: seq<Event> | multiset(fs) == multiset(es) ensures Run(fs).out == Run(es).out { EmissionOrderFree(fs, es); }
    } else {
      var k :| !OneBody(SummaryOf(es, k));
      var fs := TwoBodiesDiffer(es, k);
    }
  }
}
