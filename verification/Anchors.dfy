/** The anchor accumulator: an anchor's kind, start, end and edges arrive in any order, and
    rows are emitted as soon as they can be. */
module Anchors {
  import opened Bytes

  type Key = nat
  datatype Role = Decl | Def | Ref | Call
  /** An edge's target; an empty one still has a sym, but earns no xref. */
  datatype Pend = Pend(sym: nat, empty: bool, role: Role)

  datatype Event =
    | Kind(key: Key, path: string)
    | Start(key: Key, path: string, at: nat)
    | End(key: Key, at: nat)
    | Edge(key: Key, path: string, pend: Pend)

  datatype Out =
    | Xref(sym: nat, role: Role, path: string, at: nat)
    | CallSite(path: string, at: nat, sym: nat, role: Role)
    | Body(path: string, start: nat, end: nat, sym: nat)

  datatype Accum = Accum(isAnchor: bool, path: string, start: Option<nat>, end: Option<nat>, pending: seq<Pend>, body: Option<nat>)

  const Blank := Accum(false, "", None, None, [], None)

  function At(anchors: map<Key, Accum>, k: Key): Accum
  {
    if k in anchors then anchors[k] else Blank
  }

  function WithPath(a: Accum, path: string): Accum
  {
    if a.path == "" then a.(path := path) else a
  }

  // ---------------------------------------------------------------- rows of one edge

  ghost function OneIf(c: bool, x: Out): multiset<Out>
  {
    if c then multiset{x} else multiset{}
  }

  function EndOr(end: Option<nat>): nat
  {
    if end.Some? then end.value else 0
  }

  ghost function EdgeRows(path: string, start: nat, end: Option<nat>, p: Pend): multiset<Out>
  {
    OneIf(!p.empty, Xref(p.sym, p.role, path, start))
    + OneIf(p.role.Ref? || p.role.Call?, CallSite(path, start, p.sym, p.role))
    + OneIf(p.role.Def? && end.Some?, Body(path, start, EndOr(end), p.sym))
  }

  /** The rows an edge of an anchor at `path` and `start` yields: an xref unless its target is
      empty, a call site if it is a reference or a call, a body if it defines and the end is
      known. */
  ghost predicate Yields(path: string, start: nat, end: Option<nat>, p: Pend, o: Out)
  {
    match o
    case Xref(sym, role, q, at) => !p.empty && sym == p.sym && role == p.role && q == path && at == start
    case CallSite(q, at, sym, role) => (role == Ref || role == Call) && role == p.role && sym == p.sym && q == path && at == start
    case Body(q, from, to, sym) => p.role == Def && end == Some(to) && sym == p.sym && q == path && from == start
  }

  ghost function YieldCount(path: string, start: nat, end: Option<nat>, ps: seq<Pend>, o: Out): nat
  {
    if ps == [] then 0
    else YieldCount(path, start, end, ps[..|ps| - 1], o) + if Yields(path, start, end, ps[|ps| - 1], o) then 1 else 0
  }

  lemma EdgeRowsAre(path: string, start: nat, end: Option<nat>, p: Pend, o: Out)
    ensures EdgeRows(path, start, end, p)[o] == if Yields(path, start, end, p, o) then 1 else 0
  {
  }

  /** Each row is emitted as often as there are edges that yield it. */
  lemma {:induction false} AllRowsAre(path: string, start: nat, end: Option<nat>, ps: seq<Pend>, o: Out)
    ensures AllRows(path, start, end, ps)[o] == YieldCount(path, start, end, ps, o)
  {
    if ps != [] {
      hide EdgeRows, Yields;
      AllRowsAre(path, start, end, ps[..|ps| - 1], o);
      EdgeRowsAre(path, start, end, ps[|ps| - 1], o);
    }
  }

  lemma Regroup(m: multiset<Out>, a: multiset<Out>, b: multiset<Out>, c: multiset<Out>)
    ensures m + a + b + c == m + (a + b + c)
  {
  }

  ghost function AllRows(path: string, start: nat, end: Option<nat>, ps: seq<Pend>): multiset<Out>
  {
    if ps == [] then multiset{}
    else AllRows(path, start, end, ps[..|ps| - 1]) + EdgeRows(path, start, end, ps[|ps| - 1])
  }

  /** What a flush leaves in `body_def_sym`. */
  ghost function FlushedBody(body: Option<nat>, end: Option<nat>, ps: seq<Pend>): Option<nat>
  {
    if ps == [] then body
    else
      var n := |ps| - 1;
      if ps[n].role.Def? then (if end.Some? then None else Some(ps[n].sym)) else FlushedBody(body, end, ps[..n])
  }

  // ---------------------------------------------------------------- one event, on values

  datatype View = View(anchors: map<Key, Accum>, out: multiset<Out>, files: set<string>)

  ghost predicate Ready(a: Accum)
  {
    a.isAnchor && a.start.Some?
  }

  ghost function Flushed(v: View, k: Key, a: Accum): View
  {
    if !Ready(a) then v.(anchors := v.anchors[k := a])
    else
      View(v.anchors[k := a.(pending := [], body := FlushedBody(a.body, a.end, a.pending))],
           v.out + AllRows(a.path, a.start.value, a.end, a.pending), v.files + {a.path})
  }

  ghost function Step(v: View, e: Event): View
  {
    var k := e.key;
    var a := At(v.anchors, k);
    match e
    case Kind(_, path) => Flushed(v, k, WithPath(a, path).(isAnchor := true))
    case Start(_, path, at) => Flushed(v, k, WithPath(a, path).(start := Some(at)))
    case End(_, at) =>
      var a' := a.(end := Some(at));
      if Ready(a) && a.body.Some? then
        View(v.anchors[k := a'], v.out + OneIf(true, Body(a.path, a.start.value, at, a.body.value)), v.files + {a.path})
      else v.(anchors := v.anchors[k := a'])
    case Edge(_, path, p) =>
      var b := WithPath(a, path);
      var c := if p.role.Def? then b.(body := Some(p.sym)) else b;
      if Ready(c) then View(v.anchors[k := c], v.out + EdgeRows(c.path, c.start.value, c.end, p), v.files + {c.path})
      else v.(anchors := v.anchors[k := c.(pending := c.pending + [p])])
  }

  ghost function Run(es: seq<Event>): View
  {
    if es == [] then View(map[], multiset{}, {}) else Step(Run(es[..|es| - 1]), es[|es| - 1])
  }

  // ---------------------------------------------------------------- the accumulator

  /** Each vector holds its own kind of row. */
  ghost predicate Separate(xs: seq<Out>, cs: seq<Out>, bs: seq<Out>)
  {
    && (forall x | x in xs :: x.Xref?)
    && (forall x | x in cs :: x.CallSite?)
    && (forall x | x in bs :: x.Body?)
  }

  ghost function Together(xs: seq<Out>, cs: seq<Out>, bs: seq<Out>): multiset<Out>
  {
    multiset(xs) + multiset(cs) + multiset(bs)
  }

  /** The ingest state: the accumulators and the three row vectors. */
  class IngestState {
    var anchors: map<Key, Accum>
    var xrefs: seq<Out>
    var callSites: seq<Out>
    var bodyAnchors: seq<Out>
    var files: set<string>

    ghost predicate Valid()
      reads this
    {
      Separate(xrefs, callSites, bodyAnchors)
    }

    ghost function AsView(): View
      reads this
    {
      View(anchors, Together(xrefs, callSites, bodyAnchors), files)
    }

    constructor ()
      ensures Valid() && AsView() == Run([])
    {
      anchors, xrefs, callSites, bodyAnchors, files := map[], [], [], [], {};
    }

    method PushIf(c: bool, x: Out)
      requires Valid()
      modifies this
      ensures Valid() && anchors == old(anchors) && files == old(files)
      ensures AsView().out == old(AsView().out) + OneIf(c, x)
    {
      if c {
        match x
        case Xref(_, _, _, _) => xrefs := xrefs + [x];
        case CallSite(_, _, _, _) => callSites := callSites + [x];
        case Body(_, _, _, _) => bodyAnchors := bodyAnchors + [x];
      }
    }

    /** Emit one resolved edge, body range included when the end is known. */
    method EmitEdge(path: string, start: nat, end: Option<nat>, p: Pend)
      requires Valid()
      modifies this
      ensures Valid() && anchors == old(anchors) && files == old(files)
      ensures AsView().out == old(AsView().out) + EdgeRows(path, start, end, p)
    {
      hide Separate, Together, OneIf;
      PushIf(!p.empty, Xref(p.sym, p.role, path, start));
      PushIf(p.role.Ref? || p.role.Call?, CallSite(path, start, p.sym, p.role));
      PushIf(p.role.Def? && end.Some?, Body(path, start, EndOr(end), p.sym));
      Regroup(old(AsView().out), OneIf(!p.empty, Xref(p.sym, p.role, path, start)),
        OneIf(p.role.Ref? || p.role.Call?, CallSite(path, start, p.sym, p.role)),
        OneIf(p.role.Def? && end.Some?, Body(path, start, EndOr(end), p.sym)));
    }

    /** Store the accumulator, emitting its pending edges if it is ready. */
    method FlushReady(k: Key, a: Accum)
      requires Valid()
      modifies this
      ensures Valid() && AsView() == Flushed(old(AsView()), k, a)
    {
      hide Separate, Together, EdgeRows;
      if !a.isAnchor || a.start.None? {
        anchors := anchors[k := a];
        return;
      }
      var start, path := a.start.value, a.path;
      files := files + {path};
      var pend := a.pending;
      var body := a.body;
      var i := 0;
      while i < |pend|
        invariant 0 <= i <= |pend| && Valid() && anchors == old(anchors) && files == old(files) + {path}
        invariant AsView().out == old(AsView().out) + AllRows(path, start, a.end, pend[..i])
        invariant body == FlushedBody(a.body, a.end, pend[..i])
      {
        assert pend[..i + 1][..i] == pend[..i];
        EmitEdge(path, start, a.end, pend[i]);
        if pend[i].role.Def? { body := if a.end.Some? then None else Some(pend[i].sym); }
        i := i + 1;
      }
      assert pend[..i] == pend;
      anchors := anchors[k := a.(pending := [], body := body)];
    }

    method ProcessEntry(e: Event)
      requires Valid()
      modifies this
      ensures Valid() && AsView() == Step(old(AsView()), e)
    {
      hide Separate, Together, EdgeRows, AllRows, FlushedBody;
      var k := e.key;
      var a := At(anchors, k);
      match e
      case Kind(_, path) =>
        a := WithPath(a.(isAnchor := true), path);
        FlushReady(k, a);
      case Start(_, path, at) =>
        a := WithPath(a, path).(start := Some(at));
        FlushReady(k, a);
      case End(_, at) =>
        a := a.(end := Some(at));
        anchors := anchors[k := a];
        if a.isAnchor && a.start.Some? && a.body.Some? {
          files := files + {a.path};
          PushIf(true, Body(a.path, a.start.value, at, a.body.value));
        }
      case Edge(_, path, p) =>
        a := WithPath(a, path);
        if p.role.Def? { a := a.(body := Some(p.sym)); }
        if a.isAnchor && a.start.Some? {
          anchors := anchors[k := a];
          files := files + {a.path};
          EmitEdge(a.path, a.start.value, a.end, p);
        } else {
          anchors := anchors[k := a.(pending := a.pending + [p])];
        }
    }
  }
}
