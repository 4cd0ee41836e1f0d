/** The callgraph query (and its inheritance twin): a breadth-first forest over syms in
    which build-variant copies of one logical symbol collapse to one node. */
module Callgraph {
  import opened Bytes
  import Order

  /** A 64-bit sym. */
  type Sym = x: int | 0 <= x < 0x1_0000_0000_0000_0000

  /** What the walk reads from the index: stored names, the name index, the two edge
      directions, the syms the path filter rejects, and which directions were asked for. */
  datatype Graph = Graph(names: map<Sym, string>, byName: map<string, seq<Sym>>,
                         up: map<Sym, seq<Sym>>, down: map<Sym, seq<Sym>>, rejected: set<Sym>,
                         goUp: bool, goDown: bool)

  datatype Dir = Root | Up | Down

  datatype Node = Node(id: nat, parent: Option<nat>, hop: nat, dir: Dir, sym: Sym, name: string)

  datatype Reply = Reply(nodes: seq<Node>, total: nat, truncated: bool)

  // ---------------------------------------------------------------- logical identity

  function HexDigit(d: nat): char
    requires d < 16
  {
    "0123456789abcdef"[d]
  }

  function Hex(s: nat, width: nat): string
  {
    if width == 0 then "" else Hex(s / 16, width - 1) + [HexDigit(s % 16)]
  }

  function NameOf(g: Graph, s: Sym): string
  {
    if s in g.names then g.names[s] else "<sym " + Hex(s, 16) + ">"
  }

  /** What follows the last '#'. */
  function AfterLastHash(name: string): string
  {
    if name == "" then ""
    else
      var n := |name| - 1;
      if name[n] == '#' then "" else AfterLastHash(name[..n]) + [name[n]]
  }

  function LogicalKey(name: string): string
  {
    if "kythe:" <= name then AfterLastHash(name) else name
  }

  lemma {:induction false} LastHash(name: string)
    ensures '#' !in AfterLastHash(name)
    ensures '#' !in name ==> AfterLastHash(name) == name
    ensures '#' in name ==> exists before :: name == before + "#" + AfterLastHash(name)
  {
    if name != "" {
      var n := |name| - 1;
      assert name == name[..n] + [name[n]];
      if name[n] == '#' {
        assert name == name[..n] + "#" + "";
      } else {
        LastHash(name[..n]);
        if '#' in name[..n] {
          var before :| name[..n] == before + "#" + AfterLastHash(name[..n]);
          assert name == before + "#" + AfterLastHash(name);
        }
      }
    }
  }

  /** A name that is no ticket is its own identity; a ticket's is its last '#'-free part. */
  lemma LogicalKeyIs(name: string)
    ensures !("kythe:" <= name) || '#' !in name ==> LogicalKey(name) == name
    ensures "kythe:" <= name && '#' in name ==>
      '#' !in LogicalKey(name) && exists before :: name == before + "#" + LogicalKey(name)
  {
    LastHash(name);
  }

  function KeyOf(g: Graph, s: Sym): string
  {
    LogicalKey(NameOf(g, s))
  }

  function Listed<K>(m: map<K, seq<Sym>>, k: K): seq<Sym>
  {
    if k in m then m[k] else []
  }

  /** The duplicate group of a sym: those filed under its name with its logical key. */
  ghost predicate InGroup(g: Graph, rep: Sym, s: Sym)
  {
    s == rep || (s in Listed(g.byName, NameOf(g, rep)) && KeyOf(g, s) == KeyOf(g, rep))
  }

  ghost predicate Asked(g: Graph, dir: Dir)
  {
    (dir == Up && g.goUp) || (dir == Down && g.goDown)
  }

  /** `x` is one edge away from the group of `rep` in a direction that was asked for. */
  ghost predicate Neighbour(g: Graph, dir: Dir, rep: Sym, x: Sym)
  {
    Asked(g, dir) && exists s :: InGroup(g, rep, s) && x in Listed(if dir == Up then g.up else g.down, s)
  }

  /** `dup_syms`. */
  method DupSyms(g: Graph, rep: Sym) returns (group: seq<Sym>)
    ensures forall s :: s in group <==> InGroup(g, rep, s)
  {
    group := [];
    var filed := Listed(g.byName, NameOf(g, rep));
    for i := 0 to |filed|
      invariant forall s :: s in group <==> s in filed[..i] && KeyOf(g, s) == KeyOf(g, rep)
    {
      assert filed[..i + 1] == filed[..i] + [filed[i]];
      if KeyOf(g, filed[i]) == KeyOf(g, rep) { group := group + [filed[i]]; }
    }
    assert filed[..|filed|] == filed;
    if rep !in group { group := group + [rep]; }
  }

  predicate Below(a: Sym, b: Sym)
  {
    a < b
  }

  ghost predicate ListsNeighbours(g: Graph, dir: Dir, rep: Sym, out: seq<Sym>)
  {
    forall x :: x in out <==> Neighbour(g, dir, rep, x)
  }

  /** `callers_of` / `callees_of`: the ascending union of the group's edges. */
  method NeighboursOf(g: Graph, dir: Dir, rep: Sym) returns (out: seq<Sym>)
    requires Asked(g, dir)
    ensures Order.Ascending(Below, out) && ListsNeighbours(g, dir, rep, out)
  {
    var group := DupSyms(g, rep);
    var edges := if dir == Up then g.up else g.down;
    var all := [];
    for i := 0 to |group|
      invariant forall x :: x in all <==> exists j :: 0 <= j < i && x in Listed(edges, group[j])
    {
      all := all + Listed(edges, group[i]);
    }
    out := Order.SortDedup(Below, all);
    forall x ensures x in out <==> Neighbour(g, dir, rep, x) {
      if x in out {
        var j :| 0 <= j < |group| && x in Listed(edges, group[j]);
        assert InGroup(g, rep, group[j]);
      }
      if Neighbour(g, dir, rep, x) {
        var s :| InGroup(g, rep, s) && x in Listed(edges, s);
        var j :| 0 <= j < |group| && group[j] == s;
      }
    }
  }

  // ---------------------------------------------------------------- admitting a node

  /** `seen`, `rendered` and `nodes`. */
  datatype Walk = Walk(seen: map<Sym, nat>, rendered: map<string, nat>, nodes: seq<Node>)

  /** A known sym, or a copy of a rendered one, makes no node. */
  function Admit(g: Graph, w: Walk, s: Sym, parent: Option<nat>, dir: Dir, hop: nat): (Walk, Option<nat>)
  {
    if s in w.seen then (w, None)
    else
      var key := KeyOf(g, s);
      if key in w.rendered then (w.(seen := w.seen[s := w.rendered[key]]), None)
      else
        var id := |w.nodes|;
        (Walk(w.seen[s := id], w.rendered[key := id], w.nodes + [Node(id, parent, hop, dir, s, NameOf(g, s))]), Some(id))
  }

  /** Node `i` of a forest: dense id, and a parent one hop up of which it is a neighbour. */
  ghost predicate NodeOk(g: Graph, nodes: seq<Node>, i: nat)
    requires i < |nodes|
  {
    var n := nodes[i];
    && n.id == i && n.name == NameOf(g, n.sym) && n.sym !in g.rejected
    && (n.parent == None <==> n.hop == 0) && (n.parent == None <==> n.dir == Root)
    && (n.parent.Some? ==>
      && n.parent.value < i && n.hop == nodes[n.parent.value].hop + 1
      && Neighbour(g, n.dir, nodes[n.parent.value].sym, n.sym))
  }

  ghost predicate Forest(g: Graph, nodes: seq<Node>)
  {
    && (forall i | 0 <= i < |nodes| :: NodeOk(g, nodes, i))
    && (forall i, j | 0 <= i < j < |nodes| :: nodes[i].hop <= nodes[j].hop)
    && (forall i, j | 0 <= i < j < |nodes| :: LogicalKey(nodes[i].name) != LogicalKey(nodes[j].name))
  }

  ghost predicate MapsOk(g: Graph, w: Walk)
  {
    && (forall i | 0 <= i < |w.nodes| :: w.nodes[i].name == NameOf(g, w.nodes[i].sym))
    && (forall i | 0 <= i < |w.nodes| :: LogicalKey(w.nodes[i].name) in w.rendered && w.rendered[LogicalKey(w.nodes[i].name)] == i)
    && (forall k | k in w.rendered :: w.rendered[k] < |w.nodes| && LogicalKey(w.nodes[w.rendered[k]].name) == k)
    && (forall s | s in w.seen :: KeyOf(g, s) in w.rendered && w.seen[s] == w.rendered[KeyOf(g, s)])
  }

  ghost predicate WalkOk(g: Graph, w: Walk)
  {
    MapsOk(g, w) && Forest(g, w.nodes)
  }

  /** The logical symbol of `x` has a node within `hop` hops. */
  ghost predicate Shown(g: Graph, nodes: seq<Node>, x: Sym, hop: nat)
  {
    exists i :: 0 <= i < |nodes| && LogicalKey(nodes[i].name) == KeyOf(g, x) && nodes[i].hop <= hop
  }

  ghost predicate Extends(older: seq<Node>, newer: seq<Node>)
  {
    |older| <= |newer| && forall i | 0 <= i < |older| :: newer[i] == older[i]
  }

  lemma ShownStays(g: Graph, older: seq<Node>, newer: seq<Node>, x: Sym, hop: nat)
    requires Extends(older, newer) && Shown(g, older, x, hop)
    ensures Shown(g, newer, x, hop)
  {
    var i :| 0 <= i < |older| && LogicalKey(older[i].name) == KeyOf(g, x) && older[i].hop <= hop;
    assert newer[i] == older[i];
  }

  /** What a new node must satisfy. */
  ghost predicate MayAdmit(g: Graph, nodes: seq<Node>, s: Sym, parent: Option<nat>, dir: Dir, hop: nat)
  {
    && s !in g.rejected && (parent == None <==> hop == 0) && (parent == None <==> dir == Root)
    && (parent.Some? ==> parent.value < |nodes| && hop == nodes[parent.value].hop + 1 && Neighbour(g, dir, nodes[parent.value].sym, s))
    && (forall i | 0 <= i < |nodes| :: nodes[i].hop <= hop)
  }

  lemma AdmitMaps(g: Graph, w: Walk, s: Sym, parent: Option<nat>, dir: Dir, hop: nat)
    requires MapsOk(g, w)
    ensures MapsOk(g, Admit(g, w, s, parent, dir, hop).0)
  {
    hide LogicalKey, NameOf;
    hide Neighbour;
  }

  lemma AdmitForest(g: Graph, w: Walk, s: Sym, parent: Option<nat>, dir: Dir, hop: nat)
    requires WalkOk(g, w) && MayAdmit(g, w.nodes, s, parent, dir, hop)
    ensures Forest(g, Admit(g, w, s, parent, dir, hop).0.nodes)
  {
    hide LogicalKey, NameOf, Neighbour;
    var nodes := Admit(g, w, s, parent, dir, hop).0.nodes;
    forall i | 0 <= i < |nodes| ensures NodeOk(g, nodes, i) {
      if i < |w.nodes| { assert NodeOk(g, w.nodes, i); }
    }
  }

  /** Afterwards the forest is still one, and the sym's logical symbol is shown. */
  lemma AdmitKeeps(g: Graph, w: Walk, s: Sym, parent: Option<nat>, dir: Dir, hop: nat)
    requires WalkOk(g, w) && MayAdmit(g, w.nodes, s, parent, dir, hop)
    ensures var (w', id) := Admit(g, w, s, parent, dir, hop);
      WalkOk(g, w') && Admitted(w, s, hop, w', id) && Shown(g, w'.nodes, s, hop)
  {
    hide Forest, MapsOk, MayAdmit, LogicalKey, NameOf, Shown;
    AdmitMaps(g, w, s, parent, dir, hop);
    AdmitForest(g, w, s, parent, dir, hop);
    AdmitShows(g, w, s, parent, dir, hop);
  }

  lemma AdmitShows(g: Graph, w: Walk, s: Sym, parent: Option<nat>, dir: Dir, hop: nat)
    requires MapsOk(g, w) && MayAdmit(g, w.nodes, s, parent, dir, hop)
    ensures Shown(g, Admit(g, w, s, parent, dir, hop).0.nodes, s, hop)
  {
    hide LogicalKey, NameOf, Neighbour;
    var w' := Admit(g, w, s, parent, dir, hop).0;
    AdmitMaps(g, w, s, parent, dir, hop);
    var i := w'.rendered[KeyOf(g, s)];
    assert LogicalKey(w'.nodes[i].name) == KeyOf(g, s) && w'.nodes[i].hop <= hop;
  }

  // ---------------------------------------------------------------- one frontier entry, one direction

  /** The entries are nodes of the given hop. */
  ghost predicate AtHop(nodes: seq<Node>, f: seq<(Sym, nat)>, hop: nat)
  {
    forall k | 0 <= k < |f| :: f[k].1 < |nodes| && nodes[f[k].1].sym == f[k].0 && nodes[f[k].1].hop == hop
  }

  /** Every node of the hop is an entry. */
  ghost predicate AllAtHop(nodes: seq<Node>, f: seq<(Sym, nat)>, hop: nat)
  {
    forall i | 0 <= i < |nodes| && nodes[i].hop == hop :: exists k :: 0 <= k < |f| && f[k].1 == i
  }

  ghost predicate Level(nodes: seq<Node>, f: seq<(Sym, nat)>, hop: nat)
  {
    AtHop(nodes, f, hop) && AllAtHop(nodes, f, hop)
  }

  lemma LevelGrows(nodes: seq<Node>, n: Node, f: seq<(Sym, nat)>, hop: nat)
    requires Level(nodes, f, hop) && n.hop == hop
    ensures Level(nodes + [n], f + [(n.sym, |nodes|)], hop)
  {
    var g := f + [(n.sym, |nodes|)];
    forall i | 0 <= i < |nodes + [n]| && (nodes + [n])[i].hop == hop ensures exists k :: 0 <= k < |g| && g[k].1 == i {
      if i < |nodes| {
        var k :| 0 <= k < |f| && f[k].1 == i;
        assert g[k].1 == i;
      } else {
        assert g[|f|].1 == i;
      }
    }
  }

  /** All filter-passing neighbours of `s` in the direction are shown within `hop`. */
  ghost predicate Expanded(g: Graph, dir: Dir, nodes: seq<Node>, s: Sym, hop: nat)
  {
    forall x | Neighbour(g, dir, s, x) && x !in g.rejected :: Shown(g, nodes, x, hop)
  }

  /** Room left: below the cap, or nothing but roots so far. */
  ghost predicate Room(nodes: seq<Node>, roots: nat, maxSyms: nat)
  {
    |nodes| < maxSyms || |nodes| == roots
  }

  ghost predicate SizeOk(nodes: seq<Node>, roots: nat, maxSyms: nat)
  {
    |nodes| <= maxSyms || |nodes| <= roots + 1
  }

  /** A walk in the middle of hop `hop`. */
  ghost predicate MidHop(g: Graph, w0: Walk, w: Walk, next: seq<(Sym, nat)>, hop: nat)
  {
    && WalkOk(g, w) && Extends(w0.nodes, w.nodes) && Level(w.nodes, next, hop)
    && (forall i | 0 <= i < |w.nodes| :: w.nodes[i].hop <= hop && (i >= |w0.nodes| ==> w.nodes[i].hop == hop))
  }

  /** What an admission did to the nodes. */
  ghost predicate Admitted(w: Walk, s: Sym, hop: nat, w': Walk, id: Option<nat>)
  {
    && Extends(w.nodes, w'.nodes)
    && (if id.Some? then id.value == |w.nodes| && |w'.nodes| == |w.nodes| + 1 && w'.nodes[|w.nodes|].sym == s && w'.nodes[|w.nodes|].hop == hop
        else w'.nodes == w.nodes)
  }

  lemma MidGrows(g: Graph, w0: Walk, w: Walk, next: seq<(Sym, nat)>, s: Sym, hop: nat, w': Walk, id: Option<nat>)
    requires MidHop(g, w0, w, next, hop) && WalkOk(g, w') && Admitted(w, s, hop, w', id)
    ensures MidHop(g, w0, w', if id.Some? then next + [(s, id.value)] else next, hop)
  {
    hide WalkOk, Level;
    if id.Some? {
      assert w'.nodes == w.nodes + [w'.nodes[|w.nodes|]];
      LevelGrows(w.nodes, w'.nodes[|w.nodes|], next, hop);
    }
  }

  /** Admitting one more sym at this hop keeps everything in place. */
  lemma AdmitMid(g: Graph, w0: Walk, w: Walk, next: seq<(Sym, nat)>, s: Sym, parent: Option<nat>, dir: Dir, hop: nat)
    requires MidHop(g, w0, w, next, hop) && MayAdmit(g, w.nodes, s, parent, dir, hop)
    ensures var (w', id) := Admit(g, w, s, parent, dir, hop);
      && MidHop(g, w0, w', if id.Some? then next + [(s, id.value)] else next, hop)
      && Admitted(w, s, hop, w', id) && Shown(g, w'.nodes, s, hop)
  {
    assert WalkOk(g, w);
    hide WalkOk, Shown, MayAdmit, MidHop, Admit;
    AdmitKeeps(g, w, s, parent, dir, hop);
    var (w', id) := Admit(g, w, s, parent, dir, hop);
    MidGrows(g, w0, w, next, s, hop, w', id);
  }

  /** The entry is a node one hop up. */
  ghost predicate Stands(nodes: seq<Node>, cur: (Sym, nat), hop: nat)
  {
    hop >= 1 && cur.1 < |nodes| && nodes[cur.1].sym == cur.0 && nodes[cur.1].hop == hop - 1
  }

  lemma MidMayAdmit(g: Graph, w0: Walk, w: Walk, next: seq<(Sym, nat)>, s: Sym, cur: (Sym, nat), dir: Dir, hop: nat)
    requires MidHop(g, w0, w, next, hop) && Stands(w.nodes, cur, hop) && Neighbour(g, dir, cur.0, s) && s !in g.rejected
    ensures MayAdmit(g, w.nodes, s, Some(cur.1), dir, hop)
  {
  }

  lemma StandsStill(older: seq<Node>, newer: seq<Node>, cur: (Sym, nat), hop: nat)
    requires Extends(older, newer) && Stands(older, cur, hop)
    ensures Stands(newer, cur, hop)
  {
  }

  lemma ExtendsTrans(a: seq<Node>, b: seq<Node>, c: seq<Node>)
    requires Extends(a, b) && Extends(b, c)
    ensures Extends(a, c)
  {
  }

  /** One filter-passing neighbour of a frontier entry. */
  method Visit(g: Graph, dir: Dir, ghost w0: Walk, w1: Walk, cur: (Sym, nat), s: Sym, hop: nat, next1: seq<(Sym, nat)>)
    returns (w: Walk, next: seq<(Sym, nat)>, added: bool)
    requires MidHop(g, w0, w1, next1, hop) && Stands(w1.nodes, cur, hop) && Neighbour(g, dir, cur.0, s) && s !in g.rejected
    ensures MidHop(g, w0, w, next, hop) && Extends(w1.nodes, w.nodes) && Stands(w.nodes, cur, hop) && Shown(g, w.nodes, s, hop)
    ensures |w.nodes| == |w1.nodes| + if added then 1 else 0
  {
    hide MidHop, Neighbour, Shown, Extends, Stands, MayAdmit, Admit;
    MidMayAdmit(g, w0, w1, next1, s, cur, dir, hop);
    AdmitMid(g, w0, w1, next1, s, Some(cur.1), dir, hop);
    var (w', id) := Admit(g, w1, s, Some(cur.1), dir, hop);
    StandsStill(w1.nodes, w'.nodes, cur, hop);
    w, next, added := w', if id.Some? then next1 + [(s, id.value)] else next1, id.Some?;
  }

  method Expand(g: Graph, dir: Dir, ghost w0: Walk, w1: Walk, cur: (Sym, nat), hop: nat, next1: seq<(Sym, nat)>, maxSyms: nat, ghost roots: nat)
    returns (w: Walk, next: seq<(Sym, nat)>, truncated: bool)
    requires MidHop(g, w0, w1, next1, hop) && Stands(w1.nodes, cur, hop) && Asked(g, dir) && Room(w1.nodes, roots, maxSyms)
    ensures MidHop(g, w0, w, next, hop) && Extends(w1.nodes, w.nodes) && SizeOk(w.nodes, roots, maxSyms)
    ensures if truncated then |w.nodes| >= maxSyms else Room(w.nodes, roots, maxSyms) && Expanded(g, dir, w.nodes, cur.0, hop)
  {
    assert Extends(w1.nodes, w1.nodes);
    hide MidHop, Neighbour, Shown, Extends, Stands, Order.Ascending, Asked, ListsNeighbours, ShownUpTo, Expanded;
    var around := NeighboursOf(g, dir, cur.0);
    ShownNone(g, w1.nodes, around, hop);
    w, next, truncated := w1, next1, false;
    var i := 0;
    while i < |around| && !truncated
      invariant 0 <= i <= |around|
      invariant MidHop(g, w0, w, next, hop) && Extends(w1.nodes, w.nodes) && Stands(w.nodes, cur, hop) && SizeOk(w.nodes, roots, maxSyms)
      invariant if truncated then |w.nodes| >= maxSyms else Room(w.nodes, roots, maxSyms)
      invariant ShownUpTo(g, w.nodes, around, i, hop)
    {
      if around[i] !in g.rejected {
        ghost var before := w.nodes;
        ListedIsNeighbour(g, dir, cur.0, around, i);
        var added;
        w, next, added := Visit(g, dir, w0, w, cur, around[i], hop, next);
        ShownAll(g, before, w.nodes, around, i, hop);
        ExtendsTrans(w1.nodes, before, w.nodes);
        truncated := added && |w.nodes| >= maxSyms;
      } else {
        SkipRejected(g, w.nodes, around, i, hop);
      }
      i := i + 1;
    }
    if !truncated { AllExpanded(g, dir, w.nodes, cur.0, around, hop); }
  }

  lemma ShownNone(g: Graph, nodes: seq<Node>, xs: seq<Sym>, hop: nat)
    ensures ShownUpTo(g, nodes, xs, 0, hop)
  {
  }

  lemma SkipRejected(g: Graph, nodes: seq<Node>, xs: seq<Sym>, n: nat, hop: nat)
    requires ShownUpTo(g, nodes, xs, n, hop) && n < |xs| && xs[n] in g.rejected
    ensures ShownUpTo(g, nodes, xs, n + 1, hop)
  {
  }

  lemma ListedIsNeighbour(g: Graph, dir: Dir, rep: Sym, around: seq<Sym>, i: nat)
    requires ListsNeighbours(g, dir, rep, around) && i < |around|
    ensures Neighbour(g, dir, rep, around[i])
  {
    assert around[i] in around;
  }

  lemma AllExpanded(g: Graph, dir: Dir, nodes: seq<Node>, rep: Sym, around: seq<Sym>, hop: nat)
    requires ListsNeighbours(g, dir, rep, around) && ShownUpTo(g, nodes, around, |around|, hop)
    ensures Expanded(g, dir, nodes, rep, hop)
  {
    hide Neighbour, Shown;
    ShownEach(g, nodes, around, |around|, hop);
  }

  /** The first `n` syms, those rejected aside, are shown. */
  ghost predicate ShownUpTo(g: Graph, nodes: seq<Node>, xs: seq<Sym>, n: nat, hop: nat)
  {
    n <= |xs| && forall j | 0 <= j < n && xs[j] !in g.rejected :: Shown(g, nodes, xs[j], hop)
  }

  lemma ShownEach(g: Graph, nodes: seq<Node>, xs: seq<Sym>, n: nat, hop: nat)
    requires ShownUpTo(g, nodes, xs, n, hop)
    ensures n == |xs| ==> forall x | x in xs && x !in g.rejected :: Shown(g, nodes, x, hop)
  {
  }

  lemma ShownAll(g: Graph, older: seq<Node>, newer: seq<Node>, xs: seq<Sym>, n: nat, hop: nat)
    requires Extends(older, newer) && ShownUpTo(g, older, xs, n, hop)
    ensures ShownUpTo(g, newer, xs, n, hop)
    ensures n < |xs| && (xs[n] in g.rejected || Shown(g, newer, xs[n], hop)) ==> ShownUpTo(g, newer, xs, n + 1, hop)
  {
    forall j | 0 <= j < n && xs[j] !in g.rejected ensures Shown(g, newer, xs[j], hop) {
      ShownStays(g, older, newer, xs[j], hop);
    }
  }

  // ---------------------------------------------------------------- one hop

  ghost predicate Covered(g: Graph, nodes: seq<Node>, s: Sym, hop: nat)
  {
    Expanded(g, Up, nodes, s, hop) && Expanded(g, Down, nodes, s, hop)
  }

  lemma ExpandedStays(g: Graph, dir: Dir, older: seq<Node>, newer: seq<Node>, s: Sym, hop: nat)
    requires Extends(older, newer) && Expanded(g, dir, older, s, hop)
    ensures Expanded(g, dir, newer, s, hop)
  {
    forall x | Neighbour(g, dir, s, x) && x !in g.rejected ensures Shown(g, newer, x, hop) {
      ShownStays(g, older, newer, x, hop);
    }
  }

  lemma CoveredStays(g: Graph, older: seq<Node>, newer: seq<Node>, s: Sym, hop: nat)
    requires Extends(older, newer) && Covered(g, older, s, hop)
    ensures Covered(g, newer, s, hop)
  {
    ExpandedStays(g, Up, older, newer, s, hop);
    ExpandedStays(g, Down, older, newer, s, hop);
  }

  lemma HopStarts(g: Graph, w0: Walk, frontier: seq<(Sym, nat)>, hop: nat)
    requires hop >= 1 && MidHop(g, w0, w0, frontier, hop - 1)
    ensures MidHop(g, w0, w0, [], hop)
  {
  }

  lemma EntryStands(g: Graph, w0: Walk, w: Walk, frontier: seq<(Sym, nat)>, next: seq<(Sym, nat)>, hop: nat, i: nat)
    requires hop >= 1 && MidHop(g, w0, w0, frontier, hop - 1) && MidHop(g, w0, w, next, hop) && i < |frontier|
    ensures Stands(w.nodes, frontier[i], hop)
  {
  }

  lemma NotAsked(g: Graph, nodes: seq<Node>, s: Sym, hop: nat)
    ensures !g.goUp ==> Expanded(g, Up, nodes, s, hop)
    ensures !g.goDown ==> Expanded(g, Down, nodes, s, hop)
  {
  }

  /** Both directions of one frontier entry. */
  method ExpandEntry(g: Graph, ghost w0: Walk, w1: Walk, cur: (Sym, nat), hop: nat, next1: seq<(Sym, nat)>, maxSyms: nat, ghost roots: nat)
    returns (w: Walk, next: seq<(Sym, nat)>, truncated: bool)
    requires MidHop(g, w0, w1, next1, hop) && Stands(w1.nodes, cur, hop) && Room(w1.nodes, roots, maxSyms)
    ensures MidHop(g, w0, w, next, hop) && Extends(w1.nodes, w.nodes) && SizeOk(w.nodes, roots, maxSyms)
    ensures if truncated then |w.nodes| >= maxSyms else Room(w.nodes, roots, maxSyms) && Covered(g, w.nodes, cur.0, hop)
  {
    NotAsked(g, w1.nodes, cur.0, hop);
    w, next, truncated := w1, next1, false;
    assert Extends(w1.nodes, w.nodes);
    hide MidHop, Expanded, Extends, Stands;
    if g.goUp {
      w, next, truncated := Expand(g, Up, w0, w, cur, hop, next, maxSyms, roots);
      if truncated { return; }
      StandsStill(w1.nodes, w.nodes, cur, hop);
    }
    ghost var mid := w.nodes;
    if g.goDown {
      w, next, truncated := Expand(g, Down, w0, w, cur, hop, next, maxSyms, roots);
      ExtendsTrans(w1.nodes, mid, w.nodes);
      if truncated { return; }
      ExpandedStays(g, Up, mid, w.nodes, cur.0, hop);
    } else {
      ExpandedStays(g, Down, w1.nodes, w.nodes, cur.0, hop);
    }
  }

  method ExpandLevel(g: Graph, w0: Walk, frontier: seq<(Sym, nat)>, hop: nat, maxSyms: nat, ghost roots: nat)
    returns (w: Walk, next: seq<(Sym, nat)>, truncated: bool)
    requires hop >= 1 && MidHop(g, w0, w0, frontier, hop - 1) && Room(w0.nodes, roots, maxSyms)
    ensures MidHop(g, w0, w, next, hop) && SizeOk(w.nodes, roots, maxSyms)
    ensures if truncated then |w.nodes| >= maxSyms
      else Room(w.nodes, roots, maxSyms) && forall k | 0 <= k < |frontier| :: Covered(g, w.nodes, frontier[k].0, hop)
  {
    hide Covered, MidHop, Extends, Stands;
    w, next, truncated := w0, [], false;
    HopStarts(g, w0, frontier, hop);
    for i := 0 to |frontier|
      invariant MidHop(g, w0, w, next, hop) && Room(w.nodes, roots, maxSyms) && !truncated
      invariant forall k | 0 <= k < i :: Covered(g, w.nodes, frontier[k].0, hop)
    {
      ghost var before := w.nodes;
      EntryStands(g, w0, w, frontier, next, hop, i);
      w, next, truncated := ExpandEntry(g, w0, w, frontier[i], hop, next, maxSyms, roots);
      if truncated { return; }
      forall k | 0 <= k < i ensures Covered(g, w.nodes, frontier[k].0, hop) {
        CoveredStays(g, before, w.nodes, frontier[k].0, hop);
      }
    }
  }

  // ---------------------------------------------------------------- the query

  /** Roots are the first `roots` nodes and the only ones at hop 0. */
  ghost predicate RootsFirst(nodes: seq<Node>, roots: nat)
  {
    roots <= |nodes| && forall i | 0 <= i < |nodes| :: nodes[i].hop == 0 <==> i < roots
  }

  ghost predicate CoveredBelow(g: Graph, nodes: seq<Node>, hop: nat)
  {
    forall i | 0 <= i < |nodes| && nodes[i].hop < hop :: Covered(g, nodes, nodes[i].sym, nodes[i].hop + 1)
  }

  lemma ShallowIsOld(g: Graph, w0: Walk, w: Walk, next: seq<(Sym, nat)>, hop: nat, i: nat)
    requires MidHop(g, w0, w, next, hop) && i < |w.nodes| && w.nodes[i].hop < hop
    ensures i < |w0.nodes| && w.nodes[i] == w0.nodes[i] && Extends(w0.nodes, w.nodes)
  {
  }

  lemma FindEntry(g: Graph, w0: Walk, frontier: seq<(Sym, nat)>, hop: nat, i: nat) returns (k: nat)
    requires MidHop(g, w0, w0, frontier, hop) && i < |w0.nodes| && w0.nodes[i].hop >= hop
    ensures k < |frontier| && frontier[k].0 == w0.nodes[i].sym && w0.nodes[i].hop == hop
  {
    k :| 0 <= k < |frontier| && frontier[k].1 == i;
  }

  lemma CoveredOne(g: Graph, nodes: seq<Node>, hop: nat, i: nat)
    requires CoveredBelow(g, nodes, hop) && i < |nodes| && nodes[i].hop < hop
    ensures Covered(g, nodes, nodes[i].sym, nodes[i].hop + 1)
  {
  }

  /** A finished hop covers the nodes of the hop before it. */
  lemma LevelCovers(g: Graph, w0: Walk, w: Walk, frontier: seq<(Sym, nat)>, next: seq<(Sym, nat)>, hop: nat)
    requires hop >= 1 && MidHop(g, w0, w0, frontier, hop - 1) && MidHop(g, w0, w, next, hop)
    requires CoveredBelow(g, w0.nodes, hop - 1)
    requires forall k | 0 <= k < |frontier| :: Covered(g, w.nodes, frontier[k].0, hop)
    ensures CoveredBelow(g, w.nodes, hop)
  {
    assert CoveredBelow(g, w.nodes, hop) by { CoversEach(g, w0, w, frontier, next, hop); }
  }

  lemma CoversEach(g: Graph, w0: Walk, w: Walk, frontier: seq<(Sym, nat)>, next: seq<(Sym, nat)>, hop: nat)
    requires hop >= 1 && MidHop(g, w0, w0, frontier, hop - 1) && MidHop(g, w0, w, next, hop)
    requires CoveredBelow(g, w0.nodes, hop - 1)
    requires forall k | 0 <= k < |frontier| :: Covered(g, w.nodes, frontier[k].0, hop)
    ensures forall i | 0 <= i < |w.nodes| && w.nodes[i].hop < hop :: Covered(g, w.nodes, w.nodes[i].sym, w.nodes[i].hop + 1)
  {
    hide Covered, WalkOk, MidHop, Extends, CoveredBelow, AtHop, AllAtHop;
    var older, newer := w0.nodes, w.nodes;
    forall i | 0 <= i < |newer| && newer[i].hop < hop ensures Covered(g, newer, newer[i].sym, newer[i].hop + 1) {
      ShallowIsOld(g, w0, w, next, hop, i);
      if older[i].hop < hop - 1 {
        CoveredOne(g, older, hop - 1, i);
        CoveredStays(g, older, newer, older[i].sym, older[i].hop + 1);
      } else {
        var k := FindEntry(g, w0, frontier, hop - 1, i);
      }
    }
  }

  lemma RootsStayFirst(g: Graph, w0: Walk, w: Walk, next: seq<(Sym, nat)>, hop: nat, roots: nat)
    requires hop >= 1 && MidHop(g, w0, w, next, hop) && RootsFirst(w0.nodes, roots)
    ensures RootsFirst(w.nodes, roots)
  {
  }

  const Blank := Walk(map[], map[], [])

  ghost predicate OnlySeeds(nodes: seq<Node>, seeds: seq<Sym>)
  {
    forall i | 0 <= i < |nodes| :: nodes[i].sym in seeds
  }

  lemma StillOnlySeeds(older: seq<Node>, newer: seq<Node>, seeds: seq<Sym>, s: Sym)
    requires OnlySeeds(older, seeds) && s in seeds && Extends(older, newer)
    requires newer == older || (|newer| == |older| + 1 && newer[|older|].sym == s)
    ensures OnlySeeds(newer, seeds)
  {
  }

  method SeedRoots(g: Graph, seeds: seq<Sym>) returns (w: Walk, frontier: seq<(Sym, nat)>)
    ensures MidHop(g, Blank, w, frontier, 0) && |w.nodes| <= |seeds|
    ensures OnlySeeds(w.nodes, seeds)
    ensures forall s | s in seeds && s !in g.rejected :: Shown(g, w.nodes, s, 0)
  {
    w, frontier := Blank, [];
    assert MidHop(g, Blank, w, frontier, 0) && OnlySeeds(w.nodes, seeds);
    ShownNone(g, w.nodes, seeds, 0);
    hide MidHop, Shown, MayAdmit, Admit, ShownUpTo, OnlySeeds, Extends;
    for i := 0 to |seeds|
      invariant MidHop(g, Blank, w, frontier, 0) && |w.nodes| <= i
      invariant OnlySeeds(w.nodes, seeds)
      invariant ShownUpTo(g, w.nodes, seeds, i, 0)
    {
      if seeds[i] !in g.rejected {
        RootMayAdmit(g, w, frontier, seeds[i]);
        AdmitMid(g, Blank, w, frontier, seeds[i], None, Root, 0);
        ghost var before := w.nodes;
        var (w', id) := Admit(g, w, seeds[i], None, Root, 0);
        w := w';
        ShownAll(g, before, w.nodes, seeds, i, 0);
        StillOnlySeeds(before, w.nodes, seeds, seeds[i]);
        if id.Some? { frontier := frontier + [(seeds[i], id.value)]; }
      } else {
        SkipRejected(g, w.nodes, seeds, i, 0);
      }
    }
    ShownEach(g, w.nodes, seeds, |seeds|, 0);
  }

  lemma RootMayAdmit(g: Graph, w: Walk, frontier: seq<(Sym, nat)>, s: Sym)
    requires MidHop(g, Blank, w, frontier, 0) && s !in g.rejected
    ensures MayAdmit(g, w.nodes, s, None, Root, 0)
  {
  }

  /** The seeds that survive the filters are shown as roots, and only seeds are. */
  ghost predicate RootsOk(g: Graph, seeds: seq<Sym>, nodes: seq<Node>)
  {
    && (forall s | s in seeds && s !in g.rejected :: Shown(g, nodes, s, 0))
    && (forall i | 0 <= i < |nodes| && nodes[i].hop == 0 :: nodes[i].sym in seeds)
  }

  lemma RootsStay(g: Graph, seeds: seq<Sym>, w0: Walk, w: Walk, next: seq<(Sym, nat)>, hop: nat)
    requires hop >= 1 && MidHop(g, w0, w, next, hop) && RootsOk(g, seeds, w0.nodes)
    ensures RootsOk(g, seeds, w.nodes)
  {
    hide Shown, WalkOk, Level;
    forall s | s in seeds && s !in g.rejected ensures Shown(g, w.nodes, s, 0) { ShownStays(g, w0.nodes, w.nodes, s, 0); }
  }

  /** Always a forest in breadth-first order, one node per logical symbol, no larger than the
      cap or one past the roots; and unless truncated, every filter-passing neighbour of a
      node short of the depth is shown at most one hop further. */
  method Walked(g: Graph, seeds: seq<Sym>, depth: nat, maxSyms: nat) returns (r: Reply)
    ensures Forest(g, r.nodes) && RootsOk(g, seeds, r.nodes)
    ensures exists roots: nat :: roots <= |seeds| && RootsFirst(r.nodes, roots) && SizeOk(r.nodes, roots, maxSyms) && r.total == |r.nodes| - roots
    ensures forall i | 0 <= i < |r.nodes| :: r.nodes[i].hop <= depth
    ensures if r.truncated then |r.nodes| >= maxSyms else CoveredBelow(g, r.nodes, depth)
  {
    var w, frontier := SeedRoots(g, seeds);
    if |w.nodes| == 0 {
      assert RootsFirst([], 0);
      return Reply([], 0, false);
    }
    var roots := |w.nodes|;
    assert MidHop(g, w, w, frontier, 0) && RootsFirst(w.nodes, roots) && CoveredBelow(g, w.nodes, 0);
    assert RootsOk(g, seeds, w.nodes);
    hide MidHop, Forest, RootsOk, Shown, Covered, CoveredBelow, RootsFirst;
    var hop, truncated, finished := 1, false, false;
    while hop <= depth && !truncated && !finished
      invariant 1 <= hop <= depth + 1 && RootsOk(g, seeds, w.nodes) && RootsFirst(w.nodes, roots) && SizeOk(w.nodes, roots, maxSyms)
      invariant WalkOk(g, w) && forall i | 0 <= i < |w.nodes| :: w.nodes[i].hop <= depth
      invariant !truncated ==> CoveredBelow(g, w.nodes, if finished then depth else hop - 1)
      invariant !truncated && !finished ==> MidHop(g, w, w, frontier, hop - 1) && Room(w.nodes, roots, maxSyms)
      invariant truncated ==> |w.nodes| >= maxSyms
      decreases depth - hop, !truncated, !finished
    {
      var w0 := w;
      var next;
      w, next, truncated := ExpandLevel(g, w0, frontier, hop, maxSyms, roots);
      RootsStay(g, seeds, w0, w, next, hop);
      RootsStayFirst(g, w0, w, next, hop, roots);
      HopsWithin(g, w0, w, next, hop);
      if !truncated {
        LevelCovers(g, w0, w, frontier, next, hop);
        if next == [] {
          NothingDeeper(g, w0, w, hop, depth);
          finished := true;
        } else {
          frontier := next;
          hop := hop + 1;
        }
      }
    }
    r := Reply(w.nodes, |w.nodes| - roots, truncated);
  }

  lemma HopsWithin(g: Graph, w0: Walk, w: Walk, next: seq<(Sym, nat)>, hop: nat)
    requires MidHop(g, w0, w, next, hop)
    ensures WalkOk(g, w) && (forall i | 0 <= i < |w.nodes| :: w.nodes[i].hop <= hop) && MidHop(g, w, w, next, hop)
  {
  }

  /** An empty frontier means nothing is left at this hop or beyond. */
  lemma NothingDeeper(g: Graph, w0: Walk, w: Walk, hop: nat, depth: nat)
    requires MidHop(g, w0, w, [], hop) && CoveredBelow(g, w.nodes, hop)
    ensures CoveredBelow(g, w.nodes, depth)
  {
  }

  // ---------------------------------------------------------------- hops are distances

  /** Some filter-passing neighbour of node `i` is a copy of node `j`. */
  ghost predicate Adjacent(g: Graph, nodes: seq<Node>, i: nat, j: nat)
    requires i < |nodes| && j < |nodes|
  {
    exists dir, x :: Neighbour(g, dir, nodes[i].sym, x) && x !in g.rejected && KeyOf(g, x) == LogicalKey(nodes[j].name)
  }

  /** A walk over nodes from a root. */
  ghost predicate Chain(g: Graph, nodes: seq<Node>, p: seq<nat>)
  {
    && |p| >= 1 && (forall k | 0 <= k < |p| :: p[k] < |nodes|) && nodes[p[0]].hop == 0
    && (forall k | 0 <= k < |p| - 1 :: Adjacent(g, nodes, p[k], p[k + 1]))
  }

  lemma OneNodePerKey(g: Graph, nodes: seq<Node>, i: nat, j: nat)
    requires Forest(g, nodes) && i < |nodes| && j < |nodes| && LogicalKey(nodes[i].name) == LogicalKey(nodes[j].name)
    ensures i == j
  {
  }

  lemma AdjacentOneHop(g: Graph, nodes: seq<Node>, i: nat, j: nat)
    requires Forest(g, nodes) && i < |nodes| && j < |nodes| && Covered(g, nodes, nodes[i].sym, nodes[i].hop + 1) && Adjacent(g, nodes, i, j)
    ensures nodes[j].hop <= nodes[i].hop + 1
  {
    hide LogicalKey, NameOf;
    var dir, x :| Neighbour(g, dir, nodes[i].sym, x) && x !in g.rejected && KeyOf(g, x) == LogicalKey(nodes[j].name);
    assert Expanded(g, dir, nodes, nodes[i].sym, nodes[i].hop + 1);
    var k :| 0 <= k < |nodes| && LogicalKey(nodes[k].name) == KeyOf(g, x) && nodes[k].hop <= nodes[i].hop + 1;
    OneNodePerKey(g, nodes, k, j);
  }

  lemma ChainStart(g: Graph, nodes: seq<Node>, p: seq<nat>)
    requires Chain(g, nodes, p)
    ensures |p| >= 1 && p[0] < |nodes| && p[|p| - 1] < |nodes| && nodes[p[0]].hop == 0
  {
  }

  lemma ShorterChain(g: Graph, nodes: seq<Node>, p: seq<nat>)
    requires Chain(g, nodes, p) && |p| >= 2
    ensures var n := |p| - 1; Chain(g, nodes, p[..n]) && p[n] < |nodes| && p[n - 1] < |nodes| && Adjacent(g, nodes, p[n - 1], p[n])
  {
    hide Adjacent;
    var n := |p| - 1;
    forall k | 0 <= k < n - 1 ensures Adjacent(g, nodes, p[..n][k], p[..n][k + 1]) {
      assert p[..n][k] == p[k] && p[..n][k + 1] == p[k + 1];
    }
    assert Adjacent(g, nodes, p[n - 1], p[n - 1 + 1]);
  }

  /** In an untruncated forest no chain reaches a node in fewer hops than it is shown at. */
  lemma {:induction false} NoShorterChain(g: Graph, nodes: seq<Node>, depth: nat, p: seq<nat>)
    requires Forest(g, nodes) && CoveredBelow(g, nodes, depth) && Chain(g, nodes, p) && |p| - 1 <= depth
    ensures nodes[p[|p| - 1]].hop <= |p| - 1
  {
    hide Forest, CoveredBelow, Adjacent, Covered, Chain;
    var n := |p| - 1;
    ChainStart(g, nodes, p);
    if n > 0 {
      ShorterChain(g, nodes, p);
      NoShorterChain(g, nodes, depth, p[..n]);
      var i := p[n - 1];
      CoveredOne(g, nodes, depth, i);
      AdjacentOneHop(g, nodes, i, p[n]);
    }
  }

  /** ... and the parents give a chain of exactly that many hops. */
  lemma {:induction false} ParentChain(g: Graph, nodes: seq<Node>, i: nat) returns (p: seq<nat>)
    requires Forest(g, nodes) && i < |nodes|
    ensures Chain(g, nodes, p) && p[|p| - 1] == i && |p| == nodes[i].hop + 1
    decreases i
  {
    assert NodeOk(g, nodes, i);
    if nodes[i].parent == None {
      p := [i];
    } else {
      var up := nodes[i].parent.value;
      var q := ParentChain(g, nodes, up);
      assert NodeOk(g, nodes, i);
      p := q + [i];
      assert Adjacent(g, nodes, up, i) by {
        assert Neighbour(g, nodes[i].dir, nodes[up].sym, nodes[i].sym) && KeyOf(g, nodes[i].sym) == LogicalKey(nodes[i].name);
      }
      hide Adjacent, NodeOk, LogicalKey;
      forall k | 0 <= k < |p| - 1 ensures Adjacent(g, nodes, p[k], p[k + 1]) {
        if k < |q| - 1 { assert p[k] == q[k] && p[k + 1] == q[k + 1]; }
      }
    }
  }

  // ---------------------------------------------------------------- copies of one symbol

  lemma {:induction false} SignatureKey(ticket: string, signature: string)
    requires '#' !in signature
    ensures AfterLastHash(ticket + "#" + signature) == signature
  {
    var name := ticket + "#" + signature;
    if signature == "" {
      assert name[|name| - 1] == '#';
    } else {
      var n := |signature| - 1;
      assert signature == signature[..n] + [signature[n]];
      assert name[..|name| - 1] == ticket + "#" + signature[..n];
      SignatureKey(ticket, signature[..n]);
    }
  }

  /** Tickets that differ only before their signature are one logical symbol. */
  lemma TicketsShareKey(a: string, b: string, signature: string)
    requires "kythe:" <= a && "kythe:" <= b && '#' !in signature
    ensures LogicalKey(a + "#" + signature) == LogicalKey(b + "#" + signature) == signature
  {
    SignatureKey(a, signature);
    SignatureKey(b, signature);
    assert "kythe:" <= a + "#" + signature && "kythe:" <= b + "#" + signature;
  }

  lemma {:induction false} HexTells(a: nat, b: nat, width: nat)
    requires Hex(a, width) == Hex(b, width) && a < Pow16(width) && b < Pow16(width)
    ensures a == b
  {
    if width > 0 {
      HexLength(a / 16, width - 1);
      HexLength(b / 16, width - 1);
      var x, y := Hex(a, width), Hex(b, width);
      assert x[..width - 1] == Hex(a / 16, width - 1) && y[..width - 1] == Hex(b / 16, width - 1);
      assert x[width - 1] == HexDigit(a % 16) && y[width - 1] == HexDigit(b % 16);
      DigitTells(a % 16, b % 16);
      HexTells(a / 16, b / 16, width - 1);
    }
  }

  lemma DigitTells(a: nat, b: nat)
    requires a < 16 && b < 16 && HexDigit(a) == HexDigit(b)
    ensures a == b
  {
  }

  lemma {:induction false} HexLength(s: nat, width: nat)
    ensures |Hex(s, width)| == width
  {
    if width > 0 { HexLength(s / 16, width - 1); }
  }

  function Pow16(n: nat): nat
  {
    if n == 0 then 1 else 16 * Pow16(n - 1)
  }

  lemma Pow16Is()
    ensures Pow16(16) == 0x1_0000_0000_0000_0000
  {
    assert Pow16(4) == 0x1_0000;
    assert Pow16(8) == 0x1_0000 * Pow16(4);
    assert Pow16(12) == 0x1_0000 * Pow16(8);
    assert Pow16(16) == 0x1_0000 * Pow16(12);
  }

  /** Syms without a stored name are never taken for copies of one another. */
  lemma UnnamedApart(g: Graph, a: Sym, b: Sym)
    requires a !in g.names && b !in g.names && KeyOf(g, a) == KeyOf(g, b)
    ensures a == b
  {
    HexLength(a, 16);
    HexLength(b, 16);
    var x, y := NameOf(g, a), NameOf(g, b);
    assert x[0] == '<' && y[0] == '<';
    assert !("kythe:" <= x) && !("kythe:" <= y);
    assert x[5..21] == Hex(a, 16) && y[5..21] == Hex(b, 16);
    Pow16Is();
    HexTells(a, b, 16);
  }

  ghost predicate HasEdge(g: Graph, dir: Dir, s: Sym, x: Sym)
  {
    Asked(g, dir) && x in Listed(if dir == Up then g.up else g.down, s)
  }

  /** Every copy of the logical symbol of `s` is filed under the name of `s`. */
  ghost predicate GroupWhole(g: Graph, s: Sym)
  {
    forall c | KeyOf(g, c) == KeyOf(g, s) && c != s :: c in Listed(g.byName, NameOf(g, s))
  }

  /** The union really is over all copies, as the comments promise, when the copies are filed
      under one name. */
  lemma WholeSymbolCovered(g: Graph, nodes: seq<Node>, depth: nat, i: nat, c: Sym, dir: Dir, x: Sym)
    requires Forest(g, nodes) && CoveredBelow(g, nodes, depth) && i < |nodes| && nodes[i].hop < depth && GroupWhole(g, nodes[i].sym)
    requires KeyOf(g, c) == LogicalKey(nodes[i].name) && HasEdge(g, dir, c, x) && x !in g.rejected
    ensures Shown(g, nodes, x, nodes[i].hop + 1)
  {
    hide NameOf, LogicalKey, Shown;
    assert NodeOk(g, nodes, i);
    CoveredOne(g, nodes, depth, i);
    assert InGroup(g, nodes[i].sym, c);
    assert Neighbour(g, dir, nodes[i].sym, x);
  }

  /** No edge comes from anything but a copy; and when all copies are filed under one name the
      neighbours are exactly the ends of all copies' edges. */
  lemma NeighboursAre(g: Graph, s: Sym, dir: Dir, x: Sym)
    ensures Neighbour(g, dir, s, x) ==> (dir == Up && g.goUp) || (dir == Down && g.goDown)
    ensures Neighbour(g, dir, s, x) ==> exists c :: KeyOf(g, c) == KeyOf(g, s) && HasEdge(g, dir, c, x)
    ensures GroupWhole(g, s) ==> (Neighbour(g, dir, s, x) <==> exists c :: KeyOf(g, c) == KeyOf(g, s) && HasEdge(g, dir, c, x))
  {
    hide NameOf, LogicalKey;
    if GroupWhole(g, s) {
      if c :| KeyOf(g, c) == KeyOf(g, s) && HasEdge(g, dir, c, x) { assert InGroup(g, s, c); }
    }
  }

  /** The union at `s` has the edges of every copy. */
  ghost predicate UnionWhole(g: Graph, s: Sym)
  {
    forall c, dir, x | KeyOf(g, c) == KeyOf(g, s) && HasEdge(g, dir, c, x) :: Neighbour(g, dir, s, x)
  }

  ghost function WithEdges(g: Graph, up: map<Sym, seq<Sym>>, down: map<Sym, seq<Sym>>): Graph
  {
    g.(up := up, down := down)
  }

  /** Exactly then: whatever the edges, no copy's edge is missing from the union if and only
      if all copies are filed under the name of `s`. */
  lemma UnionIff(g: Graph, s: Sym)
    requires g.goUp || g.goDown
    ensures (forall up, down :: UnionWhole(WithEdges(g, up, down), s)) <==> GroupWhole(g, s)
  {
    hide LogicalKey;
    if GroupWhole(g, s) {
      forall up, down ensures UnionWhole(WithEdges(g, up, down), s) {
        var h := WithEdges(g, up, down);
        forall c, dir, x | KeyOf(h, c) == KeyOf(h, s) && HasEdge(h, dir, c, x) ensures Neighbour(h, dir, s, x) {
          assert KeyOf(g, c) == KeyOf(g, s);
          assert InGroup(h, s, c);
        }
      }
    }
    if forall up, down :: UnionWhole(WithEdges(g, up, down), s) {
      forall c | KeyOf(g, c) == KeyOf(g, s) && c != s ensures c in Listed(g.byName, NameOf(g, s)) {
        var edges := map[c := [0]];
        var h := WithEdges(g, edges, edges);
        assert UnionWhole(h, s);
        var dir := if g.goUp then Up else Down;
        assert KeyOf(h, c) == KeyOf(h, s) && HasEdge(h, dir, c, 0);
        assert Neighbour(h, dir, s, 0);
      }
    }
  }

  /** Copies whose tickets differ are not: they share a node, yet the union of one of them
      leaves out the edges of the other. */
  lemma SplitTickets(x: Sym)
    ensures var a, b := "kythe:c++:x##f.h#sig", "kythe:c++:y##f.h#sig";
      var g := Graph(map[1 := a, 2 := b], map[a := [1], b := [2]], map[], map[2 := [x]], {}, false, true);
      KeyOf(g, 1) == KeyOf(g, 2) && HasEdge(g, Down, 2, x) && !Neighbour(g, Down, 1, x)
  {
    var a, b := "kythe:c++:x##f.h#sig", "kythe:c++:y##f.h#sig";
    assert a == "kythe:c++:x##f.h" + "#" + "sig" && b == "kythe:c++:y##f.h" + "#" + "sig";
    TicketsShareKey("kythe:c++:x##f.h", "kythe:c++:y##f.h", "sig");
    assert a[10] != b[10];
    hide LogicalKey;
  }
}
