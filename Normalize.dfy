/** Dagre's `normalize` phase: `run` breaks every edge that spans more than
    one rank into a chain of one-rank segments through dummy nodes, and
    `undo` removes the dummies again and gives the original edges back their
    labels, with the route the dummies were placed along as `points`.

    The graph is a class over maps (`Graph`); its abstract value is a
    `GraphState`, and each operation is specified by a function on that value. */
module Normalize {
  import opened Wrappers

  // ---------------------------------------------------------------------------
  // Graph values
  // ---------------------------------------------------------------------------

  /** Node ids are opaque; the dummies `addDummyNode` creates are numbered by
      a counter, so ids are modelled as naturals. */
  type NodeId = nat

  /** An edge of the multigraph: endpoints and an optional name. */
  datatype Edge = Edge(v: NodeId, w: NodeId, name: Option<string>)

  datatype Point = Point(x: Option<real>, y: Option<real>)

  /** The edge label fields this phase reads or writes. */
  datatype EdgeLabel = EdgeLabel(
    weight: Option<real>,
    width: Option<real>,
    height: Option<real>,
    labelRank: Option<int>,
    labelpos: Option<string>,
    points: Option<seq<Point>>,
    x: Option<real>,
    y: Option<real>)

  /** The `dummy` tag of a node this phase creates: "edge" or "edge-label". */
  datatype DummyKind = EdgeDummy | EdgeLabelDummy

  /** A node label: an ordinary node (no `dummy` tag) with its rank, or a
      dummy of an edge chain, which remembers the edge and its label. */
  datatype NodeLabel =
    | Plain(rank: Option<int>)
    | Dummy(kind: DummyKind, rank: Option<int>, width: Option<real>, height: Option<real>,
            labelpos: Option<string>, edgeLabel: EdgeLabel, edgeObj: Edge,
            x: Option<real>, y: Option<real>)

  /** The label graphlib gives a node that `setEdge` creates for a missing endpoint. */
  const Blank: NodeLabel := Plain(None)

  /** A graph: labelled nodes, labelled edges, the graph attribute
      `dummyChains`, and the counter the dummy names are drawn from. */
  datatype GraphState = GraphState(
    nodes: map<NodeId, NodeLabel>,
    edges: map<Edge, EdgeLabel>,
    dummyChains: seq<NodeId>,
    counter: nat)

  /** graphlib's invariant: every edge joins two nodes of the graph. */
  predicate Valid(g: GraphState)
  {
    forall e | e in g.edges :: e.v in g.nodes && e.w in g.nodes
  }

  /** Every node id lies below the counter, so the next id drawn is new. */
  predicate Fresh(g: GraphState)
  {
    forall id | id in g.nodes :: id < g.counter
  }

  // ---------------------------------------------------------------------------
  // graphlib primitives
  // ---------------------------------------------------------------------------

  /** `m` with `v` added under the blank label when it is missing. */
  function AddBlank(m: map<NodeId, NodeLabel>, v: NodeId): (r: map<NodeId, NodeLabel>)
    ensures r.Keys == m.Keys + {v}
    ensures forall u | u in m :: r[u] == m[u]
  {
    if v in m then m else m[v := Blank]
  }

  /** `setEdge(e.v, e.w, l, e.name)`: creates missing endpoints and
      sets the edge's label, leaving every other node and edge as it was. */
  function SetEdgeG(g: GraphState, e: Edge, l: EdgeLabel): GraphState
  {
    g.(nodes := AddBlank(AddBlank(g.nodes, e.v), e.w), edges := g.edges[e := l])
  }

  /** `setEdge` between two existing nodes changes only the edge map. */
  lemma SetEdgeBetween(g: GraphState, e: Edge, l: EdgeLabel)
    requires e.v in g.nodes && e.w in g.nodes
    ensures SetEdgeG(g, e, l) == g.(edges := g.edges[e := l])
  {
  }
  /** `removeNode(v)`: drops the node and every edge into or out of it. */
  function RemoveNodeG(g: GraphState, v: NodeId): GraphState
  {
    g.(nodes := g.nodes - {v}, edges := map e | e in g.edges && e.v != v && e.w != v :: g.edges[e])
  }

  /** `removeNode` drops only the node and the edges touching it. */
  lemma RemoveNodeShape(g: GraphState, v: NodeId)
    ensures var r := RemoveNodeG(g, v);
            && r.nodes == g.nodes - {v}
            && (forall e :: e in r.edges <==> e in g.edges && e.v != v && e.w != v)
            && (forall e | e in r.edges :: r.edges[e] == g.edges[e])
            && r.dummyChains == g.dummyChains && r.counter == g.counter
            && (Valid(g) ==> Valid(r))
  {
  }

  /** `successors(v)`: the heads of the edges out of `v`. */
  function Succs(g: GraphState, v: NodeId): set<NodeId>
  {
    set e | e in g.edges && e.v == v :: e.w
  }

  /** A set of ids holding `n` has a least element: `n`, or the least below it. */
  lemma {:induction false} LeastBelow(s: set<nat>, n: nat)
    requires n in s
    ensures exists m :: m in s && forall x | x in s :: m <= x
    decreases n
  {
    if exists x :: x in s && x < n {
      var x :| x in s && x < n;
      LeastBelow(s, x);
    } else {
      assert n in s && forall x | x in s :: n <= x;
    }
  }

  /** The ids of `s` from `v` on. */
  function Above(s: set<nat>, v: nat): set<nat>
  {
    set x | x in s && x >= v
  }

  /** Skipping an id that is taken leaves fewer taken ids ahead. */
  lemma AboveShrinks(s: set<nat>, v: nat)
    requires v in s
    ensures |Above(s, v + 1)| < |Above(s, v)|
  {
    assert Above(s, v) == Above(s, v + 1) + {v};
  }

  /** A non-empty set of ids has a least element. */
  lemma LeastExists(s: set<nat>)
    requires s != {}
    ensures exists m :: m in s && forall x | x in s :: m <= x
  {
    var y :| y in s;
    LeastBelow(s, y);
  }

  /** The least element of a non-empty set of ids. */
  function Least(s: set<nat>): (m: nat)
    requires s != {}
    ensures m in s && forall x | x in s :: m <= x
  {
    LeastExists(s);
    var m :| m in s && forall x | x in s :: m <= x;
    m
  }

  /** `successors(v)[0]`: graphlib lists successors in insertion order; the
      model takes the least one, which is the same whenever there is only one. */
  function FirstSucc(g: GraphState, v: NodeId): (r: Option<NodeId>)
    ensures r.None? <==> Succs(g, v) == {}
    ensures r.Some? ==> r.value in Succs(g, v)
    ensures r.Some? ==> forall u | u in Succs(g, v) :: r.value <= u
  {
    var ws := Succs(g, v);
    if ws == {} then None else Some(Least(ws))
  }

  // ---------------------------------------------------------------------------
  // normalizeEdge and run
  // ---------------------------------------------------------------------------

  /** The label of a segment: a fresh object holding only the edge's weight. */
  function WeightOnly(l: EdgeLabel): (r: EdgeLabel)
    ensures r.weight == l.weight && r.points.None? && r.labelRank.None?
  {
    EdgeLabel(l.weight, None, None, None, None, None, None, None)
  }

  /** `vRank === wRank - 1` on ranks that may be undefined (NaN never equals). */
  predicate OneRank(vRank: Option<int>, wRank: Option<int>)
  {
    vRank.Some? && wRank.Some? && wRank.value == vRank.value + 1
  }

  /** How many dummies the loop creates: one per rank strictly between the ends. */
  function DummyCount(vRank: Option<int>, wRank: Option<int>): (n: nat)
    ensures n > 0 ==> vRank.Some? && wRank.Some? && n == wRank.value - vRank.value - 1
    ensures vRank.Some? && wRank.Some? && wRank.value > vRank.value ==> n == wRank.value - vRank.value - 1
  {
    if vRank.Some? && wRank.Some? && wRank.value > vRank.value + 1 then wRank.value - vRank.value - 1 else 0
  }

  /** The chain an edge is split into: the edge, its label (with `points`
      reset to `[]`), the id of the first dummy, the number of dummies and the
      rank of the first dummy. */
  datatype Chain = Chain(e: Edge, lab: EdgeLabel, base: nat, n: nat, r0: int)

  function ChainOf(g: GraphState, e: Edge): (c: Chain)
    requires e in g.edges && e.v in g.nodes && e.w in g.nodes
    ensures c.e == e && c.base == g.counter
  {
    var vRank := g.nodes[e.v].rank;
    var wRank := g.nodes[e.w].rank;
    Chain(e, g.edges[e].(points := Some([])), g.counter, DummyCount(vRank, wRank),
          if vRank.Some? then vRank.value + 1 else 0)
  }

  /** The label of dummy `id` of a chain: rank `r0 + (id - base)`; the one at
      the edge's `labelRank` is tagged "edge-label" and takes the label's
      width, height and labelpos, every other one is "edge" with size 0. */
  function DummyLabel(c: Chain, id: nat): NodeLabel
    requires c.base <= id
  {
    var r := c.r0 + (id - c.base);
    if c.lab.labelRank == Some(r) then
      Dummy(EdgeLabelDummy, Some(r), c.lab.width, c.lab.height, c.lab.labelpos, c.lab, c.e, None, None)
    else
      Dummy(EdgeDummy, Some(r), Some(0.0), Some(0.0), None, c.lab, c.e, None, None)
  }

  /** Segment `j` (for `base <= j <= base + n`) runs from the previous node
      of the chain (the edge's tail for the first) to dummy `j` (the edge's
      head for the last). */
  function Src(c: Chain, j: nat): NodeId
    requires c.base <= j
  {
    if j == c.base then c.e.v else j - 1
  }

  function Dst(c: Chain, j: nat): NodeId
  {
    if j == c.base + c.n then c.e.w else j
  }

  function Segment(c: Chain, j: nat): (s: Edge)
    requires c.base <= j
    ensures s.name == c.e.name
  {
    Edge(Src(c, j), Dst(c, j), c.e.name)
  }

  /** Dummy `u` belongs to chain `c`. */
  predicate InChain(c: Chain, u: nat)
  {
    c.base <= u < c.base + c.n
  }

  /** The only segment of `c` that `f` can be: the one into the dummy `f`
      enters, or else the closing one. */
  function SegIdx(c: Chain, f: Edge): nat
  {
    if InChain(c, f.w) then f.w else c.base + c.n
  }

  /** `f` is one of the `n + 1` segments of chain `c`. */
  predicate IsSeg(c: Chain, f: Edge)
  {
    f == Segment(c, SegIdx(c, f))
  }

  /** Round `i` of `normalizeEdge`'s loop on chain `c`: dummy `base + i` is
      added and the counter moves past it, the first dummy is appended to
      `dummyChains`, and the segment into the dummy is set (both of its ends
      are nodes by then, so `setEdge` adds no node). */
  function Round(g: GraphState, c: Chain, i: nat): GraphState
  {
    var id := c.base + i;
    GraphState(g.nodes[id := DummyLabel(c, id)], g.edges[Segment(c, id) := WeightOnly(c.lab)],
               if i == 0 then g.dummyChains + [id] else g.dummyChains, g.counter + 1)
  }

  /** The graph after `removeEdge(e)` and `i` rounds of the loop. */
  function Rounds(g: GraphState, c: Chain, i: nat): GraphState
  {
    if i == 0 then g.(edges := g.edges - {c.e}) else Round(Rounds(g, c, i - 1), c, i - 1)
  }

  /** `normalizeEdge(g, e)`: an edge from rank r to rank r + 1 is left alone;
      any other edge is removed, the loop's rounds run, and the closing
      segment into the edge's head is set. */
  function NormalizeEdgeG(g: GraphState, e: Edge): (r: GraphState)
    requires e in g.edges && e.v in g.nodes && e.w in g.nodes
  {
    if OneRank(g.nodes[e.v].rank, g.nodes[e.w].rank) then g
    else
      var c := ChainOf(g, e);
      var r := Rounds(g, c, c.n);
      r.(edges := r.edges[Segment(c, c.base + c.n) := WeightOnly(c.lab)])
  }

  /** After `i` rounds on chain `c` from `g`: the edge is gone, the first `i`
      dummies are there with their labels, and so are the segments into
      them; the rest of `g` is as it was. */
  ghost predicate Partial(g: GraphState, c: Chain, i: nat, r: GraphState)
  {
    i <= c.n && PartialNodes(g, c, i, r) && PartialEdges(g, c, i, r.edges)
  }

  ghost predicate PartialNodes(g: GraphState, c: Chain, i: nat, r: GraphState)
  {
    && r.counter == c.base + i
    && r.dummyChains == g.dummyChains + (if i > 0 then [c.base] else [])
    && (forall u :: u in r.nodes <==> u in g.nodes || c.base <= u < c.base + i)
    && (forall u | u in g.nodes :: r.nodes[u] == g.nodes[u])
    && (forall u | c.base <= u < c.base + i :: r.nodes[u] == DummyLabel(c, u))
  }

  ghost predicate PartialEdges(g: GraphState, c: Chain, i: nat, edges: map<Edge, EdgeLabel>)
    requires i <= c.n
  {
    && (forall f :: f in edges <==> (f in g.edges && f != c.e) || (c.base <= f.w < c.base + i && f == Segment(c, f.w)))
    && (forall f | f in g.edges && f != c.e :: edges[f] == g.edges[f])
    && (forall j | c.base <= j < c.base + i :: edges[Segment(c, j)] == WeightOnly(c.lab))
  }

  /** Round `i - 1` adds dummy `base + i - 1`. */
  lemma RoundStepNodes(g: GraphState, c: Chain, i: nat, r: GraphState)
    requires Fresh(g) && c.base == g.counter && 0 < i
    requires PartialNodes(g, c, i - 1, r)
    ensures PartialNodes(g, c, i, Round(r, c, i - 1))
  {
  }

  /** Round `i - 1` adds the segment into dummy `base + i - 1`. */
  lemma RoundStepEdges(g: GraphState, c: Chain, i: nat, edges: map<Edge, EdgeLabel>)
    requires Valid(g) && Fresh(g) && c.base == g.counter && 0 < i <= c.n
    requires PartialEdges(g, c, i - 1, edges)
    ensures PartialEdges(g, c, i, edges[Segment(c, c.base + i - 1) := WeightOnly(c.lab)])
  {
    assert Segment(c, c.base + i - 1).w == c.base + i - 1;
  }

  /** The loop's rounds build the chain one dummy and one segment at a time. */
  lemma {:induction false} RoundsPartial(g: GraphState, c: Chain, i: nat)
    requires Valid(g) && Fresh(g) && c.base == g.counter && i <= c.n
    ensures Partial(g, c, i, Rounds(g, c, i))
  {
    if i > 0 {
      var r := Rounds(g, c, i - 1);
      RoundsPartial(g, c, i - 1);
      RoundStepNodes(g, c, i, r);
      RoundStepEdges(g, c, i, r.edges);
    }
  }

  /** In going from `g` to `r`, edge `c.e` was split into chain `c`: its
      dummies and segments were added, it was removed (unless it is its own
      closing segment, when the chain has no dummy), and all else is kept. */
  ghost predicate Added(g: GraphState, c: Chain, r: GraphState)
  {
    AddedNodes(g, c, r) && AddedEdges(g, c, r.edges)
  }

  ghost predicate AddedNodes(g: GraphState, c: Chain, r: GraphState)
  {
    && r.counter == c.base + c.n
    && r.dummyChains == g.dummyChains + (if c.n > 0 then [c.base] else [])
    && (forall u :: u in r.nodes <==> u in g.nodes || InChain(c, u))
    && (forall u | u in g.nodes :: r.nodes[u] == g.nodes[u])
    && (forall u | InChain(c, u) :: r.nodes[u] == DummyLabel(c, u))
  }

  ghost predicate AddedEdges(g: GraphState, c: Chain, edges: map<Edge, EdgeLabel>)
  {
    && (forall f :: f in edges <==> (f in g.edges && f != c.e) || IsSeg(c, f))
    && (forall f | f in g.edges && f != c.e :: edges[f] == g.edges[f])
    && (forall f | IsSeg(c, f) :: edges[f] == WeightOnly(c.lab))
  }

  /** The closing segment completes the chain's segments. */
  lemma ClosingEdges(g: GraphState, c: Chain, edges: map<Edge, EdgeLabel>)
    requires Valid(g) && Fresh(g) && c.e in g.edges && c.base == g.counter
    requires PartialEdges(g, c, c.n, edges)
    ensures AddedEdges(g, c, edges[Segment(c, c.base + c.n) := WeightOnly(c.lab)])
  {
    var s := Segment(c, c.base + c.n);
    var edges' := edges[s := WeightOnly(c.lab)];
    assert !InChain(c, c.e.w) && !InChain(c, c.e.v);
    forall f ensures f in edges' <==> (f in g.edges && f != c.e) || IsSeg(c, f) {
      if f == s { assert IsSeg(c, f); }
    }
    forall f | IsSeg(c, f) ensures edges'[f] == WeightOnly(c.lab) {
      if f != s { assert edges[Segment(c, f.w)] == WeightOnly(c.lab); }
    }
  }

  /** `normalizeEdge` on an edge that does not join adjacent ranks splits it
      into the chain `ChainOf(g, e)`. */
  lemma NormalizeEdgeAdded(g: GraphState, e: Edge)
    requires Valid(g) && Fresh(g) && e in g.edges
    requires !OneRank(g.nodes[e.v].rank, g.nodes[e.w].rank)
    ensures Added(g, ChainOf(g, e), NormalizeEdgeG(g, e))
  {
    var c := ChainOf(g, e);
    RoundsPartial(g, c, c.n);
    var r := Rounds(g, c, c.n);
    ClosingEdges(g, c, r.edges);
  }

  /** A graph with edge `c.e` split into chain `c` is still well formed, and
      the counter is still above every id. */
  lemma AddedKeeps(g: GraphState, c: Chain, r: GraphState)
    requires Valid(g) && Fresh(g) && c.e in g.edges && c.base == g.counter
    requires Added(g, c, r)
    ensures Valid(r) && Fresh(r)
  {
    forall f | f in r.edges ensures f.v in r.nodes && f.w in r.nodes {
      if !(f in g.edges && f != c.e) {
        var j := SegIdx(c, f);
        assert j != c.base ==> InChain(c, j - 1);
      }
    }
  }

  /** `normalizeEdge` keeps the graph well formed and the counter above every
      id, and leaves every other edge and every existing node as it was. */
  lemma NormalizeEdgeKeeps(g: GraphState, e: Edge)
    requires Valid(g) && Fresh(g) && e in g.edges
    ensures var r := NormalizeEdgeG(g, e);
            && Valid(r) && Fresh(r)
            && (forall u | u in g.nodes :: u in r.nodes && r.nodes[u] == g.nodes[u])
            && (forall f | f in g.edges && f != e :: f in r.edges && r.edges[f] == g.edges[f])
            && r.counter >= g.counter
  {
    if !OneRank(g.nodes[e.v].rank, g.nodes[e.w].rank) {
      NormalizeEdgeAdded(g, e);
      AddedKeeps(g, ChainOf(g, e), NormalizeEdgeG(g, e));
    }
  }
  /** No edge occurs twice in a list. */
  predicate Distinct(es: seq<Edge>)
  {
    forall i, j :: 0 <= i < j < |es| ==> es[i] != es[j]
  }

  /** `es` lists the edges of the map, each once. */
  predicate Enumerates(es: seq<Edge>, edges: map<Edge, EdgeLabel>)
  {
    Distinct(es) && (forall i :: 0 <= i < |es| ==> es[i] in edges) && (forall f | f in edges :: f in es)
  }

  /** `normalizeEdge` on each edge of `es` in turn. */
  function NormalizeAll(g: GraphState, es: seq<Edge>): (r: GraphState)
    requires Valid(g) && Fresh(g) && Distinct(es)
    requires forall i :: 0 <= i < |es| ==> es[i] in g.edges
    ensures Valid(r) && Fresh(r) && r.counter >= g.counter
    decreases |es|
  {
    if es == [] then g
    else
      var g' := NormalizeEdgeG(g, es[0]);
      NormalizeEdgeKeeps(g, es[0]);
      NormalizeAll(g', es[1..])
  }

  /** `run(g)`: `dummyChains` starts empty, then every edge of the snapshot
      `g.edges()` (listed by `es`) is normalized. */
  function RunG(g: GraphState, es: seq<Edge>): (r: GraphState)
    requires Valid(g) && Fresh(g) && Enumerates(es, g.edges)
    ensures Valid(r) && Fresh(r)
  {
    NormalizeAll(g.(dummyChains := []), es)
  }

  // ---------------------------------------------------------------------------
  // undo
  // ---------------------------------------------------------------------------

  /** One step of the walk down a chain: the dummy's position is appended to
      `points`, and an "edge-label" dummy also hands its position and size
      back to the label. */
  function StepLabel(l: EdgeLabel, d: NodeLabel): (r: EdgeLabel)
    requires d.Dummy? && l.points.Some?
    ensures r.points == Some(l.points.value + [Point(d.x, d.y)])
    ensures r.weight == l.weight && r.labelRank == l.labelRank && r.labelpos == l.labelpos
    ensures d.kind == EdgeLabelDummy ==> r.x == d.x && r.y == d.y && r.width == d.width && r.height == d.height
    ensures d.kind == EdgeDummy ==> r.x == l.x && r.y == l.y && r.width == l.width && r.height == l.height
  {
    var l' := l.(points := Some(l.points.value + [Point(d.x, d.y)]));
    if d.kind == EdgeLabelDummy then l'.(x := d.x, y := d.y, width := d.width, height := d.height) else l'
  }

  /** Where the walk down a chain stops: the graph and the rebuilt label. */
  datatype WalkEnd = WalkEnd(g: GraphState, l: EdgeLabel)

  /** The `while (node.dummy)` loop of `undo`, from dummy `v`: take `v`'s
      first successor, remove `v`, record it in the label, and go on while
      the successor is a dummy. It throws (`None`) when the label has no
      `points`, when `v` has no successor, or when the successor was `v` itself. */
  function Walk(g: GraphState, v: NodeId, l: EdgeLabel): (r: Option<WalkEnd>)
    requires v in g.nodes && g.nodes[v].Dummy?
    decreases |g.nodes|
  {
    var node := g.nodes[v];
    var w := FirstSucc(g, v);
    var g' := RemoveNodeG(g, v);
    if l.points.None? || w.None? || w.value !in g'.nodes then None
    else
      var l' := StepLabel(l, node);
      if !g'.nodes[w.value].Dummy? then Some(WalkEnd(g', l'))
      else Walk(g', w.value, l')
  }

  /** `undo` for the chain whose first dummy is `v`: restore the edge with
      the dummy's label, walk the chain, and leave the rebuilt label on the
      edge (the label object is shared, so the walk's changes show on it). */
  function UndoChainG(g: GraphState, v: NodeId): (r: Option<GraphState>)
  {
    if v !in g.nodes || !g.nodes[v].Dummy? then None
    else
      var node := g.nodes[v];
      var g1 := SetEdgeG(g, node.edgeObj, node.edgeLabel);
      match Walk(g1, v, node.edgeLabel)
      case None => None
      case Some(end) =>
        if node.edgeObj in end.g.edges then Some(end.g.(edges := end.g.edges[node.edgeObj := end.l]))
        else Some(end.g)
  }

  /** `undo` for each chain head of `vs` in turn. */
  function UndoChainsG(g: GraphState, vs: seq<NodeId>): (r: Option<GraphState>)
    decreases |vs|
  {
    if vs == [] then Some(g)
    else
      match UndoChainG(g, vs[0])
      case None => None
      case Some(g') => UndoChainsG(g', vs[1..])
  }

  /** `undo(g)`: every chain listed in `dummyChains`. */
  function UndoG(g: GraphState): Option<GraphState>
  {
    UndoChainsG(g, g.dummyChains)
  }

  // ---------------------------------------------------------------------------
  // undo of one chain
  // ---------------------------------------------------------------------------

  /** Chain `c` sits in `h` as `normalizeEdge` left it: its dummies are there
      and are dummies, the first remembers the edge and its label, the only
      edge out of each dummy is the next segment, and the edge's ends are
      nodes outside the chain, its head an ordinary node. */
  ghost predicate ChainIn(h: GraphState, c: Chain)
  {
    && c.n > 0 && c.lab.points == Some([])
    && (forall u | InChain(c, u) :: u in h.nodes && h.nodes[u].Dummy?)
    && c.base in h.nodes && h.nodes[c.base].Dummy?
    && h.nodes[c.base].edgeObj == c.e && h.nodes[c.base].edgeLabel == c.lab
    && (forall f | f in h.edges && InChain(c, f.v) :: f.w == Dst(c, f.v + 1) && f.name == c.e.name)
    && (forall j | c.base < j <= c.base + c.n :: Segment(c, j) in h.edges)
    && c.e.v in h.nodes && !InChain(c, c.e.v)
    && c.e.w in h.nodes && !h.nodes[c.e.w].Dummy?
  }

  /** The labels of the dummies of chain `c` in `h`, in chain order. */
  ghost function ChainLabels(h: GraphState, c: Chain): (ds: seq<NodeLabel>)
    ensures |ds| == c.n
  {
    seq(c.n, j => if c.base + j in h.nodes then h.nodes[c.base + j] else Blank)
  }

  /** The positions of the dummies `ds[k..]`, in order. */
  function Positions(ds: seq<NodeLabel>, k: nat): (ps: seq<Point>)
    requires k <= |ds|
    requires forall j | k <= j < |ds| :: ds[j].Dummy?
    ensures |ps| == |ds| - k
    ensures forall j | 0 <= j < |ps| :: ps[j] == Point(ds[k + j].x, ds[k + j].y)
    decreases |ds| - k
  {
    if k == |ds| then [] else [Point(ds[k].x, ds[k].y)] + Positions(ds, k + 1)
  }

  /** The label `undo` rebuilds from `l` along the dummies `ds[k..]`: each
      dummy's position is appended to `points`; weight, label rank and
      label position are kept. It stops at the first label that is not a
      dummy, and at once when `l` has no points. */
  function Fold(ds: seq<NodeLabel>, k: nat, l: EdgeLabel): (r: EdgeLabel)
    ensures r.weight == l.weight && r.labelRank == l.labelRank && r.labelpos == l.labelpos
    decreases |ds| - k
  {
    if k >= |ds| || !ds[k].Dummy? || l.points.None? then l else Fold(ds, k + 1, StepLabel(l, ds[k]))
  }

  /** Along dummies only, the fold appends exactly their positions. */
  lemma {:induction false} FoldPoints(ds: seq<NodeLabel>, k: nat, l: EdgeLabel)
    requires k <= |ds| && l.points.Some?
    requires forall j | k <= j < |ds| :: ds[j].Dummy?
    ensures Fold(ds, k, l).points == Some(l.points.value + Positions(ds, k))
    decreases |ds| - k
  {
    if k == |ds| {
      assert l.points.value + Positions(ds, k) == l.points.value;
    } else {
      var p := Point(ds[k].x, ds[k].y);
      FoldPoints(ds, k + 1, StepLabel(l, ds[k]));
      assert (l.points.value + [p]) + Positions(ds, k + 1) == l.points.value + ([p] + Positions(ds, k + 1));
    }
  }

  /** The rest of chain `c` from dummy `k` on is in `g`, with labels `ds`:
      the only edge out of each dummy is the next segment, and the chain
      ends at an ordinary node. */
  ghost predicate ChainFrom(g: GraphState, c: Chain, k: nat, ds: seq<NodeLabel>)
  {
    && k <= c.n && |ds| == c.n
    && (forall j | k <= j < c.n :: c.base + j in g.nodes && g.nodes[c.base + j] == ds[j] && ds[j].Dummy?)
    && (forall f | f in g.edges && c.base + k <= f.v < c.base + c.n :: f.w == Dst(c, f.v + 1) && f.name == c.e.name)
    && (forall j | c.base + k < j <= c.base + c.n :: Segment(c, j) in g.edges)
    && c.e.w in g.nodes && !g.nodes[c.e.w].Dummy?
  }

  /** `g` after `removeNode` on the dummies `base + k`, ..., `base + n - 1` in turn. */
  function Strip(g: GraphState, c: Chain, k: nat): GraphState
    decreases c.n - k
  {
    if k >= c.n then g else Strip(RemoveNodeG(g, c.base + k), c, k + 1)
  }

  /** Removing those dummies drops them, and keeps every other node. */
  lemma {:induction false} StripNodes(g: GraphState, c: Chain, k: nat)
    ensures var r := Strip(g, c, k);
            && r.counter == g.counter && r.dummyChains == g.dummyChains
            && (forall u :: u in r.nodes <==> u in g.nodes && !(c.base + k <= u < c.base + c.n))
            && (forall u | u in r.nodes :: r.nodes[u] == g.nodes[u])
    decreases c.n - k
  {
    if k < c.n {
      StripNodes(RemoveNodeG(g, c.base + k), c, k + 1);
    }
  }

  /** Removing those dummies drops every edge touching them, and keeps
      every other edge. */
  lemma {:induction false} StripEdges(g: GraphState, c: Chain, k: nat)
    ensures var r := Strip(g, c, k);
            && (forall f :: f in r.edges <==> f in g.edges && !(c.base + k <= f.v < c.base + c.n) && !(c.base + k <= f.w < c.base + c.n))
            && (forall f | f in r.edges :: r.edges[f] == g.edges[f])
    decreases c.n - k
  {
    if k < c.n {
      RemoveNodeShape(g, c.base + k);
      StripEdges(RemoveNodeG(g, c.base + k), c, k + 1);
    }
  }


  /** One step of the walk at dummy `k`: its only successor is the next
      node of the chain, and the rest of the chain is still in place once
      the dummy is removed. */
  lemma WalkStep(g: GraphState, c: Chain, k: nat, ds: seq<NodeLabel>)
    requires ChainFrom(g, c, k, ds) && k < c.n
    ensures c.base + k in g.nodes && g.nodes[c.base + k] == ds[k] && ds[k].Dummy?
    ensures FirstSucc(g, c.base + k) == Some(Dst(c, c.base + k + 1))
    ensures ChainFrom(RemoveNodeG(g, c.base + k), c, k + 1, ds)
    ensures var g' := RemoveNodeG(g, c.base + k);
            Dst(c, c.base + k + 1) in g'.nodes && g'.nodes[Dst(c, c.base + k + 1)].Dummy? == (k + 1 < c.n)
  {
    var v := c.base + k;
    var s := Segment(c, v + 1);
    var d := s.w;
    assert ds[k].Dummy? && v in g.nodes && g.nodes[v] == ds[k];
    assert s in g.edges && s.v == v;
    assert Succs(g, v) == {d} by {
      forall x | x in Succs(g, v) ensures x == d {
        var f :| f in g.edges && f.v == v && f.w == x;
      }
    }
    assert c.e.w != v;
    if k + 1 < c.n {
      assert ds[k + 1].Dummy? && d in g.nodes && g.nodes[d] == ds[k + 1];
    }
    RemoveNodeShape(g, v);
  }

  /** From dummy `k` on, the walk follows the chain to its end: it removes
      every remaining dummy and stops at the edge's head with the label
      folded along the rest of the chain. */
  lemma {:induction false} WalkDown(g: GraphState, c: Chain, k: nat, ds: seq<NodeLabel>, l: EdgeLabel)
    requires ChainFrom(g, c, k, ds) && k < c.n && l.points.Some?
    ensures c.base + k in g.nodes && g.nodes[c.base + k].Dummy?
    ensures Walk(g, c.base + k, l) == Some(WalkEnd(Strip(g, c, k), Fold(ds, k, l)))
    decreases c.n - k
  {
    WalkStep(g, c, k, ds);
    var g', l' := RemoveNodeG(g, c.base + k), StepLabel(l, ds[k]);
    if k + 1 < c.n {
      WalkDown(g', c, k + 1, ds, l');
    }
  }

  /** The label `undo` rebuilds along chain `c` of `h`. */
  ghost function Rebuilt(h: GraphState, c: Chain): EdgeLabel
  {
    Fold(ChainLabels(h, c), 0, c.lab)
  }

  /** What undoing chain `c` of `h` leaves: `h` without the chain's dummies
      and every edge touching them, and with edge `c.e` back under the label
      rebuilt along the chain. */
  ghost predicate Removed(h: GraphState, c: Chain, r: GraphState)
    requires ChainIn(h, c)
  {
    && r.counter == h.counter && r.dummyChains == h.dummyChains
    && (forall u :: u in r.nodes <==> u in h.nodes && !InChain(c, u))
    && (forall u | u in r.nodes :: r.nodes[u] == h.nodes[u])
    && (forall f :: f in r.edges <==> (f in h.edges && !InChain(c, f.v) && !InChain(c, f.w)) || f == c.e)
    && (forall f | f in r.edges && f != c.e :: r.edges[f] == h.edges[f])
    && c.e in r.edges && r.edges[c.e] == Rebuilt(h, c)
  }

  /** The graph `undo` builds for chain `c` of `h`: the edge set again,
      the chain's dummies removed, and the rebuilt label on the edge. */
  ghost function Stripped(h: GraphState, c: Chain): GraphState
    requires ChainIn(h, c)
  {
    var r := Strip(SetEdgeG(h, c.e, c.lab), c, 0);
    r.(edges := r.edges[c.e := Rebuilt(h, c)])
  }

  /** `Removed` pins down every field of the graph it describes. */
  lemma RemovedUnique(h: GraphState, c: Chain, r1: GraphState, r2: GraphState)
    requires ChainIn(h, c) && Removed(h, c, r1) && Removed(h, c, r2)
    ensures r1 == r2
  {
    assert r1.nodes == r2.nodes;
    assert r1.edges == r2.edges;
  }

  /** The nodes of `nodes` outside the ids `lo` to `hi - 1`. */
  function Outside(nodes: map<NodeId, NodeLabel>, lo: nat, hi: nat): (m: map<NodeId, NodeLabel>)
  {
    map u | u in nodes && !(lo <= u < hi) :: nodes[u]
  }

  /** The edges of `edges` that touch none of the ids `lo` to `hi - 1`. */
  function Untouched(edges: map<Edge, EdgeLabel>, lo: nat, hi: nat): (m: map<Edge, EdgeLabel>)
  {
    map f | f in edges && !(lo <= f.v < hi) && !(lo <= f.w < hi) :: edges[f]
  }

  /** The graph that lacks exactly chain `c` of `h`: its dummies and every
      edge touching them are gone, and edge `c.e` has the rebuilt label. */
  ghost function Undone(h: GraphState, c: Chain): GraphState
  {
    var hi := c.base + c.n;
    h.(nodes := Outside(h.nodes, c.base, hi), edges := Untouched(h.edges, c.base, hi)[c.e := Rebuilt(h, c)])
  }

  /** `Undone` is the graph `Removed` describes. */
  lemma UndoneRemoves(h: GraphState, c: Chain)
    requires ChainIn(h, c)
    ensures Removed(h, c, Undone(h, c))
  {
    assert !InChain(c, c.e.v) && !InChain(c, c.e.w);
  }

  /** Setting the edge again leaves the chain in place for the walk. */
  lemma SetEdgeChainFrom(h: GraphState, c: Chain)
    requires ChainIn(h, c)
    ensures ChainFrom(SetEdgeG(h, c.e, c.lab), c, 0, ChainLabels(h, c))
  {
    var ds := ChainLabels(h, c);
    var g1 := SetEdgeG(h, c.e, c.lab);
    SetEdgeBetween(h, c.e, c.lab);
    forall j | 0 <= j < c.n ensures c.base + j in g1.nodes && g1.nodes[c.base + j] == ds[j] && ds[j].Dummy? {
      assert InChain(c, c.base + j);
    }
  }

  /** Removing the chain's dummies keeps the edge itself. */
  lemma StripKeepsEdge(h: GraphState, c: Chain)
    requires ChainIn(h, c)
    ensures c.e in Strip(SetEdgeG(h, c.e, c.lab), c, 0).edges
  {
    SetEdgeBetween(h, c.e, c.lab);
    StripEdges(SetEdgeG(h, c.e, c.lab), c, 0);
    assert !InChain(c, c.e.w);
  }

  /** The walk from the first dummy of a chain follows the whole chain. */
  lemma WalkWholeChain(g: GraphState, c: Chain, ds: seq<NodeLabel>, l: EdgeLabel)
    requires ChainFrom(g, c, 0, ds) && 0 < c.n && l.points.Some?
    ensures c.base in g.nodes && g.nodes[c.base].Dummy?
    ensures Walk(g, c.base, l) == Some(WalkEnd(Strip(g, c, 0), Fold(ds, 0, l)))
  {
    WalkDown(g, c, 0, ds, l);
  }

  /** `undo` from dummy `v`, which remembers edge `e` and label `l`, when
      the walk ends in `G` with label `L` and the edge still there. */
  lemma UndoChainAfterWalk(h: GraphState, v: NodeId, e: Edge, l: EdgeLabel, G: GraphState, L: EdgeLabel)
    requires v in h.nodes && h.nodes[v].Dummy? && h.nodes[v].edgeObj == e && h.nodes[v].edgeLabel == l
    requires Walk(SetEdgeG(h, e, l), v, l) == Some(WalkEnd(G, L))
    requires e in G.edges
    ensures UndoChainG(h, v) == Some(G.(edges := G.edges[e := L]))
  {
  }

  /** `undo` on the first dummy of a chain that is in place walks the whole chain. */
  lemma UndoChainWalks(h: GraphState, c: Chain)
    requires ChainIn(h, c)
    ensures UndoChainG(h, c.base) == Some(Stripped(h, c))
  {
    var g1 := SetEdgeG(h, c.e, c.lab);
    SetEdgeChainFrom(h, c);
    WalkWholeChain(g1, c, ChainLabels(h, c), c.lab);
    StripKeepsEdge(h, c);
    UndoChainAfterWalk(h, c.base, c.e, c.lab, Strip(g1, c, 0), Fold(ChainLabels(h, c), 0, c.lab));
  }

  /** `undo` on the first dummy of a chain that is in place removes the
      chain and gives the edge back. */
  lemma UndoChainRemoves(h: GraphState, c: Chain)
    requires ChainIn(h, c)
    ensures var r := UndoChainG(h, c.base); r.Some? && Removed(h, c, r.value)
  {
    UndoChainWalks(h, c);
    StrippedRemoves(h, c);
  }

  /** The graph `undo` builds for chain `c` lacks exactly the chain. */
  lemma StrippedRemoves(h: GraphState, c: Chain)
    requires ChainIn(h, c)
    ensures Removed(h, c, Stripped(h, c))
  {
    SetEdgeBetween(h, c.e, c.lab);
    StripNodes(SetEdgeG(h, c.e, c.lab), c, 0);
    StripEdges(SetEdgeG(h, c.e, c.lab), c, 0);
    assert !InChain(c, c.e.w);
  }



  // ---------------------------------------------------------------------------
  // undo of every chain
  // ---------------------------------------------------------------------------

  /** The first dummies of the chains `cs`, in order. */
  function Heads(cs: seq<Chain>): (vs: seq<NodeId>)
    ensures |vs| == |cs|
    decreases |cs|
  {
    if cs == [] then [] else [cs[0].base] + Heads(cs[1..])
  }

  /** The edges the chains `cs` stand for, in order. */
  function EdgesOf(cs: seq<Chain>): (es: seq<Edge>)
    ensures |es| == |cs|
    ensures forall i | 0 <= i < |cs| :: es[i] == cs[i].e
  {
    seq(|cs|, i requires 0 <= i < |cs| => cs[i].e)
  }

  /** The chains `cs` take up the ids `lo` to `hi` one after another. */
  predicate Tiles(cs: seq<Chain>, lo: nat, hi: nat)
    decreases |cs|
  {
    if cs == [] then lo == hi else cs[0].base == lo && Tiles(cs[1..], lo + cs[0].n, hi)
  }

  /** Every chain of a tiling lies inside its range. */
  lemma {:induction false} TilesBounds(cs: seq<Chain>, lo: nat, hi: nat)
    requires Tiles(cs, lo, hi)
    ensures lo <= hi
    ensures forall i | 0 <= i < |cs| :: lo <= cs[i].base && cs[i].base + cs[i].n <= hi
    decreases |cs|
  {
    if cs != [] {
      TilesBounds(cs[1..], lo + cs[0].n, hi);
      forall i | 1 <= i < |cs| ensures lo <= cs[i].base && cs[i].base + cs[i].n <= hi {
        assert cs[i] == cs[1..][i - 1];
      }
    }
  }

  /** The chains `cs` are in place in `h` over the ids `lo` to `hi`, each
      for its own edge, and every such edge joins nodes below `lo`. */
  ghost predicate ChainsIn(h: GraphState, cs: seq<Chain>, lo: nat, hi: nat)
  {
    && Tiles(cs, lo, hi)
    && (forall i | 0 <= i < |cs| :: ChainIn(h, cs[i]) && cs[i].e.v < lo && cs[i].e.w < lo)
    && (forall i, j | 0 <= i < j < |cs| :: cs[i].e != cs[j].e)
  }

  /** Undoing chain `c` leaves a chain `d` with other ids and ends in place,
      with the same dummies. */
  lemma ChainInAfterUndo(h: GraphState, c: Chain, d: Chain, r: GraphState)
    requires ChainIn(h, c) && ChainIn(h, d) && Removed(h, c, r)
    requires c.base + c.n <= d.base
    requires c.e.v < c.base && c.e.w < c.base && d.e.v < c.base && d.e.w < c.base
    ensures ChainIn(r, d) && ChainLabels(r, d) == ChainLabels(h, d)
  {
    forall u | InChain(d, u) ensures u in r.nodes && r.nodes[u] == h.nodes[u] {
      assert !InChain(c, u);
    }
    forall j | d.base < j <= d.base + d.n ensures Segment(d, j) in r.edges {
      assert Segment(d, j) in h.edges;
    }
    assert ChainLabels(r, d) == ChainLabels(h, d) by {
      forall j | 0 <= j < d.n ensures ChainLabels(r, d)[j] == ChainLabels(h, d)[j] {
        assert InChain(d, d.base + j);
      }
    }
  }

  /** Removing the first chain of `cs` leaves the others in place. */
  lemma ChainsInAfterUndo(h: GraphState, cs: seq<Chain>, lo: nat, hi: nat, r: GraphState)
    requires ChainsIn(h, cs, lo, hi) && cs != [] && Removed(h, cs[0], r)
    ensures ChainsIn(r, cs[1..], lo + cs[0].n, hi) && lo + cs[0].n <= hi
    ensures forall i | 1 <= i < |cs| :: ChainLabels(r, cs[i]) == ChainLabels(h, cs[i])
  {
    var c := cs[0];
    TilesBounds(cs[1..], lo + c.n, hi);
    forall i | 1 <= i < |cs| ensures ChainIn(r, cs[i]) && ChainLabels(r, cs[i]) == ChainLabels(h, cs[i]) {
      assert cs[i] == cs[1..][i - 1];
      ChainInAfterUndo(h, c, cs[i], r);
    }
    forall i, j | 0 <= i < j < |cs[1..]| ensures cs[1..][i].e != cs[1..][j].e {
      assert cs[1..][i] == cs[i + 1] && cs[1..][j] == cs[j + 1];
    }
  }

  /** No chain of `cs` after the first stands for the first one's edge. */
  lemma FirstEdgeOnce(cs: seq<Chain>)
    requires cs != [] && forall i, j | 0 <= i < j < |cs| :: cs[i].e != cs[j].e
    ensures EdgesOf(cs) == [cs[0].e] + EdgesOf(cs[1..])
    ensures cs[0].e !in EdgesOf(cs[1..])
  {
    var rest := cs[1..];
    forall i | 0 <= i < |rest| ensures EdgesOf(rest)[i] != cs[0].e { assert rest[i] == cs[i + 1]; }
  }

  /** Undoing the first chain of `cs` leaves the others in place. */
  lemma ChainsInAfterUndone(h: GraphState, cs: seq<Chain>, lo: nat, hi: nat)
    requires ChainsIn(h, cs, lo, hi) && cs != []
    ensures ChainsIn(Undone(h, cs[0]), cs[1..], lo + cs[0].n, hi) && lo + cs[0].n <= hi
    ensures forall i | 1 <= i < |cs| :: ChainLabels(Undone(h, cs[0]), cs[i]) == ChainLabels(h, cs[i])
  {
    UndoneRemoves(h, cs[0]);
    ChainsInAfterUndo(h, cs, lo, hi, Undone(h, cs[0]));
  }

  /** `undo` of a list of chains is the first chain's undo, then the rest's. */
  lemma UndoChainsCons(h: GraphState, cs: seq<Chain>)
    requires cs != [] && ChainIn(h, cs[0])
    ensures UndoChainsG(h, Heads(cs)) == UndoChainsG(Undone(h, cs[0]), Heads(cs[1..]))
  {
    UndoChainRemoves(h, cs[0]);
    UndoneRemoves(h, cs[0]);
    RemovedUnique(h, cs[0], UndoChainG(h, cs[0].base).value, Undone(h, cs[0]));
    assert Heads(cs)[1..] == Heads(cs[1..]);
  }

  /** The edges the chains `cs` stand for, each under the label rebuilt
      along its chain. */
  ghost function RebuiltMap(h: GraphState, cs: seq<Chain>): map<Edge, EdgeLabel>
    decreases |cs|
  {
    if cs == [] then map[] else RebuiltMap(h, cs[1..])[cs[0].e := Rebuilt(h, cs[0])]
  }

  /** The graph undoing the chains `cs` over the ids `lo` to `hi` leaves:
      no node in that range and no edge touching one, and the chains' edges
      back under their rebuilt labels. */
  ghost function UndoneAll(h: GraphState, cs: seq<Chain>, lo: nat, hi: nat): GraphState
  {
    h.(nodes := Outside(h.nodes, lo, hi), edges := Untouched(h.edges, lo, hi) + RebuiltMap(h, cs))
  }

  /** `RebuiltMap` holds exactly the chains' edges. */
  lemma {:induction false} RebuiltMapKeys(h: GraphState, cs: seq<Chain>)
    ensures forall f :: f in RebuiltMap(h, cs) <==> f in EdgesOf(cs)
    decreases |cs|
  {
    if cs != [] {
      RebuiltMapKeys(h, cs[1..]);
      assert EdgesOf(cs) == [cs[0].e] + EdgesOf(cs[1..]);
    }
  }

  /** Each chain's edge carries the label rebuilt along that chain. */
  lemma {:induction false} RebuiltMapAt(h: GraphState, cs: seq<Chain>, i: nat)
    requires forall k, j | 0 <= k < j < |cs| :: cs[k].e != cs[j].e
    requires i < |cs|
    ensures cs[i].e in RebuiltMap(h, cs) && RebuiltMap(h, cs)[cs[i].e] == Rebuilt(h, cs[i])
    decreases |cs|
  {
    var rest := cs[1..];
    if i > 0 {
      assert forall k | 0 <= k < |rest| :: rest[k] == cs[k + 1];
      RebuiltMapAt(h, rest, i - 1);
    }
  }

  /** Two graphs with the same dummies along the chains rebuild the same labels. */
  lemma {:induction false} RebuiltMapSame(h: GraphState, r: GraphState, cs: seq<Chain>)
    requires forall i | 0 <= i < |cs| :: ChainLabels(r, cs[i]) == ChainLabels(h, cs[i])
    ensures RebuiltMap(r, cs) == RebuiltMap(h, cs)
    decreases |cs|
  {
    if cs != [] {
      var rest := cs[1..];
      assert forall i | 0 <= i < |rest| :: rest[i] == cs[i + 1];
      RebuiltMapSame(h, r, rest);
      assert Rebuilt(r, cs[0]) == Rebuilt(h, cs[0]);
    }
  }

  lemma OutsideTwice(m: map<NodeId, NodeLabel>, lo: nat, mid: nat, hi: nat)
    requires lo <= mid <= hi
    ensures Outside(Outside(m, lo, mid), mid, hi) == Outside(m, lo, hi)
  {
  }

  lemma UntouchedTwice(m: map<Edge, EdgeLabel>, lo: nat, mid: nat, hi: nat)
    requires lo <= mid <= hi
    ensures Untouched(Untouched(m, lo, mid), mid, hi) == Untouched(m, lo, hi)
  {
  }

  /** An edge with no end in the range is untouched however it is labelled. */
  lemma UntouchedUpdate(m: map<Edge, EdgeLabel>, e: Edge, l: EdgeLabel, lo: nat, hi: nat)
    requires !(lo <= e.v < hi) && !(lo <= e.w < hi)
    ensures Untouched(m[e := l], lo, hi) == Untouched(m, lo, hi)[e := l]
  {
  }

  lemma UpdateUnion(k: map<Edge, EdgeLabel>, m: map<Edge, EdgeLabel>, e: Edge, l: EdgeLabel)
    requires e !in m
    ensures k[e := l] + m == k + m[e := l]
  {
  }

  /** The map algebra behind `UndoneAllStep`: `after` is `edges` with
      the ids `lo` to `mid - 1` gone and `e` relabelled, `rest'` is `rest`,
      and `all` is `rest` with `e` added. */
  lemma EdgesAfterChain(edges: map<Edge, EdgeLabel>, lo: nat, mid: nat, hi: nat, e: Edge, l: EdgeLabel,
                        rest: map<Edge, EdgeLabel>,
                        after: map<Edge, EdgeLabel>, rest': map<Edge, EdgeLabel>, all: map<Edge, EdgeLabel>)
    requires lo <= mid <= hi && e.v < lo && e.w < lo && e !in rest
    requires after == Untouched(edges, lo, mid)[e := l] && rest' == rest && all == rest[e := l]
    ensures Untouched(after, mid, hi) + rest' == Untouched(edges, lo, hi) + all
  {
    UntouchedUpdate(Untouched(edges, lo, mid), e, l, mid, hi);
    UntouchedTwice(edges, lo, mid, hi);
    UpdateUnion(Untouched(edges, lo, hi), rest, e, l);
  }

  /** Undoing the first chain of `cs` over the ids `lo` to `mid - 1` (which
      leaves `r`) and then the rest leaves what undoing all of them leaves,
      once the rest rebuild the same labels either way. */
  lemma {:induction false} UndoneAllStep(h: GraphState, r: GraphState, cs: seq<Chain>, lo: nat, mid: nat, hi: nat,
                                         l: EdgeLabel)
    requires cs != [] && lo <= mid <= hi && cs[0].e.v < lo && cs[0].e.w < lo
    requires cs[0].e !in RebuiltMap(h, cs[1..])
    requires RebuiltMap(h, cs) == RebuiltMap(h, cs[1..])[cs[0].e := l]
    requires r.nodes == Outside(h.nodes, lo, mid) && r.edges == Untouched(h.edges, lo, mid)[cs[0].e := l]
    requires r.dummyChains == h.dummyChains && r.counter == h.counter
    requires RebuiltMap(r, cs[1..]) == RebuiltMap(h, cs[1..])
    ensures UndoneAll(r, cs[1..], mid, hi) == UndoneAll(h, cs, lo, hi)
  {
    EdgesAfterChain(h.edges, lo, mid, hi, cs[0].e, l, RebuiltMap(h, cs[1..]),
                    r.edges, RebuiltMap(r, cs[1..]), RebuiltMap(h, cs));
    OutsideTwice(h.nodes, lo, mid, hi);
  }

  /** The same step, for the first chain's range and with its edge not
      among the rest's. */
  lemma {:induction false} UndoneAllFirst(h: GraphState, cs: seq<Chain>, lo: nat, hi: nat, r: GraphState, l: EdgeLabel)
    requires cs != [] && cs[0].base == lo && lo + cs[0].n <= hi
    requires cs[0].e.v < lo && cs[0].e.w < lo && cs[0].e !in EdgesOf(cs[1..])
    requires RebuiltMap(h, cs) == RebuiltMap(h, cs[1..])[cs[0].e := l]
    requires r.nodes == Outside(h.nodes, lo, lo + cs[0].n)
    requires r.edges == Untouched(h.edges, lo, lo + cs[0].n)[cs[0].e := l]
    requires r.dummyChains == h.dummyChains && r.counter == h.counter
    requires RebuiltMap(r, cs[1..]) == RebuiltMap(h, cs[1..])
    ensures UndoneAll(r, cs[1..], lo + cs[0].n, hi) == UndoneAll(h, cs, lo, hi)
  {
    RebuiltMapKeys(h, cs[1..]);
    UndoneAllStep(h, r, cs, lo, lo + cs[0].n, hi, l);
  }

  /** Undoing the first chain of `cs` and then the rest leaves what undoing
      all of them leaves. */
  lemma UndoneAllCons(h: GraphState, cs: seq<Chain>, lo: nat, hi: nat)
    requires ChainsIn(h, cs, lo, hi) && cs != []
    ensures UndoneAll(Undone(h, cs[0]), cs[1..], lo + cs[0].n, hi) == UndoneAll(h, cs, lo, hi)
  {
    var r := Undone(h, cs[0]);
    FirstEdgeOnce(cs);
    ChainsInAfterUndone(h, cs, lo, hi);
    forall i | 0 <= i < |cs[1..]| ensures ChainLabels(r, cs[1..][i]) == ChainLabels(h, cs[1..][i]) {
      assert cs[1..][i] == cs[i + 1];
    }
    RebuiltMapSame(h, r, cs[1..]);
    UndoneAllFirst(h, cs, lo, hi, r, Rebuilt(h, cs[0]));
  }

  /** Undoing no chain leaves the graph as it is. */
  lemma UndoneAllNil(h: GraphState, lo: nat)
    ensures UndoneAll(h, [], lo, lo) == h
  {
    assert Outside(h.nodes, lo, lo) == h.nodes;
    assert Untouched(h.edges, lo, lo) + map[] == h.edges;
  }

  /** `undo` of the chains `cs` in turn succeeds and leaves `UndoneAll`. */
  lemma {:induction false} UndoChainsAll(h: GraphState, cs: seq<Chain>, lo: nat, hi: nat)
    requires ChainsIn(h, cs, lo, hi)
    ensures UndoChainsG(h, Heads(cs)) == Some(UndoneAll(h, cs, lo, hi))
    decreases |cs|
  {
    if cs == [] {
      UndoneAllNil(h, lo);
    } else {
      ChainsInAfterUndone(h, cs, lo, hi);
      UndoChainsAll(Undone(h, cs[0]), cs[1..], lo + cs[0].n, hi);
      UndoneAllCons(h, cs, lo, hi);
      UndoChainsCons(h, cs);
    }
  }

  // ---------------------------------------------------------------------------
  // What normalizeEdge and run promise
  // ---------------------------------------------------------------------------

  /** Edge `f` joins two nodes of adjacent ranks. */
  predicate SpansOne(g: GraphState, f: Edge)
  {
    f.v in g.nodes && f.w in g.nodes && OneRank(g.nodes[f.v].rank, g.nodes[f.w].rank)
  }

  /** Edge `f` goes down the layering: both ends are ranked, the head lower. */
  predicate Descends(g: GraphState, f: Edge)
  {
    f.v in g.nodes && f.w in g.nodes && Less(g.nodes[f.v].rank, g.nodes[f.w].rank)
  }

  /** Each segment of the chain a descending edge is split into joins two
      adjacent ranks. */
  lemma SegmentsSpanOne(g: GraphState, c: Chain, r: GraphState)
    requires Valid(g) && Fresh(g) && c.e in g.edges && c == ChainOf(g, c.e) && Descends(g, c.e)
    requires Added(g, c, r)
    ensures forall f | IsSeg(c, f) :: SpansOne(r, f)
  {
    forall f | IsSeg(c, f) ensures SpansOne(r, f) {
      var j := SegIdx(c, f);
      assert j != c.base ==> InChain(c, j - 1);
    }
  }

  /** `normalizeEdge` on a descending edge: every edge of the result is
      either another edge of the input or joins two adjacent ranks; the edge
      itself stays only when it already spans one rank. */
  lemma NormalizeEdgeSpans(g: GraphState, e: Edge)
    requires Valid(g) && Fresh(g) && e in g.edges && Descends(g, e)
    ensures var r := NormalizeEdgeG(g, e);
            && (forall f | f in r.edges :: (f in g.edges && f != e) || SpansOne(r, f))
            && (e in r.edges <==> OneRank(g.nodes[e.v].rank, g.nodes[e.w].rank))
  {
    if !OneRank(g.nodes[e.v].rank, g.nodes[e.w].rank) {
      var c := ChainOf(g, e);
      NormalizeEdgeAdded(g, e);
      SegmentsSpanOne(g, c, NormalizeEdgeG(g, e));
      assert !InChain(c, e.w) && Src(c, c.base + c.n) != e.v;
    }
  }

  /** The conditions of `NormalizeAllSpans` hold again for the rest of
      `es` once its first edge is normalized. */
  lemma NormalizeFirstSpans(g: GraphState, es: seq<Edge>)
    requires Valid(g) && Fresh(g) && Distinct(es) && es != []
    requires forall i :: 0 <= i < |es| ==> es[i] in g.edges && Descends(g, es[i])
    requires forall f | f in g.edges :: f in es || SpansOne(g, f)
    ensures var g', rest := NormalizeEdgeG(g, es[0]), es[1..];
            && Valid(g') && Fresh(g') && Distinct(rest)
            && (forall i :: 0 <= i < |rest| ==> rest[i] in g'.edges && Descends(g', rest[i]))
            && (forall f | f in g'.edges :: f in rest || SpansOne(g', f))
  {
    var e := es[0];
    var g' := NormalizeEdgeG(g, e);
    NormalizeEdgeKeeps(g, e);
    NormalizeEdgeSpans(g, e);
    var rest := es[1..];
    assert es == [e] + rest;
    forall i | 0 <= i < |rest| ensures rest[i] in g'.edges && Descends(g', rest[i]) {
      assert rest[i] == es[i + 1] && es[i + 1] != e;
    }
    forall f | f in g'.edges ensures f in rest || SpansOne(g', f) {
      if f in g.edges && f != e && !SpansOne(g, f) {
        assert f in rest;
      }
    }
  }

  /** `normalizeEdge` on each of `es` in turn, when every edge not in `es`
      already spans one rank, leaves only edges that span one rank. */
  lemma {:induction false} NormalizeAllSpans(g: GraphState, es: seq<Edge>)
    requires Valid(g) && Fresh(g) && Distinct(es)
    requires forall i :: 0 <= i < |es| ==> es[i] in g.edges && Descends(g, es[i])
    requires forall f | f in g.edges :: f in es || SpansOne(g, f)
    ensures var r := NormalizeAll(g, es); forall f | f in r.edges :: SpansOne(r, f)
    decreases |es|
  {
    if es != [] {
      NormalizeFirstSpans(g, es);
      NormalizeAllSpans(NormalizeEdgeG(g, es[0]), es[1..]);
      assert NormalizeAll(g, es) == NormalizeAll(NormalizeEdgeG(g, es[0]), es[1..]);
    } else {
      forall f | f in g.edges ensures SpansOne(g, f) { assert f !in es; }
    }
  }

  /** `run` on a graph whose every edge descends: afterwards every edge spans
      exactly one rank. */
  lemma RunSpansOne(g: GraphState, es: seq<Edge>)
    requires Valid(g) && Fresh(g) && Enumerates(es, g.edges)
    requires forall f | f in g.edges :: Descends(g, f)
    ensures var r := RunG(g, es); forall f | f in r.edges :: SpansOne(r, f)
  {
    NormalizeAllSpans(g.(dummyChains := []), es);
    assert RunG(g, es) == NormalizeAll(g.(dummyChains := []), es);
  }

  // ---------------------------------------------------------------------------
  // The graph object
  // ---------------------------------------------------------------------------

  /** `++rank` on a rank that may be undefined (NaN stays NaN). */
  function Inc(r: Option<int>): Option<int>
  {
    if r.Some? then Some(r.value + 1) else None
  }

  /** `a < b` on ranks that may be undefined (any comparison with NaN is false). */
  predicate Less(a: Option<int>, b: Option<int>)
  {
    a.Some? && b.Some? && a.value < b.value
  }



  /** While the loop runs, the rank lies strictly between the ends. */
  lemma BelowCount(vRank: Option<int>, wRank: Option<int>, i: nat)
    requires vRank.None? ==> Less(None, wRank)
    requires vRank.Some? ==> Less(Some(vRank.value + 1 + i), wRank)
    ensures vRank.Some? && i < DummyCount(vRank, wRank)
  {
  }

  /** When the loop stops, it has made every dummy. */
  lemma AtCount(vRank: Option<int>, wRank: Option<int>, i: nat)
    requires i <= DummyCount(vRank, wRank)
    requires vRank.Some? ==> !Less(Some(vRank.value + 1 + i), wRank)
    ensures i == DummyCount(vRank, wRank)
  {
  }

  /** A dagre graph: node and edge label maps, the `dummyChains` graph
      attribute, and the id counter `addDummyNode` draws from. */
  class Graph {
    var nodes: map<NodeId, NodeLabel>
    var edges: map<Edge, EdgeLabel>
    var dummyChains: seq<NodeId>
    var counter: nat

    function State(): GraphState
      reads this
    {
      GraphState(nodes, edges, dummyChains, counter)
    }

    constructor (nodes: map<NodeId, NodeLabel>, edges: map<Edge, EdgeLabel>, counter: nat)
      ensures State() == GraphState(nodes, edges, [], counter)
    {
      this.nodes := nodes;
      this.edges := edges;
      this.dummyChains := [];
      this.counter := counter;
    }

    /** graphlib's `setEdge(v, w, label, name)`. */
    method SetEdge(v: NodeId, w: NodeId, l: EdgeLabel, name: Option<string>)
      modifies this
      ensures State() == SetEdgeG(old(State()), Edge(v, w, name), l)
    {
      if v !in nodes { nodes := nodes[v := Blank]; }
      if w !in nodes { nodes := nodes[w := Blank]; }
      edges := edges[Edge(v, w, name) := l];
    }

    /** graphlib's `removeNode(v)`. */
    method RemoveNode(v: NodeId)
      modifies this
      ensures State() == RemoveNodeG(old(State()), v)
    {
      nodes := nodes - {v};
      edges := map e | e in edges && e.v != v && e.w != v :: edges[e];
    }

    /** `util.addDummyNode`: draws ids from the counter until one is not a
        node yet, and adds the node under that id. */
    method AddDummyNode(attrs: NodeLabel) returns (v: NodeId)
      modifies this
      ensures v !in old(nodes) && nodes == old(nodes)[v := attrs]
      ensures edges == old(edges) && dummyChains == old(dummyChains) && counter == v + 1
      ensures Fresh(old(State())) ==> v == old(counter)
      ensures v >= old(counter)
    {
      v := counter;
      counter := counter + 1;
      while v in nodes
        invariant counter == v + 1 && v >= old(counter)
        invariant nodes == old(nodes) && edges == old(edges) && dummyChains == old(dummyChains)
        invariant Fresh(old(State())) ==> v == old(counter)
        decreases |Above(nodes.Keys, v)|
      {
        AboveShrinks(nodes.Keys, v);
        v := counter;
        counter := counter + 1;
      }
      nodes := nodes[v := attrs];
    }

    /** `successors(v)[0]`. */
    method FirstSuccessor(v: NodeId) returns (w: Option<NodeId>)
      ensures w == FirstSucc(State(), v)
    {
      var ws := set e | e in edges && e.v == v :: e.w;
      if ws == {} { w := None; } else { w := Some(Least(ws)); }
    }

    /** `edges()`: every edge, once each, in graphlib's order. */
    method EdgeList() returns (es: seq<Edge>)
      ensures Enumerates(es, edges)
    {
      var left := edges.Keys;
      es := [];
      while left != {}
        invariant left <= edges.Keys
        invariant Distinct(es)
        invariant forall i :: 0 <= i < |es| ==> es[i] in edges && es[i] !in left
        invariant forall f | f in edges :: f in es || f in left
        decreases |left|
      {
        var e :| e in left;
        es := es + [e];
        left := left - {e};
      }
    }

    /** `normalizeEdge(g, e)`. */
    method NormalizeEdge(e: Edge)
      requires e in edges && e.v in nodes && e.w in nodes && Fresh(State())
      modifies this
      ensures State() == NormalizeEdgeG(old(State()), e)
    {
      var v := e.v;
      var vRank := nodes[v].rank;
      var w := e.w;
      var wRank := nodes[w].rank;
      var name := e.name;
      var l := edges[e];
      if OneRank(vRank, wRank) {
        return;
      }
      ghost var g0 := State();
      ghost var c := ChainOf(g0, e);
      edges := edges - {e};
      v, l := AddChain(g0, c, e, v, vRank, wRank, l);
      assert Edge(v, w, name) == Segment(c, c.base + c.n);
      SetEdgeBetween(State(), Edge(v, w, name), WeightOnly(l));
      SetEdge(v, w, WeightOnly(l), name);
    }

    /** The loop of `normalizeEdge`: one round per rank strictly between the
        ends, from the edge's tail `v0`; `l0` is the edge's label. */
    method AddChain(ghost g0: GraphState, ghost c: Chain, e: Edge, v0: NodeId,
                    vRank: Option<int>, wRank: Option<int>, l0: EdgeLabel) returns (v: NodeId, l: EdgeLabel)
      requires c.e == e && c.base == g0.counter && v0 == e.v
      requires c.n == DummyCount(vRank, wRank) && (vRank.Some? ==> c.r0 == vRank.value + 1)
      requires c.lab == l0.(points := Some([]))
      requires State() == Rounds(g0, c, 0) && Fresh(State()) && v0 in nodes && e.w in nodes
      modifies this
      ensures State() == Rounds(g0, c, c.n)
      ensures v == Src(c, c.base + c.n) && WeightOnly(l) == WeightOnly(c.lab)
      ensures v in nodes && e.w in nodes
    {
      v, l := v0, l0;
      var i: nat := 0;
      var rank := Inc(vRank);
      while Less(rank, wRank)
        invariant i <= c.n
        invariant vRank.Some? ==> rank == Some(c.r0 + i)
        invariant vRank.None? ==> rank.None?
        invariant v == Src(c, c.base + i) && v in nodes && e.w in nodes
        invariant State() == Rounds(g0, c, i) && Fresh(State()) && counter == c.base + i
        invariant l == if i > 0 then c.lab else l0
        decreases c.n - i
      {
        BelowCount(vRank, wRank, i);
        l := l.(points := Some([]));
        v := AddChainDummy(c, i, v, l, rank, e);
        i := i + 1;
        rank := Inc(rank);
      }
      AtCount(vRank, wRank, i);
    }

    /** One round of the loop: the dummy at `rank` (it gets id `base + i`)
        and the segment into it from `v`. */
    method AddChainDummy(ghost c: Chain, i: nat, v: NodeId, l: EdgeLabel, rank: Option<int>, e: Edge)
      returns (dummy: NodeId)
      requires Fresh(State()) && counter == c.base + i && i < c.n
      requires v == Src(c, c.base + i) && v in nodes
      requires c.e == e && l == c.lab && rank == Some(c.r0 + i)
      modifies this
      ensures dummy == c.base + i && State() == Round(old(State()), c, i)
      ensures Fresh(State()) && dummy in nodes && old(nodes).Keys <= nodes.Keys
    {
      // The node's label is the `attrs` object itself, so the fields set
      // after `addDummyNode` show on the node; they are set before here.
      var attrs := Dummy(EdgeDummy, rank, Some(0.0), Some(0.0), None, l, e, None, None);
      if rank == l.labelRank {
        attrs := attrs.(width := l.width, height := l.height, kind := EdgeLabelDummy, labelpos := l.labelpos);
      }
      assert attrs == DummyLabel(c, c.base + i);
      dummy := AddDummyNode(attrs);
      if i == 0 {
        dummyChains := dummyChains + [dummy];
      }
      assert Edge(v, dummy, e.name) == Segment(c, c.base + i);
      SetEdgeBetween(State(), Segment(c, c.base + i), WeightOnly(l));
      SetEdge(v, dummy, WeightOnly(l), e.name);
    }

    /** `run(g)`; `es` is the order in which `edges()` listed the edges. */
    method Run() returns (ghost es: seq<Edge>)
      requires Valid(State()) && Fresh(State())
      modifies this
      ensures Enumerates(es, old(edges))
      ensures State() == RunG(old(State()), es)
    {
      dummyChains := [];
      var list := EdgeList();
      es := list;
      ghost var target := NormalizeAll(State(), list);
      var j := 0;
      while j < |list|
        invariant 0 <= j <= |list|
        invariant Valid(State()) && Fresh(State())
        invariant forall k :: j <= k < |list| ==> list[k] in edges
        invariant NormalizeAll(State(), list[j..]) == target
      {
        NormalizeEdgeKeeps(State(), list[j]);
        assert list[j..][1..] == list[j + 1..];
        NormalizeEdge(list[j]);
        j := j + 1;
      }
    }

    /** The body of `undo`'s `forEach` for the chain whose first dummy is `head`. */
    method UndoChain(head: NodeId) returns (ok: bool)
      modifies this
      ensures ok <==> UndoChainG(old(State()), head).Some?
      ensures ok ==> State() == UndoChainG(old(State()), head).value
    {
      if head !in nodes || !nodes[head].Dummy? {
        return false;
      }
      var node := nodes[head];
      var eo := node.edgeObj;
      SetEdge(eo.v, eo.w, node.edgeLabel, eo.name);
      var origLabel;
      ok, origLabel := WalkChain(head, node.edgeLabel);
      if ok && eo in edges {
        edges := edges[eo := origLabel];
      }
    }

    /** The `while (node.dummy)` loop of `undo`, from dummy `v0` with the
        label `l0` being rebuilt. */
    method WalkChain(v0: NodeId, l0: EdgeLabel) returns (ok: bool, l: EdgeLabel)
      requires v0 in nodes && nodes[v0].Dummy?
      modifies this
      ensures ok <==> Walk(old(State()), v0, l0).Some?
      ensures ok ==> State() == Walk(old(State()), v0, l0).value.g && l == Walk(old(State()), v0, l0).value.l
    {
      var v := v0;
      var node := nodes[v];
      l := l0;
      ghost var target := Walk(State(), v, l);
      while node.Dummy?
        invariant v in nodes && nodes[v] == node
        invariant node.Dummy? ==> Walk(State(), v, l) == target
        invariant !node.Dummy? ==> target == Some(WalkEnd(State(), l))
        decreases |nodes|
      {
        var w := FirstSuccessor(v);
        RemoveNode(v);
        if l.points.None? || w.None? || w.value !in nodes {
          return false, l;
        }
        l := StepLabel(l, node);
        v := w.value;
        node := nodes[v];
      }
      ok := true;
    }

    /** `undo(g)`: every chain of `dummyChains` in turn. */
    method Undo() returns (ok: bool)
      modifies this
      ensures ok <==> UndoG(old(State())).Some?
      ensures ok ==> State() == UndoG(old(State())).value
    {
      var chains := dummyChains;
      ghost var target := UndoChainsG(State(), chains);
      var j := 0;
      ok := true;
      while j < |chains|
        invariant 0 <= j <= |chains|
        invariant UndoChainsG(State(), chains[j..]) == target
      {
        assert chains[j..][1..] == chains[j + 1..];
        ok := UndoChain(chains[j]);
        if !ok {
          return;
        }
        j := j + 1;
      }
    }
  }
}
