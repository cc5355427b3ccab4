/** What `run` builds over a whole graph, and what `undo` then gives back:
    `run` splits the edges one after another, so the graph it leaves holds
    one chain per split edge, over consecutive ids from the counter on; and
    `undo` on that graph (after later phases have set the dummies'
    positions) restores the original nodes and edge keys. */
module NormalizeRun {
  import opened Wrappers
  import opened Normalize

  // ---------------------------------------------------------------------------
  // The edges run splits
  // ---------------------------------------------------------------------------

  /** No node of `g` is a dummy: the graph `run` starts from. */
  predicate NoDummies(g: GraphState)
  {
    forall u | u in g.nodes :: !g.nodes[u].Dummy?
  }

  /** `normalizeEdge` splits `e` through at least one dummy. */
  predicate Splits(g: GraphState, e: Edge)
    requires e.v in g.nodes && e.w in g.nodes
  {
    DummyCount(g.nodes[e.v].rank, g.nodes[e.w].rank) > 0
  }

  /** The label `run` leaves on an edge it does not split: its own when the
      edge spans one rank, a fresh one holding only the weight otherwise. */
  function Settled(g: GraphState, e: Edge): EdgeLabel
    requires e in g.edges && e.v in g.nodes && e.w in g.nodes
  {
    if OneRank(g.nodes[e.v].rank, g.nodes[e.w].rank) then g.edges[e] else WeightOnly(g.edges[e])
  }

  /** The chain `normalizeEdge` makes for `e`, if it splits it. */
  function NewChains(g: GraphState, e: Edge): seq<Chain>
    requires e in g.edges && e.v in g.nodes && e.w in g.nodes
  {
    if Splits(g, e) then [ChainOf(g, e)] else []
  }

  /** The chains `normalizeEdge` makes for the edges `es` in turn. */
  function ChainsOf(g: GraphState, es: seq<Edge>): seq<Chain>
    requires Valid(g) && Fresh(g) && Distinct(es)
    requires forall i :: 0 <= i < |es| ==> es[i] in g.edges
    decreases |es|
  {
    if es == [] then []
    else
      var g' := NormalizeEdgeG(g, es[0]);
      NormalizeEdgeKeeps(g, es[0]);
      NewChains(g, es[0]) + ChainsOf(g', es[1..])
  }

  // ---------------------------------------------------------------------------
  // What run has built so far
  // ---------------------------------------------------------------------------

  /** `h` is `g0` with nodes added from `g0.counter` on, and nothing else
      about `g0`'s nodes changed. */
  ghost predicate RunGraph(g0: GraphState, h: GraphState)
  {
    && Valid(h) && Fresh(h) && g0.counter <= h.counter
    && Outside(h.nodes, g0.counter, h.counter) == g0.nodes
  }

  /** The chains `cs` are in place in `h` over those added ids, and
      `dummyChains` lists their first dummies. */
  ghost predicate RunChains(g0: GraphState, h: GraphState, cs: seq<Chain>)
  {
    h.dummyChains == Heads(cs) && ChainsIn(h, cs, g0.counter, h.counter)
  }

  /** Each chain of `cs` splits an edge of `g0` that is no longer to come,
      and starts from that edge's label with the dummy count of its ranks. */
  ghost predicate ChainsFor(g0: GraphState, cs: seq<Chain>, es: seq<Edge>)
  {
    forall i | 0 <= i < |cs| ::
      && cs[i].e in g0.edges && cs[i].e !in es
      && cs[i].e.v in g0.nodes && cs[i].e.w in g0.nodes
      && cs[i].lab == g0.edges[cs[i].e].(points := Some([]))
      && cs[i].n == DummyCount(g0.nodes[cs[i].e.v].rank, g0.nodes[cs[i].e.w].rank)
  }

  /** The edges still to come are in `h` as in `g0`. */
  ghost predicate ToCome(g0: GraphState, h: GraphState, es: seq<Edge>)
  {
    && Distinct(es)
    && (forall i | 0 <= i < |es| :: es[i] in g0.edges && es[i] in h.edges && h.edges[es[i]] == g0.edges[es[i]])
  }

  /** Every other edge of `g0` was split (and is gone) or carries its
      settled label. */
  ghost predicate Done(g0: GraphState, h: GraphState, cs: seq<Chain>, es: seq<Edge>)
    requires Valid(g0)
  {
    forall f | f in g0.edges && f !in es ::
      if Splits(g0, f) then f in EdgesOf(cs) && f !in h.edges
      else f in h.edges && h.edges[f] == Settled(g0, f)
  }

  /** Every edge of `h` between nodes of `g0` is an edge of `g0` that was
      not split. */
  ghost predicate Between(g0: GraphState, h: GraphState, cs: seq<Chain>)
  {
    forall f | f in h.edges && f.v < g0.counter && f.w < g0.counter :: f in g0.edges && f !in EdgesOf(cs)
  }

  ghost predicate RunEdges(g0: GraphState, h: GraphState, cs: seq<Chain>, es: seq<Edge>)
    requires Valid(g0)
  {
    ToCome(g0, h, es) && Done(g0, h, cs, es) && Between(g0, h, cs)
  }

  /** All of the above, for `run` from `g0` with `es` still to come. */
  ghost predicate RunSoFar(g0: GraphState, h: GraphState, cs: seq<Chain>, es: seq<Edge>)
  {
    && Valid(g0) && Fresh(g0) && NoDummies(g0)
    && RunGraph(g0, h) && RunChains(g0, h, cs) && ChainsFor(g0, cs, es) && RunEdges(g0, h, cs, es)
  }

  // ---------------------------------------------------------------------------
  // Sequence facts
  // ---------------------------------------------------------------------------

  lemma {:induction false} TilesSnoc(cs: seq<Chain>, lo: nat, hi: nat, c: Chain)
    requires Tiles(cs, lo, hi) && c.base == hi
    ensures Tiles(cs + [c], lo, hi + c.n)
    decreases |cs|
  {
    if cs == [] {
      assert ([] + [c])[1..] == [];
    } else {
      TilesSnoc(cs[1..], lo + cs[0].n, hi, c);
      assert (cs + [c])[1..] == cs[1..] + [c];
    }
  }

  lemma {:induction false} HeadsSnoc(cs: seq<Chain>, c: Chain)
    ensures Heads(cs + [c]) == Heads(cs) + [c.base]
    decreases |cs|
  {
    if cs == [] {
      assert ([] + [c])[1..] == [];
    } else {
      HeadsSnoc(cs[1..], c);
      assert (cs + [c])[1..] == cs[1..] + [c];
    }
  }

  lemma EdgesOfSnoc(cs: seq<Chain>, c: Chain)
    ensures forall f :: f in EdgesOf(cs + [c]) <==> f in EdgesOf(cs) || f == c.e
  {
    var es := EdgesOf(cs + [c]);
    forall f | f in es ensures f in EdgesOf(cs) || f == c.e {
      var i :| 0 <= i < |es| && es[i] == f;
      if i < |cs| { assert EdgesOf(cs)[i] == f; }
    }
    forall f | f in EdgesOf(cs) ensures f in es {
      var i :| 0 <= i < |cs| && EdgesOf(cs)[i] == f;
      assert es[i] == f;
    }
    assert es[|cs|] == c.e;
  }

  // ---------------------------------------------------------------------------
  // One edge split
  // ---------------------------------------------------------------------------

  /** Splitting an edge adds nodes only from the counter on. */
  lemma StepGraph(g0: GraphState, h: GraphState, c: Chain, r: GraphState)
    requires RunGraph(g0, h) && c.base == h.counter && c.e in h.edges
    requires Added(h, c, r)
    ensures RunGraph(g0, r)
  {
    AddedKeeps(h, c, r);
    assert Outside(r.nodes, g0.counter, r.counter) == Outside(h.nodes, g0.counter, h.counter);
  }

  /** A chain already in place stays in place when a later edge, between
      nodes below it, is split. */
  lemma OldChainKept(h: GraphState, c: Chain, d: Chain, r: GraphState, lo: nat)
    requires Valid(h) && Fresh(h) && c.base == h.counter && c.e in h.edges && Added(h, c, r)
    requires ChainIn(h, d) && lo <= d.base && d.base + d.n <= c.base
    requires c.e.v < lo && c.e.w < lo
    ensures ChainIn(r, d)
  {
    forall f | f in r.edges && InChain(d, f.v) ensures f.w == Dst(d, f.v + 1) && f.name == d.e.name {
      if !(f in h.edges && f != c.e) {
        assert IsSeg(c, f);
      }
    }
    forall j | d.base < j <= d.base + d.n ensures Segment(d, j) in r.edges {
      assert InChain(d, Src(d, j));
    }
  }

  /** The chain an edge is split into is in place afterwards. */
  lemma NewChainIn(h: GraphState, c: Chain, r: GraphState)
    requires Valid(h) && Fresh(h) && c.e in h.edges && c == ChainOf(h, c.e) && Added(h, c, r) && c.n > 0
    requires !h.nodes[c.e.w].Dummy?
    ensures ChainIn(r, c)
  {
    assert !InChain(c, c.e.v) && !InChain(c, c.e.w);
    forall f | f in r.edges && InChain(c, f.v) ensures f.w == Dst(c, f.v + 1) && f.name == c.e.name {
      assert f !in h.edges;
      assert IsSeg(c, f);
      var j := SegIdx(c, f);
      assert j != c.base;
      assert Src(c, j) == j - 1;
    }
    forall j | c.base < j <= c.base + c.n ensures Segment(c, j) in r.edges {
      assert SegIdx(c, Segment(c, j)) == j;
    }
  }

  /** A node of `g0` is in `h` with its label from `g0`. */
  lemma OldNode(g0: GraphState, h: GraphState, u: NodeId)
    requires RunGraph(g0, h) && u in g0.nodes
    ensures u in h.nodes && h.nodes[u] == g0.nodes[u]
  {
    assert u in Outside(h.nodes, g0.counter, h.counter);
  }

  /** Chains in place in `h` are in place in `r` once each one is. */
  lemma ChainsInMove(h: GraphState, r: GraphState, cs: seq<Chain>, lo: nat, hi: nat)
    requires ChainsIn(h, cs, lo, hi)
    requires forall i | 0 <= i < |cs| :: ChainIn(r, cs[i])
    ensures ChainsIn(r, cs, lo, hi)
  {
  }

  /** A further chain in place, right after the others, for another edge. */
  lemma ChainsInSnoc(r: GraphState, cs: seq<Chain>, c: Chain, lo: nat, hi: nat, hi': nat)
    requires ChainsIn(r, cs, lo, hi) && ChainIn(r, c) && c.base == hi && hi' == hi + c.n
    requires c.e.v < lo && c.e.w < lo && c.e !in EdgesOf(cs)
    ensures ChainsIn(r, cs + [c], lo, hi')
  {
    var cs' := cs + [c];
    TilesSnoc(cs, lo, hi, c);
    forall i | 0 <= i < |cs| ensures cs'[i] == cs[i] && cs[i].e != c.e {
      assert EdgesOf(cs)[i] == cs[i].e;
    }
    assert cs'[|cs|] == c;
  }

  /** Splitting an edge of `g0` keeps the chains so far in place. */
  lemma OldChainsKept(g0: GraphState, h: GraphState, cs: seq<Chain>, c: Chain, r: GraphState)
    requires Valid(g0) && Fresh(g0)
    requires Valid(h) && Fresh(h) && ChainsIn(h, cs, g0.counter, h.counter)
    requires c.e in g0.edges && c.e in h.edges && c.base == h.counter && Added(h, c, r)
    ensures ChainsIn(r, cs, g0.counter, h.counter)
  {
    TilesBounds(cs, g0.counter, h.counter);
    forall i | 0 <= i < |cs| ensures ChainIn(r, cs[i]) {
      OldChainKept(h, c, cs[i], r, g0.counter);
    }
    ChainsInMove(h, r, cs, g0.counter, h.counter);
  }

  /** Splitting an edge of `g0` through dummies adds its chain after the others. */
  lemma StepChainsSplit(g0: GraphState, h: GraphState, cs: seq<Chain>, c: Chain, r: GraphState)
    requires Valid(g0) && Fresh(g0) && NoDummies(g0)
    requires RunGraph(g0, h) && RunChains(g0, h, cs)
    requires c.e in g0.edges && c.e in h.edges && c == ChainOf(h, c.e) && Added(h, c, r) && c.n > 0
    requires c.e !in EdgesOf(cs)
    ensures RunChains(g0, r, cs + [c])
  {
    OldChainsKept(g0, h, cs, c, r);
    HeadsSnoc(cs, c);
    OldNode(g0, h, c.e.w);
    NewChainIn(h, c, r);
    assert r.counter == h.counter + c.n && r.dummyChains == h.dummyChains + [c.base];
    ChainsInSnoc(r, cs, c, g0.counter, h.counter, r.counter);
  }

  /** Replacing an edge of `g0` by its closing segment alone keeps the chains. */
  lemma StepChainsSame(g0: GraphState, h: GraphState, cs: seq<Chain>, c: Chain, r: GraphState)
    requires Valid(g0) && Fresh(g0)
    requires RunGraph(g0, h) && RunChains(g0, h, cs)
    requires c.e in g0.edges && c.e in h.edges && c.base == h.counter && Added(h, c, r) && c.n == 0
    ensures RunChains(g0, r, cs)
  {
    OldChainsKept(g0, h, cs, c, r);
  }

  /** No chain so far stands for an edge still to come. */
  lemma NotYetSplit(g0: GraphState, cs: seq<Chain>, es: seq<Edge>, e: Edge)
    requires ChainsFor(g0, cs, es) && e in es
    ensures e !in EdgesOf(cs)
  {
    forall i | 0 <= i < |cs| ensures EdgesOf(cs)[i] != e { }
  }

  /** Splitting the next edge keeps the edges after it as they were. */
  lemma StepToCome(g0: GraphState, h: GraphState, es: seq<Edge>, c: Chain, r: GraphState)
    requires ToCome(g0, h, es) && es != [] && c.e == es[0] && AddedEdges(h, c, r.edges)
    ensures ToCome(g0, r, es[1..])
  {
    var rest := es[1..];
    forall i | 0 <= i < |rest| ensures rest[i] in g0.edges && rest[i] in r.edges && r.edges[rest[i]] == g0.edges[rest[i]] {
      assert rest[i] == es[i + 1] && es[i + 1] != es[0];
    }
  }

  /** Splitting the next edge through dummies: it is gone, and its chain
      stands for it. */
  lemma StepDoneSplit(g0: GraphState, h: GraphState, cs: seq<Chain>, es: seq<Edge>, c: Chain, r: GraphState)
    requires Valid(g0) && Fresh(g0) && RunGraph(g0, h) && Done(g0, h, cs, es)
    requires es != [] && es[0] in g0.edges && es[0] in h.edges && c == ChainOf(h, es[0])
    requires AddedEdges(h, c, r.edges) && c.n > 0
    ensures Done(g0, r, cs + [c], es[1..])
  {
    var e := es[0];
    OldNode(g0, h, e.v);
    OldNode(g0, h, e.w);
    EdgesOfSnoc(cs, c);
    assert !InChain(c, e.w) && e.v < c.base;
    assert !IsSeg(c, e);
    forall f | f in g0.edges && f !in es[1..] && f != e ensures f !in es { }
  }

  /** Splitting the next edge through dummies adds no edge between nodes of `g0`. */
  lemma StepBetweenSplit(g0: GraphState, h: GraphState, cs: seq<Chain>, c: Chain, r: GraphState)
    requires Between(g0, h, cs) && g0.counter <= c.base && c.n > 0 && AddedEdges(h, c, r.edges)
    ensures Between(g0, r, cs + [c])
  {
    EdgesOfSnoc(cs, c);
    forall f | f in r.edges && f.v < g0.counter && f.w < g0.counter ensures f in h.edges && f != c.e { }
  }

  /** Replacing the next edge by its closing segment alone leaves it under
      a label holding only its weight. */
  lemma StepDoneSame(g0: GraphState, h: GraphState, cs: seq<Chain>, es: seq<Edge>, c: Chain, r: GraphState)
    requires Valid(g0) && Fresh(g0) && RunGraph(g0, h) && Done(g0, h, cs, es)
    requires es != [] && es[0] in g0.edges && es[0] in h.edges && h.edges[es[0]] == g0.edges[es[0]]
    requires c == ChainOf(h, es[0]) && AddedEdges(h, c, r.edges) && c.n == 0
    requires !OneRank(h.nodes[es[0].v].rank, h.nodes[es[0].w].rank)
    ensures Done(g0, r, cs, es[1..])
  {
    var e := es[0];
    OldNode(g0, h, e.v);
    OldNode(g0, h, e.w);
    assert IsSeg(c, e);
    forall f | f in g0.edges && f !in es[1..] && f != e ensures f !in es { }
  }

  /** Replacing the next edge by its closing segment alone adds only that edge. */
  lemma StepBetweenSame(g0: GraphState, h: GraphState, cs: seq<Chain>, es: seq<Edge>, c: Chain, r: GraphState)
    requires Between(g0, h, cs) && ChainsFor(g0, cs, es) && es != [] && es[0] in g0.edges
    requires c.e == es[0] && c.n == 0 && AddedEdges(h, c, r.edges)
    ensures Between(g0, r, cs)
  {
    NotYetSplit(g0, cs, es, c.e);
  }

  /** The edges after the next one are still to come. */
  lemma ToComeTail(g0: GraphState, h: GraphState, es: seq<Edge>)
    requires ToCome(g0, h, es) && es != []
    ensures ToCome(g0, h, es[1..])
  {
    var rest := es[1..];
    forall i | 0 <= i < |rest| ensures rest[i] in g0.edges && rest[i] in h.edges && h.edges[rest[i]] == g0.edges[rest[i]] {
      assert rest[i] == es[i + 1];
    }
  }

  /** An edge that spans one rank keeps its label and settles. */
  lemma StepDoneKeep(g0: GraphState, h: GraphState, cs: seq<Chain>, es: seq<Edge>)
    requires Valid(g0) && Fresh(g0) && RunGraph(g0, h) && Done(g0, h, cs, es)
    requires es != [] && es[0] in g0.edges && es[0] in h.edges && h.edges[es[0]] == g0.edges[es[0]]
    requires OneRank(h.nodes[es[0].v].rank, h.nodes[es[0].w].rank)
    ensures Done(g0, h, cs, es[1..])
  {
    var e := es[0];
    OldNode(g0, h, e.v);
    OldNode(g0, h, e.w);
    forall f | f in g0.edges && f !in es[1..] && f != e ensures f !in es { }
  }

  /** The chains so far stand for edges that are not to come. */
  lemma ChainsForTail(g0: GraphState, cs: seq<Chain>, es: seq<Edge>)
    requires ChainsFor(g0, cs, es) && es != []
    ensures ChainsFor(g0, cs, es[1..])
  {
    forall f | f in es[1..] ensures f in es { }
  }

  /** The chain of the next edge stands for it. */
  lemma ChainsForSnoc(g0: GraphState, h: GraphState, cs: seq<Chain>, es: seq<Edge>, c: Chain)
    requires Valid(g0) && RunGraph(g0, h) && ChainsFor(g0, cs, es) && ToCome(g0, h, es) && es != []
    requires c == ChainOf(h, es[0])
    ensures ChainsFor(g0, cs + [c], es[1..])
  {
    var e := es[0];
    ChainsForTail(g0, cs, es);
    OldNode(g0, h, e.v);
    OldNode(g0, h, e.w);
    assert e !in es[1..] by {
      forall i | 0 <= i < |es[1..]| ensures es[1..][i] != e { assert es[1..][i] == es[i + 1]; }
    }
    var cs' := cs + [c];
    forall i | 0 <= i < |cs| ensures cs'[i] == cs[i] { }
    assert cs'[|cs|] == c;
  }

  // ---------------------------------------------------------------------------
  // run, edge by edge
  // ---------------------------------------------------------------------------

  /** An edge that spans one rank is left as it is. */
  lemma RunStepKeep(g0: GraphState, h: GraphState, cs: seq<Chain>, es: seq<Edge>)
    requires RunSoFar(g0, h, cs, es) && es != []
    requires OneRank(h.nodes[es[0].v].rank, h.nodes[es[0].w].rank)
    ensures RunSoFar(g0, h, cs, es[1..])
  {
    ToComeTail(g0, h, es);
    StepDoneKeep(g0, h, cs, es);
    ChainsForTail(g0, cs, es);
  }

  /** An edge split through dummies adds its chain. */
  lemma RunStepSplit(g0: GraphState, h: GraphState, cs: seq<Chain>, es: seq<Edge>, c: Chain, r: GraphState)
    requires RunSoFar(g0, h, cs, es) && es != []
    requires c == ChainOf(h, es[0]) && Added(h, c, r) && c.n > 0
    ensures RunSoFar(g0, r, cs + [c], es[1..])
  {
    var e := es[0];
    StepGraph(g0, h, c, r);
    StepToCome(g0, h, es, c, r);
    NotYetSplit(g0, cs, es, e);
    StepChainsSplit(g0, h, cs, c, r);
    StepDoneSplit(g0, h, cs, es, c, r);
    StepBetweenSplit(g0, h, cs, c, r);
    ChainsForSnoc(g0, h, cs, es, c);
  }

  /** An edge with no dummy between its ends gets a fresh label. */
  lemma RunStepSame(g0: GraphState, h: GraphState, cs: seq<Chain>, es: seq<Edge>, c: Chain, r: GraphState)
    requires RunSoFar(g0, h, cs, es) && es != []
    requires !OneRank(h.nodes[es[0].v].rank, h.nodes[es[0].w].rank)
    requires c == ChainOf(h, es[0]) && Added(h, c, r) && c.n == 0
    ensures RunSoFar(g0, r, cs, es[1..])
  {
    StepGraph(g0, h, c, r);
    StepToCome(g0, h, es, c, r);
    StepChainsSame(g0, h, cs, c, r);
    StepDoneSame(g0, h, cs, es, c, r);
    StepBetweenSame(g0, h, cs, es, c, r);
    ChainsForTail(g0, cs, es);
  }

  /** `normalizeEdge` on the next edge keeps the picture of what `run` has built. */
  lemma RunStep(g0: GraphState, h: GraphState, cs: seq<Chain>, es: seq<Edge>)
    requires RunSoFar(g0, h, cs, es) && es != []
    ensures es[0] in h.edges
    ensures RunSoFar(g0, NormalizeEdgeG(h, es[0]), cs + NewChains(h, es[0]), es[1..])
  {
    var e := es[0];
    if OneRank(h.nodes[e.v].rank, h.nodes[e.w].rank) {
      RunStepKeep(g0, h, cs, es);
      assert cs + [] == cs;
    } else {
      var c := ChainOf(h, e);
      NormalizeEdgeAdded(h, e);
      if c.n > 0 {
        RunStepSplit(g0, h, cs, es, c, NormalizeEdgeG(h, e));
      } else {
        RunStepSame(g0, h, cs, es, c, NormalizeEdgeG(h, e));
        assert cs + [] == cs;
      }
    }
  }
}
