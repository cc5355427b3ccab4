/** The round trip of the normalize phase: `run`, then any later phase that
    only repositions dummy nodes, then `undo`. */
module NormalizeTheorem {
  import opened Wrappers
  import opened Normalize
  import opened NormalizeRun

  /** `run` over a non-empty list is the first edge's `normalizeEdge`, then
      the rest's, with its chain (if any) first. */
  lemma RunUnfold(h: GraphState, es: seq<Edge>)
    requires Valid(h) && Fresh(h) && Distinct(es) && es != []
    requires forall i :: 0 <= i < |es| ==> es[i] in h.edges
    ensures var h1 := NormalizeEdgeG(h, es[0]);
            && Valid(h1) && Fresh(h1) && Distinct(es[1..])
            && (forall i :: 0 <= i < |es[1..]| ==> es[1..][i] in h1.edges)
            && NormalizeAll(h, es) == NormalizeAll(h1, es[1..])
            && ChainsOf(h, es) == NewChains(h, es[0]) + ChainsOf(h1, es[1..])
  {
    NormalizeEdgeKeeps(h, es[0]);
    var rest := es[1..];
    forall i | 0 <= i < |rest| ensures rest[i] in NormalizeEdgeG(h, es[0]).edges {
      assert rest[i] == es[i + 1] && es[i + 1] != es[0];
    }
  }

  lemma ConcatAssoc(a: seq<Chain>, b: seq<Chain>, c: seq<Chain>)
    ensures (a + b) + c == a + (b + c)
  {}

  lemma ConcatNil(a: seq<Chain>)
    ensures [] + a == a
  {}

  /** `normalizeEdge` on each edge still to come keeps the picture; at the
      end (`R` and `CS`) the chains are those of every split edge. */
  lemma {:induction false} RunAll(g0: GraphState, h: GraphState, cs: seq<Chain>, es: seq<Edge>,
                                  R: GraphState, CS: seq<Chain>)
    requires RunSoFar(g0, h, cs, es)
    requires Valid(h) && Fresh(h) && Distinct(es) && forall i :: 0 <= i < |es| ==> es[i] in h.edges
    requires R == NormalizeAll(h, es) && CS == cs + ChainsOf(h, es)
    ensures RunSoFar(g0, R, CS, [])
    decreases |es|
  {
    if es == [] {
      assert CS == cs;
    } else {
      RunStep(g0, h, cs, es);
      RunUnfold(h, es);
      var h1 := NormalizeEdgeG(h, es[0]);
      ConcatAssoc(cs, NewChains(h, es[0]), ChainsOf(h1, es[1..]));
      RunAll(g0, h1, cs + NewChains(h, es[0]), es[1..], R, CS);
    }
  }

  // ---------------------------------------------------------------------------
  // The first state and the last
  // ---------------------------------------------------------------------------

  /** Before the first edge: nothing split, every edge still to come. */
  lemma RunStart(g0: GraphState, es: seq<Edge>)
    requires Valid(g0) && Fresh(g0) && NoDummies(g0) && g0.dummyChains == []
    requires Enumerates(es, g0.edges)
    ensures RunSoFar(g0, g0, [], es)
  {
    assert Outside(g0.nodes, g0.counter, g0.counter) == g0.nodes;
  }

  /** The chains `run` made split exactly the edges of `g0` that span more
      than one rank. */
  lemma ChainsSplit(g0: GraphState, R: GraphState, CS: seq<Chain>)
    requires RunSoFar(g0, R, CS, [])
    ensures forall f :: f in EdgesOf(CS) <==> f in g0.edges && Splits(g0, f)
  {
    forall f | f in EdgesOf(CS) ensures f in g0.edges && Splits(g0, f) {
      var i :| 0 <= i < |CS| && EdgesOf(CS)[i] == f;
      assert ChainIn(R, CS[i]);
    }
  }

  /** After `run`, the edges of `R` touching no dummy are the unsplit edges
      of `g0`, under their settled labels. */
  lemma UntouchedAfterRun(g0: GraphState, R: GraphState, CS: seq<Chain>)
    requires RunSoFar(g0, R, CS, [])
    ensures forall f :: f in Untouched(R.edges, g0.counter, R.counter) <==> f in g0.edges && !Splits(g0, f)
    ensures forall f | f in g0.edges && !Splits(g0, f) :: Untouched(R.edges, g0.counter, R.counter)[f] == Settled(g0, f)
  {
    ChainsSplit(g0, R, CS);
    var lo, hi := g0.counter, R.counter;
    forall f | f in Untouched(R.edges, lo, hi) ensures f in g0.edges && !Splits(g0, f) {
      assert f.v in R.nodes && f.w in R.nodes;
    }
    forall f | f in g0.edges && !Splits(g0, f) ensures f in Untouched(R.edges, lo, hi) {
      assert f.v in g0.nodes && f.w in g0.nodes;
    }
  }

  // ---------------------------------------------------------------------------
  // The phases between run and undo
  // ---------------------------------------------------------------------------

  /** `b` is `a`, except that a dummy may have been given a position. */
  predicate Repositioned(a: NodeLabel, b: NodeLabel)
  {
    if a.Dummy? then b.Dummy? && b == a.(x := b.x, y := b.y) else b == a
  }

  /** `h` is `r` after phases that only position its dummies. */
  predicate Moved(r: GraphState, h: GraphState)
  {
    && h.edges == r.edges && h.dummyChains == r.dummyChains && h.counter == r.counter
    && h.nodes.Keys == r.nodes.Keys
    && forall u | u in r.nodes :: Repositioned(r.nodes[u], h.nodes[u])
  }

  /** Positioning the dummies leaves a chain in place. */
  lemma ChainInMoved(r: GraphState, h: GraphState, c: Chain)
    requires ChainIn(r, c) && Moved(r, h)
    ensures ChainIn(h, c)
  {
    assert c.e.v in r.nodes && c.e.w in r.nodes && c.base in r.nodes;
  }

  lemma ChainsInMoved(r: GraphState, h: GraphState, cs: seq<Chain>, lo: nat, hi: nat)
    requires ChainsIn(r, cs, lo, hi) && Moved(r, h)
    ensures ChainsIn(h, cs, lo, hi)
  {
    forall i | 0 <= i < |cs| ensures ChainIn(h, cs[i]) {
      ChainInMoved(r, h, cs[i]);
    }
  }

  /** Positioning the dummies leaves the nodes outside `run`'s ids as they
      were, since none of them is a dummy. */
  lemma OutsideMoved(g0: GraphState, r: GraphState, h: GraphState)
    requires RunGraph(g0, r) && NoDummies(g0) && Moved(r, h)
    ensures Outside(h.nodes, g0.counter, h.counter) == g0.nodes
  {
    forall u | u in g0.nodes ensures u in r.nodes && !(g0.counter <= u < r.counter) && h.nodes[u] == g0.nodes[u] {
      assert u in Outside(r.nodes, g0.counter, r.counter);
    }
  }

  /** Every label of `ds` is a dummy's. */
  predicate AllDummies(ds: seq<NodeLabel>)
  {
    forall j | 0 <= j < |ds| :: ds[j].Dummy?
  }

  /** The label `undo` rebuilds along a chain in place: the dummies'
      positions in order as `points`, and the chain's weight, label rank and
      label position. */
  lemma RebuiltAlong(h: GraphState, c: Chain)
    requires ChainIn(h, c)
    ensures AllDummies(ChainLabels(h, c))
    ensures Rebuilt(h, c).points == Some(Positions(ChainLabels(h, c), 0))
    ensures Rebuilt(h, c).weight == c.lab.weight && Rebuilt(h, c).labelRank == c.lab.labelRank
    ensures Rebuilt(h, c).labelpos == c.lab.labelpos
  {
    var ds := ChainLabels(h, c);
    forall j | 0 <= j < |ds| ensures ds[j].Dummy? {
      assert InChain(c, c.base + j);
    }
    FoldPoints(ds, 0, c.lab);
    assert c.lab.points.value + Positions(ds, 0) == Positions(ds, 0);
  }

  // ---------------------------------------------------------------------------
  // undo after run
  // ---------------------------------------------------------------------------

  /** `undo` on the graph `run` left (dummies positioned) undoes every chain. */
  lemma UndoAfterRun(g0: GraphState, R: GraphState, CS: seq<Chain>, h: GraphState)
    requires RunSoFar(g0, R, CS, []) && Moved(R, h)
    ensures UndoG(h) == Some(UndoneAll(h, CS, g0.counter, h.counter))
  {
    ChainsInMoved(R, h, CS, g0.counter, R.counter);
    UndoChainsAll(h, CS, g0.counter, h.counter);
  }

  /** What that leaves: the nodes of `g0`, the edges of `g0`, each unsplit one
      under its settled label and each split one, which has its chain in
      place in `h`, under the label rebuilt along that chain. */
  lemma UndoneAfterRun(g0: GraphState, R: GraphState, CS: seq<Chain>, h: GraphState, U: GraphState)
    requires RunSoFar(g0, R, CS, []) && Moved(R, h)
    requires U == UndoneAll(h, CS, g0.counter, h.counter)
    ensures Valid(g0) && U.nodes == g0.nodes
    ensures forall f :: f in U.edges <==> f in g0.edges
    ensures forall f :: f in EdgesOf(CS) <==> f in g0.edges && Splits(g0, f)
    ensures forall f | f in g0.edges && !Splits(g0, f) :: U.edges[f] == Settled(g0, f)
    ensures forall i | 0 <= i < |CS| ::
      && ChainIn(h, CS[i]) && CS[i].e in g0.edges && CS[i].lab == g0.edges[CS[i].e].(points := Some([]))
      && U.edges[CS[i].e] == Rebuilt(h, CS[i])
  {
    OutsideMoved(g0, R, h);
    UntouchedAfterRun(g0, R, CS);
    ChainsSplit(g0, R, CS);
    ChainsInMoved(R, h, CS, g0.counter, R.counter);
    RebuiltMapKeys(h, CS);
    forall i | 0 <= i < |CS| ensures U.edges[CS[i].e] == Rebuilt(h, CS[i]) {
      RebuiltMapAt(h, CS, i);
    }
    forall f | f in g0.edges && !Splits(g0, f) ensures U.edges[f] == Settled(g0, f) {
      assert f !in RebuiltMap(h, CS);
    }
  }

  /** The chains `cs` stand for exactly the edges of `g` spanning more than
      one rank. */
  ghost predicate SplitsExactly(g: GraphState, cs: seq<Chain>)
    requires Valid(g)
  {
    forall f :: f in EdgesOf(cs) <==> f in g.edges && Splits(g, f)
  }

  /** `u` has the nodes and edges of `g`, and each edge not split has the
      label `run` settled on it. */
  ghost predicate RestoredGraph(g: GraphState, u: GraphState)
    requires Valid(g)
  {
    && u.nodes == g.nodes
    && (forall f :: f in u.edges <==> f in g.edges)
    && (forall f | f in g.edges && !Splits(g, f) :: f in u.edges && u.edges[f] == Settled(g, f))
  }

  /** Each edge of `g` split into a chain of `cs` is in `u` with its weight,
      label rank and label position back, and with the positions of the
      chain's dummies in `h`, in order, as its `points`. */
  ghost predicate RestoredChains(g: GraphState, h: GraphState, cs: seq<Chain>, u: GraphState)
  {
    forall i | 0 <= i < |cs| ::
      && cs[i].e in g.edges && cs[i].e in u.edges
      && AllDummies(ChainLabels(h, cs[i]))
      && u.edges[cs[i].e].points == Some(Positions(ChainLabels(h, cs[i]), 0))
      && u.edges[cs[i].e].weight == g.edges[cs[i].e].weight
      && u.edges[cs[i].e].labelRank == g.edges[cs[i].e].labelRank
      && u.edges[cs[i].e].labelpos == g.edges[cs[i].e].labelpos
  }

  /** One split edge, back from its chain. */
  lemma ChainRestored(g0: GraphState, h: GraphState, c: Chain, u: GraphState)
    requires ChainIn(h, c) && c.e in g0.edges && c.lab == g0.edges[c.e].(points := Some([]))
    requires c.e in u.edges && u.edges[c.e] == Rebuilt(h, c)
    ensures AllDummies(ChainLabels(h, c))
    ensures u.edges[c.e].points == Some(Positions(ChainLabels(h, c), 0))
    ensures u.edges[c.e].weight == g0.edges[c.e].weight
    ensures u.edges[c.e].labelRank == g0.edges[c.e].labelRank
    ensures u.edges[c.e].labelpos == g0.edges[c.e].labelpos
  {
    RebuiltAlong(h, c);
  }

  /** The facts `UndoneAfterRun` gives, about `g0`, are the restored
      graph and chains of `g`, which has the same nodes and edges. */
  lemma Restore(g: GraphState, g0: GraphState, h: GraphState, CS: seq<Chain>, U: GraphState)
    requires Valid(g0) && g.nodes == g0.nodes && g.edges == g0.edges
    requires U.nodes == g0.nodes
    requires forall f :: f in U.edges <==> f in g0.edges
    requires forall f :: f in EdgesOf(CS) <==> f in g0.edges && Splits(g0, f)
    requires forall f | f in g0.edges && !Splits(g0, f) :: U.edges[f] == Settled(g0, f)
    requires forall i | 0 <= i < |CS| ::
      && ChainIn(h, CS[i]) && CS[i].e in g0.edges && CS[i].lab == g0.edges[CS[i].e].(points := Some([]))
      && U.edges[CS[i].e] == Rebuilt(h, CS[i])
    ensures Valid(g) && SplitsExactly(g, CS) && RestoredGraph(g, U) && RestoredChains(g, h, CS, U)
  {
    forall i | 0 <= i < |CS|
      ensures && CS[i].e in g.edges && CS[i].e in U.edges
              && AllDummies(ChainLabels(h, CS[i]))
              && U.edges[CS[i].e].points == Some(Positions(ChainLabels(h, CS[i]), 0))
              && U.edges[CS[i].e].weight == g.edges[CS[i].e].weight
              && U.edges[CS[i].e].labelRank == g.edges[CS[i].e].labelRank
              && U.edges[CS[i].e].labelpos == g.edges[CS[i].e].labelpos
    {
      ChainRestored(g, h, CS[i], U);
    }
  }

  /** The round trip: `run` on a graph without dummies, then phases that
      only position the dummies, then `undo`. `run` records in
      `dummyChains` one chain per edge spanning more than one rank, and
      `undo` succeeds and gives the graph's nodes and edges back. */
  lemma RunThenUndo(g: GraphState, es: seq<Edge>, h: GraphState)
    requires Valid(g) && Fresh(g) && NoDummies(g) && Enumerates(es, g.edges)
    requires Moved(RunG(g, es), h)
    ensures var cs := ChainsOf(g.(dummyChains := []), es);
      && RunG(g, es).dummyChains == Heads(cs) && SplitsExactly(g, cs)
      && UndoG(h).Some? && RestoredGraph(g, UndoG(h).value) && RestoredChains(g, h, cs, UndoG(h).value)
  {
    var g0 := g.(dummyChains := []);
    var R, CS := RunG(g, es), ChainsOf(g0, es);
    RunStart(g0, es);
    ConcatNil(CS);
    RunAll(g0, g0, [], es, R, CS);
    UndoAfterRun(g0, R, CS, h);
    var U := UndoneAll(h, CS, g0.counter, h.counter);
    UndoneAfterRun(g0, R, CS, h, U);
    Restore(g, g0, h, CS, U);
  }
}
