/** Runs over graphs without cycles. */
module GraphAcyclic {
  import opened Common
  import opened GraphModel
  import opened GraphTheorems

  /** Every edge, guarded or not, leads to a node of higher rank. */
  ghost predicate Ranked(g: Graph, rank: Id -> int) {
    forall u, e :: e in EdgesFrom(g, u) ==> rank(u) < rank(e.to)
  }

  lemma EdgeRaisesRank(g: Graph, rank: Id -> int, u: Id, v: Id)
    requires Ranked(g, rank) && HasEdge(g, u, v)
    ensures rank(u) < rank(v)
  {
  }

  ghost predicate Climbs(ids: seq<Visit>, rank: Id -> int) {
    forall i, j :: 0 <= i < j < |ids| ==> rank(ids[i].id) < rank(ids[j].id)
  }

  lemma {:induction false} PathClimbs(g: Graph, rank: Id -> int, path: seq<Id>)
    requires Ranked(g, rank)
    requires forall i, k :: 0 <= i < |path| && k == i + 1 < |path| ==> HasEdge(g, path[i], path[k])
    ensures forall i, j :: 0 <= i < j < |path| ==> rank(path[i]) < rank(path[j])
  {
    if |path| > 1 {
      var last := |path| - 1;
      PathClimbs(g, rank, path[..last]);
      EdgeRaisesRank(g, rank, path[last - 1], path[last]);
    }
  }

  lemma {:induction false} VisitsClimb(g: Graph, rank: Id -> int, visits: seq<Visit>)
    requires Ranked(g, rank)
    requires forall i, k :: 0 <= i < |visits| && k == i + 1 < |visits| ==> HasEdge(g, visits[i].id, visits[k].id)
    ensures Climbs(visits, rank)
  {
    if |visits| > 1 {
      var last := |visits| - 1;
      VisitsClimb(g, rank, visits[..last]);
      EdgeRaisesRank(g, rank, visits[last - 1].id, visits[last].id);
    }
  }

  ghost predicate EndsWithoutLoop(outcome: Outcome) {
    !outcome.CycleDetected? && !outcome.MaxIterationsExceeded?
  }

  /** No edge from the current node leads back onto the stack. */
  lemma NoEdgeBack(g: Graph, rank: Id -> int, w: Walk, e: Edge)
    requires Ranked(g, rank) && StackIsWalk(g, w)
    requires e in EdgesFrom(g, w.current)
    ensures e.to !in w.path
  {
    PathClimbs(g, rank, w.path);
  }

  /** Every completed run, including that of the turn the walk ends in. */
  ghost predicate Chained(g: Graph, input: Data, visits: seq<Visit>) {
    && (visits != [] ==> visits[0].id == g.start && visits[0].input == input)
    && (forall i, k :: 0 <= i < |visits| && k == i + 1 < |visits| ==>
          && HasEdge(g, visits[i].id, visits[k].id)
          && visits[k].input == visits[i].output)
  }

  lemma LastRunChained(g: Graph, input: Data, w: Walk, out: Data)
    requires RunsAreChained(g, input, w)
    ensures Chained(g, input, w.visits + [Visit(w.current, w.input, out)])
  {
  }

  lemma HaltingTurnChained(g: Graph, cancelled: nat -> bool, input: Data, w: Walk)
    requires StackIsWalk(g, w) && RunsAreChained(g, input, w)
    requires Turn(g, cancelled, w).Halted?
    ensures Chained(g, input, Turn(g, cancelled, w).visits)
  {
    var visits := Turn(g, cancelled, w).visits;
    if visits != w.visits {
      assert visits[..|w.visits|] == w.visits;
      LastRunChained(g, input, w, visits[|w.visits|].output);
    }
  }

  /** Holds of any graph: each run follows an edge from the run before and receives its output. */
  lemma {:induction false} HaltedVisitsChained(g: Graph, cancelled: nat -> bool, input: Data, n: nat)
    requires After(g, cancelled, input, n).Halted?
    ensures Chained(g, input, After(g, cancelled, input, n).visits)
  {
    if n > 0 {
      match After(g, cancelled, input, n - 1)
      case Halted(_, _) => HaltedVisitsChained(g, cancelled, input, n - 1);
      case Running(w) =>
        InvariantHolds(g, cancelled, input, n - 1);
        HaltingTurnChained(g, cancelled, input, w);
    }
  }

  lemma AcyclicTurn(g: Graph, rank: Id -> int, cancelled: nat -> bool, w: Walk)
    requires Ranked(g, rank) && StackIsWalk(g, w)
    requires Turn(g, cancelled, w).Halted?
    ensures EndsWithoutLoop(Turn(g, cancelled, w).outcome)
  {
    var n := |w.visits|;
    if !cancelled(n) && w.current in g.nodes && g.nodes[w.current](n, w.input).Ok? {
      var out := g.nodes[w.current](n, w.input).value;
      FirstEdgeMember(EdgesFrom(g, w.current), n, out);
      match FirstEdge(EdgesFrom(g, w.current), n, out)
      case None =>
      case Some(e) => NoEdgeBack(g, rank, w, e);
    }
  }

  lemma {:induction false} AcyclicHalt(g: Graph, rank: Id -> int, cancelled: nat -> bool, input: Data, n: nat)
    requires Ranked(g, rank)
    requires After(g, cancelled, input, n).Halted?
    ensures EndsWithoutLoop(After(g, cancelled, input, n).outcome)
  {
    if n > 0 {
      match After(g, cancelled, input, n - 1)
      case Halted(_, _) => AcyclicHalt(g, rank, cancelled, input, n - 1);
      case Running(w) =>
        InvariantHolds(g, cancelled, input, n - 1);
        AcyclicTurn(g, rank, cancelled, w);
    }
  }

  /**
   * On an acyclic graph a run climbs the ranks, so no node runs twice; each run receives its
   * predecessor's output; and neither cycle error is ever returned, whatever guards and limits say.
   */
  lemma AcyclicRunsAreSafe(g: Graph, rank: Id -> int, cancelled: nat -> bool, input: Data)
    requires Ranked(g, rank)
    ensures var p := After(g, cancelled, input, RunBound(g));
            && p.Halted?
            && EndsWithoutLoop(p.outcome)
            && Chained(g, input, p.visits)
            && Climbs(p.visits, rank)
            && (forall i, j :: 0 <= i < j < |p.visits| ==> p.visits[i].id != p.visits[j].id)
  {
    Termination(g, cancelled, input);
    AcyclicHalt(g, rank, cancelled, input, RunBound(g));
    HaltedVisitsChained(g, cancelled, input, RunBound(g));
    VisitsClimb(g, rank, After(g, cancelled, input, RunBound(g)).visits);
  }
}
