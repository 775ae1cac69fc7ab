/** What every run of the graph engine keeps, and how long it can be. */
module GraphTheorems {
  import opened Common
  import opened GraphModel

  ghost function Ids(visits: seq<Visit>): seq<Id> {
    seq(|visits|, i requires 0 <= i < |visits| => visits[i].id)
  }

  lemma IdsExtend(visits: seq<Visit>, v: Visit)
    ensures Ids(visits + [v]) == Ids(visits) + [v.id]
  {
  }

  /** The stack is a repetition-free walk along edges from the start to the current node. */
  ghost predicate StackIsWalk(g: Graph, w: Walk) {
    && w.path != []
    && w.path[0] == g.start
    && w.path[|w.path| - 1] == w.current
    && NoDuplicates(w.path)
    && (forall u :: u in w.path ==> u in g.nodes)
    && (forall i, k :: 0 <= i < |w.path| && k == i + 1 < |w.path| ==> HasEdge(g, w.path[i], w.path[k]))
  }

  /** Consecutive runs follow edges, and each node receives what its predecessor produced. */
  ghost predicate RunsAreChained(g: Graph, input: Data, w: Walk) {
    && (forall i, k :: 0 <= i < |w.visits| && k == i + 1 < |w.visits| ==>
          && HasEdge(g, w.visits[i].id, w.visits[k].id)
          && w.visits[k].input == w.visits[i].output)
    && (w.visits == [] ==> w.current == g.start && w.input == input)
    && (w.visits != [] ==>
          && w.visits[0].id == g.start
          && w.visits[0].input == input
          && HasEdge(g, w.visits[|w.visits| - 1].id, w.current)
          && w.input == w.visits[|w.visits| - 1].output)
  }

  /** Every loop-back taken was on an edge of the graph and within the largest limit for its hop. */
  ghost predicate LoopsAreWithinLimits(g: Graph, w: Walk) {
    && (forall h :: h in w.loops ==> h in Hops(g))
    && (forall h :: Count(w.loops, h) <= HopLimit(g, h))
  }

  ghost predicate Invariant(g: Graph, input: Data, n: nat, w: Walk) {
    && StackIsWalk(g, w)
    && RunsAreChained(g, input, w)
    && LoopsAreWithinLimits(g, w)
    && n == |w.visits|
    && n < |g.nodes| * |w.loops| + |w.path|
  }

  lemma {:induction false} CountBelowKeyCount(loops: seq<Hop>, h: Hop)
    ensures Count(loops, h) <= KeyCount(loops, LoopKey(h))
  {
    if loops != [] {
      CountBelowKeyCount(loops[..|loops| - 1], h);
    }
  }

  lemma StackFits(g: Graph, w: Walk)
    requires StackIsWalk(g, w)
    ensures |w.path| <= |g.nodes|
  {
    NoDuplicatesFits(w.path, g.nodes.Keys);
  }

  lemma EdgeHop(g: Graph, u: Id, e: Edge)
    requires e in EdgesFrom(g, u)
    ensures Hop(u, e.to) in Hops(g) && HasEdge(g, u, e.to)
    ensures e.maxIterations <= HopLimit(g, Hop(u, e.to))
  {
    var i :| 0 <= i < |g.edges[u]| && g.edges[u][i] == e;
    assert Hop(u, g.edges[u][i].to) in Hops(g);
    LimitBelowLargest(EdgesFrom(g, u), e);
  }

  /** Taking a loop-back keeps every hop within its limit. */
  lemma LoopStaysWithinLimits(g: Graph, w: Walk, e: Edge)
    requires LoopsAreWithinLimits(g, w)
    requires e in EdgesFrom(g, w.current)
    requires KeyCount(w.loops, LoopKey(Hop(w.current, e.to))) + 1 <= e.maxIterations
    ensures LoopsAreWithinLimits(g, w.(loops := w.loops + [Hop(w.current, e.to)]))
  {
    var hop := Hop(w.current, e.to);
    var loops := w.loops + [hop];
    EdgeHop(g, w.current, e);
    CountBelowKeyCount(w.loops, hop);
    assert loops[..|loops| - 1] == w.loops;
    forall h ensures Count(loops, h) <= HopLimit(g, h) {
      assert Count(loops, h) == Count(w.loops, h) + if h == hop then 1 else 0;
    }
  }

  lemma FollowKeepsStack(g: Graph, w: Walk, e: Edge, out: Data)
    requires StackIsWalk(g, w)
    requires e in EdgesFrom(g, w.current)
    ensures Follow(g, w, e, out).Running? ==> StackIsWalk(g, Follow(g, w, e, out).walk)
  {
    EdgeHop(g, w.current, e);
  }

  lemma RunExtendsChain(g: Graph, input: Data, w: Walk, w': Walk)
    requires RunsAreChained(g, input, w)
    requires |w'.visits| == |w.visits| + 1 && w'.visits[..|w.visits|] == w.visits
    requires w'.visits[|w.visits|] == Visit(w.current, w.input, w'.input) && HasEdge(g, w.current, w'.current)
    ensures RunsAreChained(g, input, w')
  {
    forall i, k | 0 <= i < |w'.visits| && k == i + 1 < |w'.visits|
      ensures HasEdge(g, w'.visits[i].id, w'.visits[k].id) && w'.visits[k].input == w'.visits[i].output
    {
      assert w'.visits[i] == w.visits[i];
    }
  }

  lemma FollowKeepsChain(g: Graph, input: Data, w: Walk, e: Edge, out: Data)
    requires RunsAreChained(g, input, w)
    requires e in EdgesFrom(g, w.current)
    ensures Follow(g, w, e, out).Running? ==> RunsAreChained(g, input, Follow(g, w, e, out).walk)
  {
    EdgeHop(g, w.current, e);
    if Follow(g, w, e, out).Running? {
      var w' := Follow(g, w, e, out).walk;
      assert w'.visits[..|w.visits|] == w.visits;
      RunExtendsChain(g, input, w, w');
    }
  }

  lemma FollowKeepsInvariant(g: Graph, input: Data, n: nat, w: Walk, e: Edge, out: Data)
    requires Invariant(g, input, n, w)
    requires e in EdgesFrom(g, w.current)
    ensures Follow(g, w, e, out).Running? ==> Invariant(g, input, n + 1, Follow(g, w, e, out).walk)
  {
    FollowKeepsStack(g, w, e, out);
    FollowKeepsChain(g, input, w, e, out);
    if Follow(g, w, e, out).Running? && e.to in w.path {
      LoopStaysWithinLimits(g, w, e);
      StackFits(g, w);
      ScaledStep(|g.nodes|, |w.loops|);
    }
  }

  lemma TurnKeepsInvariant(g: Graph, cancelled: nat -> bool, input: Data, n: nat, w: Walk)
    requires Invariant(g, input, n, w) && Turn(g, cancelled, w).Running?
    ensures Invariant(g, input, n + 1, Turn(g, cancelled, w).walk)
  {
    var out := g.nodes[w.current](n, w.input).value;
    FirstEdgeMember(EdgesFrom(g, w.current), n, out);
    FollowKeepsInvariant(g, input, n, w, FirstEdge(EdgesFrom(g, w.current), n, out).value, out);
  }

  lemma StartInvariant(g: Graph, input: Data)
    requires StartWalk(g, input).Running?
    ensures Invariant(g, input, 0, StartWalk(g, input).walk)
  {
  }

  /** At every step of every run, stateful nodes and guards included. */
  lemma {:induction false} InvariantHolds(g: Graph, cancelled: nat -> bool, input: Data, n: nat)
    ensures var p := After(g, cancelled, input, n); p.Running? ==> Invariant(g, input, n, p.walk)
  {
    if After(g, cancelled, input, n).Running? {
      if n == 0 {
        StartInvariant(g, input);
      } else {
        InvariantHolds(g, cancelled, input, n - 1);
        TurnKeepsInvariant(g, cancelled, input, n - 1, After(g, cancelled, input, n - 1).walk);
      }
    }
  }

  lemma LoopsWithinBudget(g: Graph, w: Walk)
    requires LoopsAreWithinLimits(g, w)
    ensures |w.loops| <= LoopBudget(g)
  {
    LengthWithinSum(w.loops, Hops(g), (h: Hop) => HopLimit(g, h));
  }

  lemma RunsWithinBound(g: Graph, input: Data, n: nat, w: Walk)
    requires Invariant(g, input, n, w)
    ensures n < RunBound(g)
  {
    LoopsWithinBudget(g, w);
    StackFits(g, w);
    ScaledBound(|g.nodes|, |w.loops|, LoopBudget(g));
  }

  lemma {:induction false} HaltIsFinal(g: Graph, cancelled: nat -> bool, input: Data, n: nat, m: nat)
    requires n <= m
    requires After(g, cancelled, input, n).Halted?
    ensures After(g, cancelled, input, m) == After(g, cancelled, input, n)
  {
    if n < m {
      HaltIsFinal(g, cancelled, input, n, m - 1);
    }
  }

  lemma NextTurn(g: Graph, cancelled: nat -> bool, input: Data, n: nat, w: Walk)
    requires After(g, cancelled, input, n) == Running(w)
    ensures After(g, cancelled, input, n + 1) == Turn(g, cancelled, w)
  {
  }

  /** Node runs made, counting the one that returned an error and so left no visit. */
  ghost function NodeRuns(p: Progress): nat
    requires p.Halted?
  {
    |p.visits| + if p.outcome.NodeFailed? then 1 else 0
  }

  lemma TurnRunsOnce(g: Graph, cancelled: nat -> bool, w: Walk)
    requires Turn(g, cancelled, w).Halted?
    ensures NodeRuns(Turn(g, cancelled, w)) <= |w.visits| + 1
  {
  }

  lemma RunsMade(g: Graph, cancelled: nat -> bool, input: Data, n: nat, w: Walk)
    requires After(g, cancelled, input, n) == Running(w)
    ensures |w.visits| == n
  {
    InvariantHolds(g, cancelled, input, n);
  }

  lemma HaltingTurnRuns(g: Graph, cancelled: nat -> bool, input: Data, n: nat, w: Walk)
    requires After(g, cancelled, input, n) == Running(w)
    ensures After(g, cancelled, input, n + 1).Halted? ==> NodeRuns(After(g, cancelled, input, n + 1)) <= n + 1
  {
    RunsMade(g, cancelled, input, n, w);
    NextTurn(g, cancelled, input, n, w);
    if Turn(g, cancelled, w).Halted? {
      TurnRunsOnce(g, cancelled, w);
    }
  }

  /** A halted walk made at most one run more than the turn it halted in. */
  lemma {:induction false} HaltedRuns(g: Graph, cancelled: nat -> bool, input: Data, n: nat)
    requires After(g, cancelled, input, n).Halted?
    ensures NodeRuns(After(g, cancelled, input, n)) <= n
  {
    if n > 0 {
      var before := After(g, cancelled, input, n - 1);
      if before.Halted? {
        HaltIsFinal(g, cancelled, input, n - 1, n);
        HaltedRuns(g, cancelled, input, n - 1);
      } else {
        HaltingTurnRuns(g, cancelled, input, n - 1, before.walk);
      }
    }
  }

  /** Every run halts, having made at most `RunBound` node runs, one that failed included. */
  lemma Termination(g: Graph, cancelled: nat -> bool, input: Data)
    ensures After(g, cancelled, input, RunBound(g)).Halted?
    ensures NodeRuns(After(g, cancelled, input, RunBound(g))) <= RunBound(g)
  {
    InvariantHolds(g, cancelled, input, RunBound(g));
    match After(g, cancelled, input, RunBound(g))
    case Running(w) => RunsWithinBound(g, input, RunBound(g), w);
    case Halted(_, _) => HaltedRuns(g, cancelled, input, RunBound(g));
  }

  /** Whatever turn a run halts in, that is its result. */
  lemma HaltIsResult(g: Graph, cancelled: nat -> bool, input: Data, n: nat)
    requires After(g, cancelled, input, n).Halted?
    ensures After(g, cancelled, input, RunBound(g)) == After(g, cancelled, input, n)
  {
    Termination(g, cancelled, input);
    if n <= RunBound(g) {
      HaltIsFinal(g, cancelled, input, n, RunBound(g));
    } else {
      HaltIsFinal(g, cancelled, input, RunBound(g), n);
    }
  }

  /** The lexicographic measure: loop-backs still allowed, then room left on the stack. */
  ghost predicate Shrinks(g: Graph, w: Walk, w': Walk) {
    || |w.loops| < |w'.loops| <= LoopBudget(g)
    || (|w.loops| == |w'.loops| && |w.path| < |w'.path| <= |g.nodes|)
  }

  lemma RunningTurnShrinks(g: Graph, cancelled: nat -> bool, w: Walk)
    requires Turn(g, cancelled, w).Running?
    requires |Turn(g, cancelled, w).walk.loops| <= LoopBudget(g)
    requires |Turn(g, cancelled, w).walk.path| <= |g.nodes|
    ensures Shrinks(g, w, Turn(g, cancelled, w).walk)
  {
  }

  /** A turn either ends the walk for good or shrinks the measure. */
  lemma TurnMakesProgress(g: Graph, cancelled: nat -> bool, input: Data, n: nat, w: Walk)
    requires After(g, cancelled, input, n) == Running(w)
    ensures n == |w.visits|
    ensures match Turn(g, cancelled, w)
            case Running(w') => Shrinks(g, w, w')
            case Halted(_, _) => After(g, cancelled, input, RunBound(g)) == Turn(g, cancelled, w)
  {
    InvariantHolds(g, cancelled, input, n);
    assert n < RunBound(g) by {
      RunsWithinBound(g, input, n, w);
    }
    if After(g, cancelled, input, n + 1).Halted? {
      HaltIsFinal(g, cancelled, input, n + 1, RunBound(g));
    } else {
      RunningInvariants(g, cancelled, input, n + 1);
      RunningTurnShrinks(g, cancelled, w);
    }
  }

  lemma RunningInvariants(g: Graph, cancelled: nat -> bool, input: Data, n: nat)
    requires After(g, cancelled, input, n).Running?
    ensures |After(g, cancelled, input, n).walk.loops| <= LoopBudget(g)
    ensures |After(g, cancelled, input, n).walk.path| <= |g.nodes|
  {
    InvariantHolds(g, cancelled, input, n);
    LoopsWithinBudget(g, After(g, cancelled, input, n).walk);
    StackFits(g, After(g, cancelled, input, n).walk);
  }

  /** A turn from `x` ends the run with its result, or shrinks the measure and stays in the set. */
  ghost predicate Progressing(g: Graph, cancelled: nat -> bool, input: Data, walks: iset<Walk>, x: Walk) {
    match Turn(g, cancelled, x)
    case Running(y) => y in walks && Shrinks(g, x, y)
    case Halted(_, _) => After(g, cancelled, input, RunBound(g)) == Turn(g, cancelled, x)
  }

  ghost predicate AllProgress(g: Graph, cancelled: nat -> bool, input: Data, walks: iset<Walk>) {
    forall x {:trigger Turn(g, cancelled, x)} :: x in walks ==> Progressing(g, cancelled, input, walks, x)
  }

  /** The walks a run passes through. */
  lemma RunWalks(g: Graph, cancelled: nat -> bool, input: Data) returns (walks: iset<Walk>)
    ensures StartWalk(g, input).Running? ==> StartWalk(g, input).walk in walks
    ensures AllProgress(g, cancelled, input, walks)
  {
    walks := iset x: Walk | exists n: nat :: After(g, cancelled, input, n) == Running(x);
    assert After(g, cancelled, input, 0) == StartWalk(g, input);
    forall x | x in walks ensures Progressing(g, cancelled, input, walks, x) {
      var n: nat :| After(g, cancelled, input, n) == Running(x);
      TurnMakesProgress(g, cancelled, input, n, x);
      NextTurn(g, cancelled, input, n, x);
    }
  }
}
