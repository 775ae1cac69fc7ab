/** What `Execute` returns, read off the graph and the completed runs alone. */
module GraphOutcomes {
  import opened Common
  import opened GraphModel
  import opened GraphTheorems

  /** An edge without a predicate, or one whose predicate holds. */
  predicate Open(e: Edge, n: nat, out: Data) {
    e.guard.Some? ==> e.guard.value(n, out)
  }

  ghost predicate LeavesAt(g: Graph, n: nat, v: Visit, e: Edge, k: nat) {
    var es := EdgesFrom(g, v.id);
    && k < |es| && es[k] == e && Open(e, n, v.output)
    && forall j :: 0 <= j < k ==> !Open(es[j], n, v.output)
  }

  /** `e` is the first open edge of the node that made run number `n`. */
  ghost predicate Leaves(g: Graph, n: nat, v: Visit, e: Edge) {
    exists k :: LeavesAt(g, n, v, e, k)
  }

  ghost predicate AllShut(es: seq<Edge>, n: nat, out: Data) {
    forall i :: 0 <= i < |es| ==> !Open(es[i], n, out)
  }

  /** The traversal stack after nodes have been entered in this order. */
  ghost function Stack(ids: seq<Id>): seq<Id> {
    if ids == [] then []
    else
      var s, x := Stack(ids[..|ids| - 1]), ids[|ids| - 1];
      if x in s then s[..IndexOf(s, x) + 1] else s + [x]
  }

  /** The keys after a step from the last of `ids` to `x`, which counts if `x` is on the stack. */
  ghost function WithStep(keys: seq<string>, ids: seq<Id>, x: Id): seq<string>
    requires ids != []
  {
    AppendIf(keys, x in Stack(ids), ids[|ids| - 1] + ":" + x)
  }

  /** The counter keys of the loop-backs among the steps between these nodes. */
  ghost function LoopKeys(ids: seq<Id>): seq<string> {
    if |ids| <= 1 then [] else WithStep(LoopKeys(ids[..|ids| - 1]), ids[..|ids| - 1], ids[|ids| - 1])
  }

  ghost predicate LeadsBack(visits: seq<Visit>, e: Edge) {
    e.to in Stack(Ids(visits))
  }

  /** How often the counter of this step has been raised before. */
  ghost function Raised(visits: seq<Visit>, e: Edge): nat
    requires visits != []
  {
    Count(LoopKeys(Ids(visits)), visits[|visits| - 1].id + ":" + e.to)
  }

  /** The edge may be taken: its target exists and, if it leads back, its limit is not used up. */
  ghost predicate Allows(g: Graph, visits: seq<Visit>, e: Edge)
    requires visits != []
  {
    e.to in g.nodes && (LeadsBack(visits, e) ==> Raised(visits, e) < e.maxIterations)
  }

  /** After these runs, node `u` is due with input `d`. */
  ghost predicate NextIs(g: Graph, input: Data, visits: seq<Visit>, u: Id, d: Data) {
    && u in g.nodes
    && if visits == [] then u == g.start && d == input
       else
         var n := |visits| - 1;
         d == visits[n].output && exists e :: Leaves(g, n, visits[n], e) && e.to == u && Allows(g, visits, e)
  }

  /** Run `i` is that of the node due, was not cancelled, and gave what the node answered. */
  ghost predicate RunAt(g: Graph, cancelled: nat -> bool, input: Data, visits: seq<Visit>, i: nat)
    requires i < |visits|
  {
    var v := visits[i];
    && NextIs(g, input, visits[..i], v.id, v.input)
    && !cancelled(i)
    && g.nodes[v.id](i, v.input) == Ok(v.output)
  }

  ghost predicate IsRun(g: Graph, cancelled: nat -> bool, input: Data, visits: seq<Visit>) {
    forall i :: 0 <= i < |visits| ==> RunAt(g, cancelled, input, visits, i)
  }

  /** The reason why the run ends after these visits. */
  ghost predicate Explains(g: Graph, cancelled: nat -> bool, input: Data, visits: seq<Visit>, outcome: Outcome) {
    var n := |visits|;
    match outcome
    case Success(out) =>
      n > 0 && out == visits[n - 1].output && AllShut(EdgesFrom(g, visits[n - 1].id), n - 1, out)
    case Cancelled =>
      cancelled(n) && exists u, d :: NextIs(g, input, visits, u, d)
    case NodeFailed(u, error) =>
      !cancelled(n) && exists d :: NextIs(g, input, visits, u, d) && g.nodes[u](n, d) == Err(error)
    case NodeNotFound(u) =>
      && u !in g.nodes
      && if n == 0 then u == g.start else exists e :: Leaves(g, n - 1, visits[n - 1], e) && e.to == u
    case CycleDetected(u, v) =>
      && n > 0 && u == visits[n - 1].id && v in g.nodes
      && exists e :: Leaves(g, n - 1, visits[n - 1], e) && e.to == v && LeadsBack(visits, e) && e.maxIterations == 0
    case MaxIterationsExceeded(u, v, limit) =>
      && n > 0 && u == visits[n - 1].id && v in g.nodes && limit != 0
      && exists e :: Leaves(g, n - 1, visits[n - 1], e) && e.to == v && LeadsBack(visits, e)
                     && e.maxIterations == limit && Raised(visits, e) >= limit
  }

  lemma {:induction false} FirstEdgeIsFirstOpen(es: seq<Edge>, n: nat, out: Data) returns (k: nat)
    ensures k <= |es| && forall j :: 0 <= j < k ==> !Open(es[j], n, out)
    ensures k < |es| ==> Open(es[k], n, out) && FirstEdge(es, n, out) == Some(es[k])
    ensures k == |es| ==> FirstEdge(es, n, out) == None
  {
    if es == [] || Open(es[0], n, out) {
      k := 0;
    } else {
      k := FirstEdgeIsFirstOpen(es[1..], n, out);
      k := k + 1;
      assert forall j :: 1 <= j < k ==> es[j] == es[1..][j - 1];
    }
  }

  /** The edge the walk takes is the first open one; it takes none exactly if none is open. */
  lemma ChosenLeaves(g: Graph, n: nat, v: Visit)
    ensures var next := FirstEdge(EdgesFrom(g, v.id), n, v.output);
            if next.Some? then Leaves(g, n, v, next.value)
            else AllShut(EdgesFrom(g, v.id), n, v.output)
  {
    var k := FirstEdgeIsFirstOpen(EdgesFrom(g, v.id), n, v.output);
    if k < |EdgesFrom(g, v.id)| {
      assert LeavesAt(g, n, v, EdgesFrom(g, v.id)[k], k);
    }
  }

  /** What stack, counters, node and input of a walk amount to. */
  ghost predicate Traced(g: Graph, cancelled: nat -> bool, input: Data, w: Walk) {
    var ids := Ids(w.visits) + [w.current];
    && IsRun(g, cancelled, input, w.visits)
    && NextIs(g, input, w.visits, w.current, w.input)
    && w.path == Stack(ids)
    && forall key :: KeyCount(w.loops, key) == Count(LoopKeys(ids), key)
  }

  lemma RunExtends(g: Graph, cancelled: nat -> bool, input: Data, visits: seq<Visit>, v: Visit)
    requires IsRun(g, cancelled, input, visits) && NextIs(g, input, visits, v.id, v.input)
    requires !cancelled(|visits|) && g.nodes[v.id](|visits|, v.input) == Ok(v.output)
    ensures IsRun(g, cancelled, input, visits + [v])
  {
    var more := visits + [v];
    forall i | 0 <= i < |more| ensures RunAt(g, cancelled, input, more, i) {
      assert more[..i] == visits[..i];
      if i < |visits| {
        assert RunAt(g, cancelled, input, visits, i) && more[i] == visits[i];
      } else {
        assert visits[..i] == visits;
      }
    }
  }

  lemma StackExtends(ids: seq<Id>, x: Id)
    ensures Stack(ids + [x]) == if x in Stack(ids) then Stack(ids)[..IndexOf(Stack(ids), x) + 1] else Stack(ids) + [x]
  {
    assert (ids + [x])[..|ids|] == ids;
  }

  lemma KeysExtend(ids: seq<Id>, x: Id)
    requires ids != []
    ensures LoopKeys(ids + [x]) == WithStep(LoopKeys(ids), ids, x)
  {
    var more := ids + [x];
    KeysOfFront(more);
    assert more[..|more| - 1] == ids && more[|more| - 1] == x;
  }

  lemma KeysOfFront(ids: seq<Id>)
    requires |ids| > 1
    ensures LoopKeys(ids) == WithStep(LoopKeys(ids[..|ids| - 1]), ids[..|ids| - 1], ids[|ids| - 1])
  {
  }

  lemma LoopRecorded(loops: seq<Hop>, h: Hop, keys: seq<string>)
    requires forall key :: KeyCount(loops, key) == Count(keys, key)
    ensures forall key :: KeyCount(loops + [h], key) == Count(keys + [h.from + ":" + h.to], key)
  {
    assert (loops + [h])[..|loops|] == loops;
    assert forall k: string :: (keys + [k])[..|keys|] == keys;
  }

  /** Leaving the current node after `v`, the run it just made. */
  lemma FollowTraced(g: Graph, cancelled: nat -> bool, input: Data, w: Walk, e: Edge, v: Visit)
    requires Traced(g, cancelled, input, w) && v.id == w.current && v.input == w.input
    requires IsRun(g, cancelled, input, w.visits + [v]) && Leaves(g, |w.visits|, v, e)
    ensures match Follow(g, w, e, v.output)
            case Running(x) => Traced(g, cancelled, input, x)
            case Halted(outcome, visits) => visits == w.visits + [v] && Explains(g, cancelled, input, visits, outcome)
  {
    var visits := w.visits + [v];
    IdsExtend(w.visits, v);
    assert Ids(visits) == Ids(w.visits) + [w.current];
    assert Raised(visits, e) == KeyCount(w.loops, LoopKey(Hop(w.current, e.to)));
    if e.to in g.nodes && (LeadsBack(visits, e) ==> Raised(visits, e) < e.maxIterations) {
      MoveTraced(g, cancelled, input, w, e, v);
    }
  }

  /** Along an edge that is allowed. */
  lemma MoveTraced(g: Graph, cancelled: nat -> bool, input: Data, w: Walk, e: Edge, v: Visit)
    requires Traced(g, cancelled, input, w) && v.id == w.current && v.input == w.input
    requires IsRun(g, cancelled, input, w.visits + [v]) && Leaves(g, |w.visits|, v, e)
    requires Allows(g, w.visits + [v], e) && Ids(w.visits + [v]) == Ids(w.visits) + [w.current]
    requires Follow(g, w, e, v.output).Running?
    ensures Traced(g, cancelled, input, Follow(g, w, e, v.output).walk)
  {
    var visits := w.visits + [v];
    var x := Follow(g, w, e, v.output).walk;
    assert NextIs(g, input, visits, e.to, v.output);
    StackExtends(Ids(visits), e.to);
    KeysExtend(Ids(visits), e.to);
    if e.to in w.path {
      LoopRecorded(w.loops, Hop(w.current, e.to), LoopKeys(Ids(visits)));
    }
  }

  lemma TurnTraced(g: Graph, cancelled: nat -> bool, input: Data, w: Walk)
    requires Traced(g, cancelled, input, w)
    ensures match Turn(g, cancelled, w)
            case Running(x) => Traced(g, cancelled, input, x)
            case Halted(outcome, visits) =>
              IsRun(g, cancelled, input, visits) && Explains(g, cancelled, input, visits, outcome)
  {
    var n, u := |w.visits|, w.current;
    if !cancelled(n) && g.nodes[u](n, w.input).Ok? {
      var v := Visit(u, w.input, g.nodes[u](n, w.input).value);
      RunExtends(g, cancelled, input, w.visits, v);
      ChosenLeaves(g, n, v);
      var next := FirstEdge(EdgesFrom(g, u), n, v.output);
      if next.Some? {
        FollowTraced(g, cancelled, input, w, next.value, v);
      }
    }
  }

  lemma StartTraced(g: Graph, cancelled: nat -> bool, input: Data)
    requires g.start in g.nodes
    ensures Traced(g, cancelled, input, Walk([g.start], g.start, input, [], []))
  {
    assert Ids([]) + [g.start] == [g.start] && [g.start][..0] == [];
    assert Stack([g.start]) == [] + [g.start];
  }

  ghost predicate Accounted(g: Graph, cancelled: nat -> bool, input: Data, p: Progress) {
    match p
    case Running(x) => Traced(g, cancelled, input, x)
    case Halted(outcome, visits) =>
      IsRun(g, cancelled, input, visits) && Explains(g, cancelled, input, visits, outcome)
  }

  lemma NextAccounted(g: Graph, cancelled: nat -> bool, input: Data, p: Progress, q: Progress)
    requires Accounted(g, cancelled, input, p)
    requires q == if p.Running? then Turn(g, cancelled, p.walk) else p
    ensures Accounted(g, cancelled, input, q)
  {
    if p.Running? {
      TurnTraced(g, cancelled, input, p.walk);
    }
  }

  lemma {:induction false} EveryTurnAccounted(g: Graph, cancelled: nat -> bool, input: Data, n: nat)
    ensures Accounted(g, cancelled, input, After(g, cancelled, input, n))
  {
    if n == 0 {
      if g.start in g.nodes {
        StartTraced(g, cancelled, input);
      }
    } else {
      EveryTurnAccounted(g, cancelled, input, n - 1);
      NextAccounted(g, cancelled, input, After(g, cancelled, input, n - 1), After(g, cancelled, input, n));
    }
  }

  lemma LeavesUnique(g: Graph, n: nat, v: Visit, e: Edge, e': Edge)
    requires Leaves(g, n, v, e) && Leaves(g, n, v, e')
    ensures e == e'
  {
    var k: nat :| LeavesAt(g, n, v, e, k);
    var k': nat :| LeavesAt(g, n, v, e', k');
    assert k == k';
  }

  lemma NextUnique(g: Graph, input: Data, visits: seq<Visit>, u: Id, d: Data, u': Id, d': Data)
    requires NextIs(g, input, visits, u, d) && NextIs(g, input, visits, u', d')
    ensures u == u' && d == d'
  {
    if visits != [] {
      var n := |visits| - 1;
      var e :| Leaves(g, n, visits[n], e) && e.to == u && Allows(g, visits, e);
      var e' :| Leaves(g, n, visits[n], e') && e'.to == u' && Allows(g, visits, e');
      LeavesUnique(g, n, visits[n], e, e');
    }
  }

  /** Graph, input and cancellation leave no choice about the runs. */
  lemma {:induction false} RunsAgree(g: Graph, cancelled: nat -> bool, input: Data,
                                     a: seq<Visit>, b: seq<Visit>, n: nat)
    requires IsRun(g, cancelled, input, a) && IsRun(g, cancelled, input, b)
    requires n <= |a| && n <= |b|
    ensures a[..n] == b[..n]
  {
    if n > 0 {
      RunsAgree(g, cancelled, input, a, b, n - 1);
      assert RunAt(g, cancelled, input, a, n - 1) && RunAt(g, cancelled, input, b, n - 1);
      NextUnique(g, input, a[..n - 1], a[n - 1].id, a[n - 1].input, b[n - 1].id, b[n - 1].input);
      assert a[..n] == a[..n - 1] + [a[n - 1]] && b[..n] == b[..n - 1] + [b[n - 1]];
    }
  }

  /** A reason to end that lies in the last run leaves no node due. */
  lemma EndsHere(g: Graph, cancelled: nat -> bool, input: Data, visits: seq<Visit>, outcome: Outcome, u: Id, d: Data)
    requires Explains(g, cancelled, input, visits, outcome) && NextIs(g, input, visits, u, d)
    ensures outcome.Cancelled? || outcome.NodeFailed?
  {
    if visits != [] {
      var n := |visits| - 1;
      var e :| Leaves(g, n, visits[n], e) && e.to == u && Allows(g, visits, e);
      LeavingEdgeIs(g, n, visits[n], e);
    }
  }

  lemma LeavingEdgeIs(g: Graph, n: nat, v: Visit, e: Edge)
    requires Leaves(g, n, v, e)
    ensures e in EdgesFrom(g, v.id) && Open(e, n, v.output)
    ensures forall x :: Leaves(g, n, v, x) ==> x == e
  {
    var k: nat :| LeavesAt(g, n, v, e, k);
    forall x | Leaves(g, n, v, x) ensures x == e {
      LeavesUnique(g, n, v, x, e);
    }
  }

  lemma OutcomeUnique(g: Graph, cancelled: nat -> bool, input: Data, visits: seq<Visit>, a: Outcome, b: Outcome)
    requires Explains(g, cancelled, input, visits, a) && Explains(g, cancelled, input, visits, b)
    ensures a == b
  {
    if u, d :| NextIs(g, input, visits, u, d) {
      EndsHere(g, cancelled, input, visits, a, u, d);
      EndsHere(g, cancelled, input, visits, b, u, d);
      forall u', d' | NextIs(g, input, visits, u', d') ensures u' == u && d' == d {
        NextUnique(g, input, visits, u, d, u', d');
      }
    } else if visits != [] {
      var n := |visits| - 1;
      if e :| Leaves(g, n, visits[n], e) {
        LeavingEdgeIs(g, n, visits[n], e);
      }
    }
  }

  lemma ShorterContradicts(g: Graph, cancelled: nat -> bool, input: Data, a: seq<Visit>, b: seq<Visit>,
                           outcome: Outcome)
    requires IsRun(g, cancelled, input, a) && IsRun(g, cancelled, input, b) && |a| < |b|
    ensures !Explains(g, cancelled, input, a, outcome)
  {
    var n := |a|;
    RunsAgree(g, cancelled, input, a, b, n);
    assert a[..n] == a && RunAt(g, cancelled, input, b, n);
    forall d | outcome.NodeFailed? && NextIs(g, input, a, outcome.id, d)
      ensures outcome.id == b[n].id && d == b[n].input
    {
      NextUnique(g, input, a, outcome.id, d, b[n].id, b[n].input);
    }
    if Explains(g, cancelled, input, a, outcome) {
      EndsHere(g, cancelled, input, a, outcome, b[n].id, b[n].input);
    }
  }

  /**
   * For every graph: an outcome with visits is the result exactly when each visit is the run of the node due
   * then, with its answer, and the outcome names the reason why no further run completes.
   */
  lemma ResultIff(g: Graph, cancelled: nat -> bool, input: Data, outcome: Outcome, visits: seq<Visit>)
    ensures After(g, cancelled, input, RunBound(g)) == Halted(outcome, visits)
            <==> IsRun(g, cancelled, input, visits) && Explains(g, cancelled, input, visits, outcome)
  {
    Termination(g, cancelled, input);
    EveryTurnAccounted(g, cancelled, input, RunBound(g));
    var p := After(g, cancelled, input, RunBound(g));
    if IsRun(g, cancelled, input, visits) && Explains(g, cancelled, input, visits, outcome) {
      if |visits| < |p.visits| {
        ShorterContradicts(g, cancelled, input, visits, p.visits, outcome);
      } else if |p.visits| < |visits| {
        ShorterContradicts(g, cancelled, input, p.visits, visits, p.outcome);
      } else {
        RunsAgree(g, cancelled, input, visits, p.visits, |visits|);
        assert visits[..|visits|] == visits && p.visits[..|visits|] == p.visits;
        OutcomeUnique(g, cancelled, input, visits, outcome, p.outcome);
      }
    }
  }
}
