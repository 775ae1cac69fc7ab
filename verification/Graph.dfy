/** The runtime graph and the walk that `Execute` performs over it, stated on histories. */
module GraphModel {
  import opened Common

  type Id = string

  /** A decoded JSON value, the content of a `map[string]any` entry. */
  datatype Value = Null | Bool(b: bool) | Number(n: int) | Text(s: string) | List(items: seq<Value>)

  /** A Go map that may be nil. */
  datatype Data = Nil | Entries(entries: map<string, Value>)

  /**
   * A node's `Run`. The first argument is the number of node runs completed before this one, so a
   * node whose answer depends on what it did earlier in the walk is one of these functions.
   */
  type Behaviour = (nat, Data) -> Result<Data, string>

  /** `guard` is the optional predicate; like a node it may depend on how far the walk has come. */
  datatype Edge = Edge(to: Id, guard: Option<(nat, Data) -> bool>, maxIterations: int)

  datatype Graph = Graph(nodes: map<Id, Behaviour>, edges: map<Id, seq<Edge>>, start: Id)

  datatype Outcome =
    | Success(output: Data)
    | Cancelled
    | NodeNotFound(id: Id)
    | NodeFailed(id: Id, error: string)
    | CycleDetected(from: Id, to: Id)
    | MaxIterationsExceeded(from: Id, to: Id, limit: int)

  /** One completed node run. */
  datatype Visit = Visit(id: Id, input: Data, output: Data)

  /** A looping edge, as the pair of node identifiers it joins. */
  datatype Hop = Hop(from: Id, to: Id)

  /**
   * The walk so far: the traversal stack, the node to run next and its input, the loop-backs taken
   * and the completed runs.
   */
  datatype Walk = Walk(path: seq<Id>, current: Id, input: Data, loops: seq<Hop>, visits: seq<Visit>)

  datatype Progress = Running(walk: Walk) | Halted(outcome: Outcome, visits: seq<Visit>)

  function EdgesFrom(g: Graph, u: Id): seq<Edge> {
    if u in g.edges then g.edges[u] else []
  }

  predicate Fires(e: Edge, n: nat, out: Data) {
    e.guard.None? || e.guard.value(n, out)
  }

  /** The first edge in list order whose guard holds. */
  function FirstEdge(es: seq<Edge>, n: nat, out: Data): Option<Edge> {
    if es == [] then None
    else if Fires(es[0], n, out) then Some(es[0])
    else FirstEdge(es[1..], n, out)
  }

  lemma {:induction false} FirstEdgeIs(es: seq<Edge>, n: nat, out: Data, k: nat)
    requires k <= |es|
    requires forall i :: 0 <= i < k ==> !Fires(es[i], n, out)
    ensures k == |es| ==> FirstEdge(es, n, out) == None
    ensures k < |es| && Fires(es[k], n, out) ==> FirstEdge(es, n, out) == Some(es[k])
  {
    if k > 0 {
      FirstEdgeIs(es[1..], n, out, k - 1);
    }
  }

  lemma {:induction false} FirstEdgeMember(es: seq<Edge>, n: nat, out: Data)
    ensures FirstEdge(es, n, out).Some? ==> FirstEdge(es, n, out).value in es
  {
    if es != [] {
      FirstEdgeMember(es[1..], n, out);
    }
  }

  /** The counter key the engine uses for a looping edge. */
  function LoopKey(h: Hop): string {
    h.from + ":" + h.to
  }

  /** Loop-backs recorded so far under a counter key. */
  ghost function KeyCount(loops: seq<Hop>, key: string): nat {
    if loops == [] then 0
    else KeyCount(loops[..|loops| - 1], key) + (if LoopKey(loops[|loops| - 1]) == key then 1 else 0)
  }

  ghost function StartWalk(g: Graph, input: Data): Progress {
    if g.start in g.nodes then Running(Walk([g.start], g.start, input, [], []))
    else Halted(NodeNotFound(g.start), [])
  }

  /** Leaving the current node along `e`, once it has produced `out`. */
  ghost function Follow(g: Graph, w: Walk, e: Edge, out: Data): Progress {
    var visits := w.visits + [Visit(w.current, w.input, out)];
    var hop := Hop(w.current, e.to);
    if e.to !in g.nodes then Halted(NodeNotFound(e.to), visits)
    else if e.to !in w.path then Running(Walk(w.path + [e.to], e.to, out, w.loops, visits))
    else if e.maxIterations == 0 then Halted(CycleDetected(hop.from, hop.to), visits)
    else if KeyCount(w.loops, LoopKey(hop)) + 1 > e.maxIterations then
      Halted(MaxIterationsExceeded(hop.from, hop.to, e.maxIterations), visits)
    else Running(Walk(w.path[..IndexOf(w.path, e.to) + 1], e.to, out, w.loops + [hop], visits))
  }

  /** One turn of the engine: check for cancellation, run the current node, leave it. */
  ghost function Turn(g: Graph, cancelled: nat -> bool, w: Walk): Progress {
    var n, u := |w.visits|, w.current;
    if cancelled(n) then Halted(Cancelled, w.visits)
    else if u !in g.nodes then Halted(NodeNotFound(u), w.visits)
    else match g.nodes[u](n, w.input)
      case Err(error) => Halted(NodeFailed(u, error), w.visits)
      case Ok(out) =>
        match FirstEdge(EdgesFrom(g, u), n, out)
        case None => Halted(Success(out), w.visits + [Visit(u, w.input, out)])
        case Some(e) => Follow(g, w, e, out)
  }

  /** Where the walk stands after `n` turns. */
  ghost function After(g: Graph, cancelled: nat -> bool, input: Data, n: nat): Progress {
    if n == 0 then StartWalk(g, input)
    else
      match After(g, cancelled, input, n - 1)
      case Halted(outcome, visits) => Halted(outcome, visits)
      case Running(w) => Turn(g, cancelled, w)
  }

  ghost predicate HasEdge(g: Graph, u: Id, v: Id) {
    exists e :: e in EdgesFrom(g, u) && e.to == v
  }

  /** The hops the graph has edges for. */
  ghost function Hops(g: Graph): set<Hop> {
    set u, i | u in g.edges && 0 <= i < |g.edges[u]| :: Hop(u, g.edges[u][i].to)
  }

  /** The largest limit of any edge in the list that leads to `v`; zero if there is none. */
  ghost function LargestLimit(es: seq<Edge>, v: Id): nat {
    if es == [] then 0
    else Max(if es[0].to == v then es[0].maxIterations else 0, LargestLimit(es[1..], v))
  }

  ghost function HopLimit(g: Graph, h: Hop): nat {
    LargestLimit(EdgesFrom(g, h.from), h.to)
  }

  /** Over all hops, the loop-backs the edge limits leave room for. */
  ghost function LoopBudget(g: Graph): nat {
    SumOver(Hops(g), (h: Hop) => HopLimit(g, h))
  }

  ghost function RunBound(g: Graph): nat {
    |g.nodes| * (1 + LoopBudget(g))
  }

  lemma {:induction false} LimitBelowLargest(es: seq<Edge>, e: Edge)
    requires e in es
    ensures e.maxIterations <= LargestLimit(es, e.to)
  {
    if es[0] != e {
      LimitBelowLargest(es[1..], e);
    }
  }
}
