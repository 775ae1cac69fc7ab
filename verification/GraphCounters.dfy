/** The loop-back counters: shared by hops with equal keys, exact when keys are distinct. */
module GraphCounters {
  import opened Common
  import opened GraphModel
  import opened GraphTheorems

  predicate ColonFree(s: string) {
    ':' !in s
  }

  /** Without a colon in the identifiers the counter key determines the hop. */
  lemma {:induction false} ColonFreeKeysDistinct(a: Hop, b: Hop)
    requires ColonFree(a.from) && ColonFree(b.from)
    requires LoopKey(a) == LoopKey(b)
    ensures a == b
  {
    var key := LoopKey(a);
    assert key[|a.from|] == ':' && key[|b.from|] == ':';
    assert forall i :: 0 <= i < |a.from| ==> key[i] == a.from[i] && a.from[i] in a.from;
    assert forall i :: 0 <= i < |b.from| ==> key[i] == b.from[i] && b.from[i] in b.from;
    assert a.from == key[..|a.from|] == b.from;
    assert a.to == key[|a.from| + 1..] == b.to;
  }

  /** A counter is exact for a hop precisely when no other hop with the same key has been taken. */
  lemma {:induction false} CounterExactIff(loops: seq<Hop>, h: Hop)
    ensures KeyCount(loops, LoopKey(h)) >= Count(loops, h)
    ensures KeyCount(loops, LoopKey(h)) == Count(loops, h)
            <==> forall x :: x in loops && LoopKey(x) == LoopKey(h) ==> x == h
  {
    if loops != [] {
      var front, last := loops[..|loops| - 1], loops[|loops| - 1];
      CounterExactIff(front, h);
      assert loops == front + [last];
      assert forall x :: x in loops <==> x in front || x == last;
    }
  }

  function Echo(n: nat, d: Data): Result<Data, string> {
    Ok(d)
  }

  /** No two edges of the graph join different nodes under one counter key. */
  ghost predicate KeysDistinct(g: Graph) {
    forall h, x :: h in Hops(g) && x in Hops(g) && LoopKey(h) == LoopKey(x) ==> h == x
  }

  /** Then every counter of an edge is exact, at every turn. */
  lemma DistinctCountersExact(g: Graph, cancelled: nat -> bool, input: Data, n: nat, h: Hop)
    requires KeysDistinct(g) && h in Hops(g)
    requires After(g, cancelled, input, n).Running?
    ensures var loops := After(g, cancelled, input, n).walk.loops; KeyCount(loops, LoopKey(h)) == Count(loops, h)
  {
    InvariantHolds(g, cancelled, input, n);
    var loops := After(g, cancelled, input, n).walk.loops;
    CounterExactIff(loops, h);
    assert forall x :: x in loops ==> x in Hops(g);
  }

  /** Colon-free sources are enough; a target may contain colons. */
  lemma ColonFreeSourcesDistinct(g: Graph)
    requires forall u :: u in g.edges ==> ColonFree(u)
    ensures KeysDistinct(g)
  {
    forall h, x | h in Hops(g) && x in Hops(g) && LoopKey(h) == LoopKey(x) ensures h == x {
      ColonFreeKeysDistinct(h, x);
    }
  }

  /** On a graph whose source identifiers contain no colon every counter is exact, at every turn. */
  lemma ColonFreeCountersExact(g: Graph, cancelled: nat -> bool, input: Data, n: nat, h: Hop)
    requires forall u :: u in g.edges ==> ColonFree(u)
    requires ColonFree(h.from)
    requires After(g, cancelled, input, n).Running?
    ensures var loops := After(g, cancelled, input, n).walk.loops; KeyCount(loops, LoopKey(h)) == Count(loops, h)
  {
    InvariantHolds(g, cancelled, input, n);
    var loops := After(g, cancelled, input, n).walk.loops;
    CounterExactIff(loops, h);
    forall x | x in loops && LoopKey(x) == LoopKey(h) ensures x == h {
      assert x in Hops(g);
      ColonFreeKeysDistinct(x, h);
    }
  }

  /** All nodes of the graph, and both ends of its edges, are named from `ids`. */
  ghost predicate NamedFrom(g: Graph, ids: iset<Id>) {
    && (forall u :: u in g.nodes ==> u in ids)
    && (forall h :: h in Hops(g) ==> h.from in ids && h.to in ids)
  }

  /** The concatenation with a colon tells all pairs of identifiers apart. */
  ghost predicate KeysInjective(ids: iset<Id>) {
    forall h: Hop, x: Hop ::
      h.from in ids && h.to in ids && x.from in ids && x.to in ids && LoopKey(h) == LoopKey(x) ==> h == x
  }

  lemma ColonFreeNamesInjective()
    ensures KeysInjective(iset id: Id | ColonFree(id))
  {
    forall h: Hop, x: Hop | ColonFree(h.from) && ColonFree(x.from) && LoopKey(h) == LoopKey(x) ensures h == x {
      ColonFreeKeysDistinct(h, x);
    }
  }

  ghost predicate CountersExactAt(g: Graph, cancelled: nat -> bool, input: Data, n: nat) {
    After(g, cancelled, input, n).Running? ==>
      var loops := After(g, cancelled, input, n).walk.loops;
      forall h :: h in Hops(g) ==> KeyCount(loops, LoopKey(h)) == Count(loops, h)
  }

  /** In every run of every graph that takes its names from `ids`. */
  ghost predicate CountersAlwaysExact(ids: iset<Id>) {
    forall g, cancelled, input, n: nat :: NamedFrom(g, ids) ==> CountersExactAt(g, cancelled, input, n)
  }

  /** The edges out of `u` in a graph that loops between `h`'s ends and also has an edge for `x`. */
  ghost function ProbeEdges(h: Hop, x: Hop, u: Id): seq<Edge> {
    (if u == h.from then [Edge(h.to, None, 1)] else if u == h.to then [Edge(h.from, None, 0)] else [])
    + (if u == x.from then [Edge(x.to, None, 0)] else [])
  }

  ghost function Probe(h: Hop, x: Hop): Graph {
    var names := {h.from, h.to, x.from, x.to};
    Graph(map u | u in names :: Echo, map u | u in names :: ProbeEdges(h, x, u), h.to)
  }

  lemma ProbeTargets(h: Hop, x: Hop, u: Id)
    ensures forall e :: e in ProbeEdges(h, x, u) ==> e.to in {h.from, h.to, x.to}
    ensures Edge(x.to, None, 0) in ProbeEdges(h, x, x.from)
  {
  }

  lemma ProbeNamed(h: Hop, x: Hop, ids: iset<Id>)
    requires h.from in ids && h.to in ids && x.from in ids && x.to in ids
    ensures NamedFrom(Probe(h, x), ids)
  {
    var g := Probe(h, x);
    forall k | k in Hops(g) ensures k.from in ids && k.to in ids {
      var u, i :| u in g.edges && 0 <= i < |g.edges[u]| && k == Hop(u, g.edges[u][i].to);
      var es := ProbeEdges(h, x, u);
      assert g.edges[u] == es;
      ProbeTargets(h, x, u);
      assert es[i] in es;
    }
  }

  lemma ProbeHasHop(h: Hop, x: Hop)
    ensures x in Hops(Probe(h, x))
  {
    ProbeTargets(h, x, x.from);
    EdgeHop(Probe(h, x), x.from, Edge(x.to, None, 0));
  }

  /** The probe's first loop-back is `h`. */
  lemma ProbeLoops(h: Hop, x: Hop, never: nat -> bool) returns (n: nat)
    requires forall i: nat :: !never(i)
    ensures After(Probe(h, x), never, Nil, n).Running?
    ensures After(Probe(h, x), never, Nil, n).walk.loops == [h]
  {
    var g := Probe(h, x);
    var w0 := Walk([h.to], h.to, Nil, [], []);
    NextTurn(g, never, Nil, 0, w0);
    assert IndexOf([h.to], h.to) == 0;
    if h.from == h.to {
      n := 1;
    } else {
      var w1 := Walk([h.to, h.from], h.from, Nil, [], [Visit(h.to, Nil, Nil)]);
      assert Turn(g, never, w0) == Running(w1);
      NextTurn(g, never, Nil, 1, w1);
      assert IndexOf([h.to, h.from], h.to) == 0;
      n := 2;
    }
  }

  lemma OneLoopCounts(h: Hop, x: Hop)
    ensures KeyCount([h], LoopKey(x)) == if LoopKey(h) == LoopKey(x) then 1 else 0
    ensures Count([h], x) == if h == x then 1 else 0
  {
    assert [h][..0] == [];
    assert KeyCount([h][..0], LoopKey(x)) == 0 && Count([h][..0], x) == 0;
  }

  lemma ProbeMiscounts(h: Hop, x: Hop, never: nat -> bool) returns (n: nat)
    requires forall i: nat :: !never(i)
    requires LoopKey(h) == LoopKey(x) && h != x
    ensures !CountersExactAt(Probe(h, x), never, Nil, n)
  {
    n := ProbeLoops(h, x, never);
    ProbeHasHop(h, x);
    OneLoopCounts(h, x);
  }

  /**
   * Counters are exact on all graphs over a set of names exactly when no two pairs of these names have the
   * same concatenation.
   */
  lemma CountersExactIff(ids: iset<Id>)
    ensures CountersAlwaysExact(ids) <==> KeysInjective(ids)
  {
    if KeysInjective(ids) {
      forall g, cancelled, input, n: nat | NamedFrom(g, ids) ensures CountersExactAt(g, cancelled, input, n) {
        if After(g, cancelled, input, n).Running? {
          forall h | h in Hops(g)
            ensures var loops := After(g, cancelled, input, n).walk.loops;
                    KeyCount(loops, LoopKey(h)) == Count(loops, h)
          {
            DistinctCountersExact(g, cancelled, input, n, h);
          }
        }
      }
    } else {
      var h: Hop, x: Hop :|
        h.from in ids && h.to in ids && x.from in ids && x.to in ids && LoopKey(h) == LoopKey(x) && h != x;
      var never := (i: nat) => false;
      ProbeNamed(h, x, ids);
      var n := ProbeMiscounts(h, x, never);
    }
  }

  /** The edge a running walk would leave its current node by, if the node answers and an edge fires. */
  ghost predicate Chooses(g: Graph, cancelled: nat -> bool, w: Walk, e: Edge) {
    var n := |w.visits|;
    && !cancelled(n)
    && w.current in g.nodes
    && g.nodes[w.current](n, w.input).Ok?
    && FirstEdge(EdgesFrom(g, w.current), n, g.nodes[w.current](n, w.input).value) == Some(e)
  }

  /**
   * With distinct keys, `ErrMaxIterationsExceeded` is returned at a turn exactly when the chosen edge leads
   * back onto the stack, has a non-zero limit, and its hop has already been taken that often.
   */
  lemma LimitErrorExact(g: Graph, cancelled: nat -> bool, input: Data, n: nat)
    requires KeysDistinct(g)
    requires After(g, cancelled, input, n).Running?
    ensures var w := After(g, cancelled, input, n).walk;
            Turn(g, cancelled, w).Halted? && Turn(g, cancelled, w).outcome.MaxIterationsExceeded?
            <==> exists e :: Chooses(g, cancelled, w, e) && e.to in w.path && e.maxIterations != 0
                          && Count(w.loops, Hop(w.current, e.to)) >= e.maxIterations
  {
    InvariantHolds(g, cancelled, input, n);
    var w := After(g, cancelled, input, n).walk;
    if w.current in g.nodes && g.nodes[w.current](n, w.input).Ok? {
      var out := g.nodes[w.current](n, w.input).value;
      match FirstEdge(EdgesFrom(g, w.current), n, out)
      case None =>
      case Some(e) =>
        FirstEdgeMember(EdgesFrom(g, w.current), n, out);
        EdgeHop(g, w.current, e);
        DistinctCountersExact(g, cancelled, input, n, Hop(w.current, e.to));
        assert Chooses(g, cancelled, w, e) || cancelled(n);
    }
  }

  /** The walk a, a:a, a:a again, a:a:a; the last edge would return to a. */
  const COLLIDING: Graph := Graph(
    map["a" := Echo, "a:a" := Echo, "a:a:a" := Echo],
    map["a" := [Edge("a:a", None, 0)],
        "a:a" := [Edge("a:a", Some((n, d) => n == 1), 1), Edge("a:a:a", None, 0)],
        "a:a:a" := [Edge("a", None, 1)]],
    "a")

  lemma CollidingTurns(never: nat -> bool, visits: seq<Visit>)
    requires forall n: nat :: !never(n)
    ensures var w := Walk(["a"], "a", Nil, [], []);
            Turn(COLLIDING, never, w) == Running(Walk(["a", "a:a"], "a:a", Nil, [], [Visit("a", Nil, Nil)]))
    ensures |visits| == 1 ==>
              var w := Walk(["a", "a:a"], "a:a", Nil, [], visits);
              Turn(COLLIDING, never, w)
              == Running(w.(loops := [Hop("a:a", "a:a")], visits := visits + [Visit("a:a", Nil, Nil)]))
    ensures |visits| == 2 ==>
              var w := Walk(["a", "a:a"], "a:a", Nil, [Hop("a:a", "a:a")], visits);
              Turn(COLLIDING, never, w)
              == Running(Walk(["a", "a:a", "a:a:a"], "a:a:a", Nil, w.loops, visits + [Visit("a:a", Nil, Nil)]))
  {
    FirstEdgeIs(COLLIDING.edges["a:a"], 2, Nil, 1);
    assert IndexOf(["a", "a:a"], "a:a") == 1;
    assert ["a", "a:a"][..2] == ["a", "a:a"];
  }

  lemma SharedKey()
    ensures KeyCount([Hop("a:a", "a:a")], LoopKey(Hop("a:a:a", "a"))) == 1
  {
    assert [Hop("a:a", "a:a")][..0] == [];
    assert LoopKey(Hop("a:a", "a:a")) == "a:a:a:a" == LoopKey(Hop("a:a:a", "a"));
  }

  lemma LastTurnRefused(never: nat -> bool, w: Walk)
    requires !never(3) && |w.visits| == 3
    requires w.path == ["a", "a:a", "a:a:a"] && w.current == "a:a:a" && w.loops == [Hop("a:a", "a:a")]
    ensures Turn(COLLIDING, never, w).Halted?
    ensures Turn(COLLIDING, never, w).outcome == MaxIterationsExceeded("a:a:a", "a", 1)
  {
    SharedKey();
    assert w.path[0] == "a";
  }

  /**
   * With colons in the identifiers two hops can share a counter: here the hop from "a:a:a" to "a" is
   * refused with limit 1 although it was never taken, because the self-loop at "a:a" was.
   */
  lemma SharedCounterRefusesUntakenHop(never: nat -> bool)
    requires forall n: nat :: !never(n)
    ensures var before, end := After(COLLIDING, never, Nil, 3), After(COLLIDING, never, Nil, 4);
            && before.Running? && Count(before.walk.loops, Hop("a:a:a", "a")) == 0
            && end.Halted? && end.outcome == MaxIterationsExceeded("a:a:a", "a", 1)
  {
    var w0 := Walk(["a"], "a", Nil, [], []);
    var w1 := Walk(["a", "a:a"], "a:a", Nil, [], [Visit("a", Nil, Nil)]);
    var w2 := w1.(loops := [Hop("a:a", "a:a")], visits := w1.visits + [Visit("a:a", Nil, Nil)]);
    var w3 := Walk(["a", "a:a", "a:a:a"], "a:a:a", Nil, w2.loops, w2.visits + [Visit("a:a", Nil, Nil)]);
    CollidingTurns(never, w1.visits);
    CollidingTurns(never, w2.visits);
    NextTurn(COLLIDING, never, Nil, 0, w0);
    NextTurn(COLLIDING, never, Nil, 1, w1);
    NextTurn(COLLIDING, never, Nil, 2, w2);
    NextTurn(COLLIDING, never, Nil, 3, w3);
    LastTurnRefused(never, w3);
  }
}
