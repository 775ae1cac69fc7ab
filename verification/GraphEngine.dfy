/** The engine itself: `Execute` with its stack, index map and counters. */
module GraphEngine {
  import opened Common
  import opened GraphModel
  import opened GraphTheorems

  /** A Go map held by reference; nodes hand these to one another. */
  class DataMap {
    var entries: map<string, Value>

    constructor (entries: map<string, Value>)
      ensures this.entries == entries
    {
      this.entries := entries;
    }
  }

  function Content(m: DataMap?): Data
    reads m
  {
    if m == null then Nil else Entries(m.entries)
  }

  /** Gives a node's answer the reference it has in the program. */
  method Allocate(d: Data) returns (m: DataMap?)
    ensures Content(m) == d
    ensures m != null ==> fresh(m)
  {
    m := null;
    if d.Entries? {
      m := new DataMap(d.entries);
    }
  }

  /** A nil map stays nil; any other map is copied entry by entry into a new one. */
  method ShallowCopyData(m: DataMap?) returns (cp: DataMap?)
    ensures Content(cp) == Content(m)
    ensures cp != null ==> fresh(cp)
  {
    if m == null {
      return null;
    }
    cp := new DataMap(map[]);
    var rest := m.entries.Keys;
    while rest != {}
      invariant rest <= m.entries.Keys && m.entries == old(m.entries)
      invariant cp.entries.Keys == m.entries.Keys - rest
      invariant forall k :: k in cp.entries ==> cp.entries[k] == m.entries[k]
      decreases rest
    {
      var k :| k in rest;
      cp.entries := cp.entries[k := m.entries[k]];
      rest := rest - {k};
    }
    assert cp.entries == m.entries;
  }

  /** The index map is exactly the inverse of the stack. */
  ghost predicate IndexMirrors(pathIdx: map<Id, nat>, path: seq<Id>) {
    && (forall i :: 0 <= i < |path| ==> path[i] in pathIdx && pathIdx[path[i]] == i)
    && (forall u :: u in pathIdx ==> pathIdx[u] < |path| && path[pathIdx[u]] == u)
  }

  function Counter(iters: map<string, int>, key: string): int {
    if key in iters then iters[key] else 0
  }

  ghost predicate CountersMirror(iters: map<string, int>, loops: seq<Hop>) {
    forall key :: Counter(iters, key) == KeyCount(loops, key)
  }

  /** On a repetition-free stack the index map finds what a search of the stack finds. */
  lemma IndexMapIsSearch(pathIdx: map<Id, nat>, path: seq<Id>, u: Id)
    requires IndexMirrors(pathIdx, path)
    ensures u in pathIdx <==> u in path
    ensures u in path ==> pathIdx[u] == IndexOf(path, u)
  {
    if u in path {
      var i := IndexOf(path, u);
      assert path[i] in pathIdx;
    }
  }

  method SelectEdge(es: seq<Edge>, n: nat, out: Data) returns (next: Option<Edge>)
    ensures next == FirstEdge(es, n, out)
  {
    for i := 0 to |es|
      invariant forall k :: 0 <= k < i ==> !Fires(es[k], n, out)
    {
      if es[i].guard.None? || es[i].guard.value(n, out) {
        FirstEdgeIs(es, n, out, i);
        return Some(es[i]);
      }
    }
    FirstEdgeIs(es, n, out, |es|);
    return None;
  }

  /** Takes everything above position `keep` off the stack. */
  method PopTo(path: seq<Id>, pathIdx: map<Id, nat>, keep: nat) returns (path': seq<Id>, pathIdx': map<Id, nat>)
    requires keep < |path|
    requires IndexMirrors(pathIdx, path)
    ensures path' == path[..keep + 1]
    ensures IndexMirrors(pathIdx', path')
  {
    pathIdx' := pathIdx;
    var i := |path| - 1;
    while i > keep
      invariant keep <= i < |path|
      invariant IndexMirrors(pathIdx', path[..i + 1])
    {
      pathIdx' := pathIdx' - {path[i]};
      i := i - 1;
    }
    path' := path[..keep + 1];
  }

  /**
   * Moves along `e`: pops the stack on an allowed loop-back, refuses any other, and otherwise extends the
   * stack. `w` is the walk that stack, index map and counters stand for.
   */
  method MoveAlong(g: Graph, path: seq<Id>, pathIdx: map<Id, nat>, iters: map<string, int>, currentID: Id, e: Edge,
                   ghost w: Walk, ghost out: Data)
    returns (refusal: Option<Outcome>, path': seq<Id>, pathIdx': map<Id, nat>, iters': map<string, int>)
    requires w.path == path && w.current == currentID
    requires IndexMirrors(pathIdx, path) && CountersMirror(iters, w.loops)
    requires e.to in g.nodes
    ensures refusal.Some? ==>
              Follow(g, w, e, out) == Halted(refusal.value, w.visits + [Visit(w.current, w.input, out)])
    ensures refusal.None? ==>
              && Follow(g, w, e, out).Running?
              && Follow(g, w, e, out).walk.path == path'
              && IndexMirrors(pathIdx', path')
              && CountersMirror(iters', Follow(g, w, e, out).walk.loops)
  {
    refusal, path', pathIdx', iters' := None, path, pathIdx, iters;
    var edgeKey := currentID + ":" + e.to;
    IndexMapIsSearch(pathIdx, path, e.to);
    if e.to in pathIdx {
      if e.maxIterations == 0 {
        refusal := Some(CycleDetected(currentID, e.to));
        return;
      }
      CountersGrow(iters, w.loops, Hop(currentID, e.to));
      iters' := iters[edgeKey := Counter(iters, edgeKey) + 1];
      if iters'[edgeKey] > e.maxIterations {
        refusal := Some(MaxIterationsExceeded(currentID, e.to, e.maxIterations));
        return;
      }
      path', pathIdx' := PopTo(path, pathIdx, pathIdx[e.to]);
    } else {
      pathIdx' := pathIdx[e.to := |path|];
      path' := path + [e.to];
    }
  }

  /** Runs the walk to its end; `visits` lists the node runs it made. */
  method Execute(g: Graph, cancelled: nat -> bool, initialInput: DataMap?)
    returns (outcome: Outcome, ghost visits: seq<Visit>)
    ensures After(g, cancelled, old(Content(initialInput)), RunBound(g)) == Halted(outcome, visits)
  {
    ghost var input := Content(initialInput);
    if g.start !in g.nodes {
      HaltIsFinal(g, cancelled, input, 0, RunBound(g));
      return NodeNotFound(g.start), [];
    }

    var path := [g.start];
    var pathIdx: map<Id, nat> := map[g.start := 0];
    var iters: map<string, int> := map[];
    var currentID := g.start;
    var currentInput := initialInput;
    var runs := 0;
    ghost var walks := RunWalks(g, cancelled, input);
    ghost var w := Walk(path, currentID, input, [], []);

    while true
      invariant w in walks && |w.visits| == runs
      invariant w.path == path && w.current == currentID && w.input == Content(currentInput)
      invariant IndexMirrors(pathIdx, path)
      invariant CountersMirror(iters, w.loops)
      decreases LoopBudget(g) - |w.loops|, |g.nodes| - |w.path|
    {
      ghost var next := Turn(g, cancelled, w);
      assert Progressing(g, cancelled, input, walks, w);

      if cancelled(runs) {
        return Cancelled, w.visits;
      }
      if currentID !in g.nodes {
        return NodeNotFound(currentID), w.visits;
      }
      var result := g.nodes[currentID](runs, Content(currentInput));
      if result.Err? {
        return NodeFailed(currentID, result.error), w.visits;
      }
      var out := Allocate(result.value);

      var chosen := SelectEdge(if currentID in g.edges then g.edges[currentID] else [], runs, result.value);
      visits := w.visits + [Visit(currentID, w.input, result.value)];
      if chosen.None? {
        return Success(Content(out)), visits;
      }
      var e := chosen.value;
      assert next == Follow(g, w, e, result.value);
      if e.to !in g.nodes {
        return NodeNotFound(e.to), visits;
      }

      var refusal;
      refusal, path, pathIdx, iters := MoveAlong(g, path, pathIdx, iters, currentID, e, w, result.value);
      if refusal.Some? {
        return refusal.value, visits;
      }
      currentID := e.to;
      currentInput := ShallowCopyData(out);
      runs := runs + 1;
      w := next.walk;
    }
  }

  lemma CountersGrow(iters: map<string, int>, loops: seq<Hop>, h: Hop)
    requires CountersMirror(iters, loops)
    ensures CountersMirror(iters[LoopKey(h) := Counter(iters, LoopKey(h)) + 1], loops + [h])
  {
    var iters' := iters[LoopKey(h) := Counter(iters, LoopKey(h)) + 1];
    forall key ensures Counter(iters', key) == KeyCount(loops + [h], key) {
      assert (loops + [h])[..|loops|] == loops;
      assert Counter(iters, key) == KeyCount(loops, key);
    }
  }
}
