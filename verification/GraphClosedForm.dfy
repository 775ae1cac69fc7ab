/** Exactly what `Execute` does on the graphs `BuildGraph` makes: no guards, so the first edge is always taken. */
module GraphClosedForm {
  import opened Common
  import opened GraphModel
  import opened GraphTheorems

  ghost predicate WellFormed(g: Graph) {
    && g.start in g.nodes
    && (forall u, e :: e in EdgesFrom(g, u) ==> e.to in g.nodes)
  }

  ghost predicate Unconditional(g: Graph) {
    forall u, e :: e in EdgesFrom(g, u) ==> e.guard.None?
  }

  ghost predicate NeverFails(g: Graph) {
    forall u, n: nat, d | u in g.nodes :: g.nodes[u](n, d).Ok?
  }

  ghost predicate NeverCancelled(cancelled: nat -> bool) {
    forall n: nat :: !cancelled(n)
  }

  ghost predicate Undisturbed(g: Graph, cancelled: nat -> bool) {
    WellFormed(g) && Unconditional(g) && NeverFails(g) && NeverCancelled(cancelled)
  }

  ghost predicate FirstLeadsTo(g: Graph, u: Id, v: Id) {
    EdgesFrom(g, u) != [] && EdgesFrom(g, u)[0].to == v
  }

  /** The longest repetition-free walk from the start that always takes the first edge. */
  ghost predicate LongestFirstEdgeWalk(g: Graph, w: seq<Id>) {
    && FirstEdgeWalk(g, w)
    && (EdgesFrom(g, w[|w| - 1]) == [] || EdgesFrom(g, w[|w| - 1])[0].to in w)
  }

  ghost predicate FirstEdgeWalk(g: Graph, w: seq<Id>) {
    && w != [] && w[0] == g.start
    && NoDuplicates(w)
    && (forall u :: u in w ==> u in g.nodes)
    && (forall i, k :: 0 <= i < |w| && k == i + 1 < |w| ==> FirstLeadsTo(g, w[i], w[k]))
  }

  lemma {:induction false} ExtendWalk(g: Graph, w: seq<Id>) returns (longest: seq<Id>)
    requires WellFormed(g) && FirstEdgeWalk(g, w)
    ensures LongestFirstEdgeWalk(g, longest)
    decreases |g.nodes| - |w|
  {
    var es := EdgesFrom(g, w[|w| - 1]);
    if es == [] || es[0].to in w {
      return w;
    }
    assert es[0] in es;
    NoDuplicatesFits(w + [es[0].to], g.nodes.Keys);
    longest := ExtendWalk(g, w + [es[0].to]);
  }

  lemma LongestFirstEdgeWalkExists(g: Graph)
    requires WellFormed(g)
    ensures exists w :: LongestFirstEdgeWalk(g, w)
  {
    var w := ExtendWalk(g, [g.start]);
  }

  /** So every run is either a straight run or a looping one. */
  lemma LongestWalkEnds(g: Graph, w: seq<Id>)
    requires LongestFirstEdgeWalk(g, w)
    ensures EdgesFrom(g, w[|w| - 1]) == [] || exists j :: ClosesAt(g, w, j)
  {
    if EdgesFrom(g, w[|w| - 1]) != [] {
      var j :| 0 <= j < |w| && w[j] == EdgesFrom(g, w[|w| - 1])[0].to;
      assert ClosesAt(g, w, j);
    }
  }

  ghost function Repeat<T>(s: seq<T>, k: nat): seq<T> {
    if k == 0 then [] else Repeat(s, k - 1) + s
  }

  lemma {:induction false} RepeatLength<T>(s: seq<T>, k: nat)
    ensures |Repeat(s, k)| == k * |s|
  {
    if k > 0 {
      RepeatLength(s, k - 1);
      ScaledStep(|s|, k - 1);
    }
  }

  /** A turn of an undisturbed walk ends it or follows the first edge of the current node. */
  lemma UndisturbedTurn(g: Graph, cancelled: nat -> bool, w: Walk)
    requires Undisturbed(g, cancelled) && w.current in g.nodes
    ensures g.nodes[w.current](|w.visits|, w.input).Ok?
    ensures var out := g.nodes[w.current](|w.visits|, w.input).value;
            var es := EdgesFrom(g, w.current);
            Turn(g, cancelled, w) ==
              if es == [] then Halted(Success(out), w.visits + [Visit(w.current, w.input, out)])
              else Follow(g, w, es[0], out)
  {
    var es := EdgesFrom(g, w.current);
    if es != [] {
      assert es[0] in es;
    }
  }

  /** The walk has run the nodes before position `i` of `w`, once each, and stands at that position. */
  ghost predicate OnFirstPass(x: Walk, w: seq<Id>, i: nat) {
    && i < |w|
    && x.path == w[..i + 1] && x.current == w[i]
    && x.loops == [] && Ids(x.visits) == w[..i]
  }

  /** The first pass along the walk. */
  lemma {:induction false} FirstPass(g: Graph, cancelled: nat -> bool, input: Data, walks: iset<Walk>,
                                     w: seq<Id>, i: nat)
    returns (x: Walk)
    requires Undisturbed(g, cancelled) && AllProgress(g, cancelled, input, walks) && FirstEdgeWalk(g, w) && i < |w|
    requires Walk([g.start], g.start, input, [], []) in walks
    ensures x in walks && OnFirstPass(x, w, i)
  {
    if i == 0 {
      x := Walk([g.start], g.start, input, [], []);
    } else {
      var y := FirstPass(g, cancelled, input, walks, w, i - 1);
      UndisturbedTurn(g, cancelled, y);
      assert FirstLeadsTo(g, w[i - 1], w[i]);
      x := Turn(g, cancelled, y).walk;
      IdsExtend(y.visits, x.visits[i - 1]);
    }
  }

  /** The runs made when `c` rounds of the loop from position `j` and then `i` more nodes are done. */
  ghost function RunsAfter(w: seq<Id>, j: nat, c: nat, i: nat): seq<Id>
    requires j + i <= |w|
  {
    w[..j] + Repeat(w[j..], c) + w[j..j + i]
  }

  /** The walk's last node has its first edge back to position `j`. */
  ghost predicate ClosesAt(g: Graph, w: seq<Id>, j: nat) {
    j < |w| && FirstEdgeWalk(g, w) && FirstLeadsTo(g, w[|w| - 1], w[j])
  }

  ghost function ClosingLimit(g: Graph, w: seq<Id>, j: nat): int
    requires ClosesAt(g, w, j)
  {
    EdgesFrom(g, w[|w| - 1])[0].maxIterations
  }

  /** The walk stands at position `i` of the loop, having closed the loop `c` times. */
  ghost predicate AtLoop(x: Walk, w: seq<Id>, j: nat, c: nat, i: nat) {
    && j + i < |w|
    && x.path == w[..j + i + 1]
    && x.current == w[j + i]
    && KeyCount(x.loops, LoopKey(Hop(w[|w| - 1], w[j]))) == c
    && Ids(x.visits) == RunsAfter(w, j, c, i)
  }

  lemma RunsExtend(w: seq<Id>, j: nat, c: nat, i: nat)
    requires j + i < |w|
    ensures j + i + 1 < |w| ==> RunsAfter(w, j, c, i + 1) == RunsAfter(w, j, c, i) + [w[j + i]]
    ensures j + i + 1 == |w| ==> RunsAfter(w, j, c + 1, 0) == RunsAfter(w, j, c, i) + [w[j + i]]
  {
    assert w[j..j + i + 1] == w[j..j + i] + [w[j + i]];
    assert j + i + 1 == |w| ==> w[j..] == w[j..j + i + 1];
  }

  lemma StepAlongLoop(g: Graph, cancelled: nat -> bool, x: Walk, w: seq<Id>, j: nat, c: nat, i: nat)
    returns (x': Walk)
    requires Undisturbed(g, cancelled) && FirstEdgeWalk(g, w)
    requires AtLoop(x, w, j, c, i) && j + i + 1 < |w|
    ensures Turn(g, cancelled, x) == Running(x') && AtLoop(x', w, j, c, i + 1)
  {
    UndisturbedTurn(g, cancelled, x);
    assert FirstLeadsTo(g, w[j + i], w[j + i + 1]);
    x' := Turn(g, cancelled, x).walk;
    IdsExtend(x.visits, x'.visits[|x.visits|]);
    RunsExtend(w, j, c, i);
  }

  /** An allowed loop-back pops the stack to the edge's target and counts under the edge's key. */
  lemma FollowLoopBack(g: Graph, x: Walk, e: Edge, out: Data, j: nat)
    requires NoDuplicates(x.path) && j < |x.path| && x.path[j] == e.to && e.to in g.nodes
    requires KeyCount(x.loops, LoopKey(Hop(x.current, e.to))) < e.maxIterations
    ensures var p := Follow(g, x, e, out);
            var key := LoopKey(Hop(x.current, e.to));
            && p.Running? && p.walk.path == x.path[..j + 1] && p.walk.current == e.to
            && p.walk.visits == x.visits + [Visit(x.current, x.input, out)]
            && KeyCount(p.walk.loops, key) == KeyCount(x.loops, key) + 1
  {
    assert IndexOf(x.path, e.to) == j;
    var loops := x.loops + [Hop(x.current, e.to)];
    assert loops[..|loops| - 1] == x.loops;
  }

  lemma CloseLoop(g: Graph, cancelled: nat -> bool, x: Walk, w: seq<Id>, j: nat, c: nat)
    returns (x': Walk)
    requires Undisturbed(g, cancelled) && ClosesAt(g, w, j)
    requires AtLoop(x, w, j, c, |w| - j - 1) && c < ClosingLimit(g, w, j)
    ensures Turn(g, cancelled, x) == Running(x') && AtLoop(x', w, j, c + 1, 0)
  {
    UndisturbedTurn(g, cancelled, x);
    assert x.path == w;
    var out := g.nodes[x.current](|x.visits|, x.input).value;
    FollowLoopBack(g, x, EdgesFrom(g, x.current)[0], out, j);
    x' := Turn(g, cancelled, x).walk;
    IdsExtend(x.visits, Visit(x.current, x.input, out));
    RunsExtend(w, j, c, |w| - j - 1);
  }

  lemma RefuseLoop(g: Graph, cancelled: nat -> bool, x: Walk, w: seq<Id>, j: nat, c: nat)
    requires Undisturbed(g, cancelled) && ClosesAt(g, w, j)
    requires AtLoop(x, w, j, c, |w| - j - 1) && c == Max(0, ClosingLimit(g, w, j))
    ensures var p := Turn(g, cancelled, x);
            var k := ClosingLimit(g, w, j);
            && p.Halted?
            && Ids(p.visits) == RunsAfter(w, j, c, |w| - j - 1) + [w[|w| - 1]]
            && p.outcome == if k == 0 then CycleDetected(w[|w| - 1], w[j])
                            else MaxIterationsExceeded(w[|w| - 1], w[j], k)
  {
    UndisturbedTurn(g, cancelled, x);
    assert x.path == w;
    assert Ids(Turn(g, cancelled, x).visits) == Ids(x.visits) + [w[|w| - 1]];
  }

  lemma {:induction false} RestOfRound(g: Graph, cancelled: nat -> bool, input: Data, walks: iset<Walk>, x: Walk,
                                       w: seq<Id>, j: nat, c: nat, i: nat)
    returns (x': Walk)
    requires Undisturbed(g, cancelled) && AllProgress(g, cancelled, input, walks) && FirstEdgeWalk(g, w)
    requires x in walks && AtLoop(x, w, j, c, i)
    ensures x' in walks && AtLoop(x', w, j, c, |w| - j - 1)
    decreases |w| - i
  {
    if j + i == |w| - 1 {
      return x;
    }
    var next := StepAlongLoop(g, cancelled, x, w, j, c, i);
    x' := RestOfRound(g, cancelled, input, walks, next, w, j, c, i + 1);
  }

  lemma FirstRound(g: Graph, cancelled: nat -> bool, input: Data, walks: iset<Walk>, w: seq<Id>, j: nat)
    returns (x: Walk)
    requires Undisturbed(g, cancelled) && AllProgress(g, cancelled, input, walks) && FirstEdgeWalk(g, w) && j < |w|
    requires Walk([g.start], g.start, input, [], []) in walks
    ensures x in walks && AtLoop(x, w, j, 0, |w| - j - 1)
  {
    x := FirstPass(g, cancelled, input, walks, w, |w| - 1);
    assert w[..|w| - 1] == RunsAfter(w, j, 0, |w| - j - 1);
  }

  /** Every allowed round is completed; the walk then stands at the last node of the loop. */
  lemma {:induction false} Rounds(g: Graph, cancelled: nat -> bool, input: Data, walks: iset<Walk>,
                                  w: seq<Id>, j: nat, c: nat)
    returns (x: Walk)
    requires Undisturbed(g, cancelled) && AllProgress(g, cancelled, input, walks) && ClosesAt(g, w, j)
    requires Walk([g.start], g.start, input, [], []) in walks
    requires c > 0 ==> c <= ClosingLimit(g, w, j)
    ensures x in walks && AtLoop(x, w, j, c, |w| - j - 1)
  {
    if c == 0 {
      x := FirstRound(g, cancelled, input, walks, w, j);
    } else {
      var before := Rounds(g, cancelled, input, walks, w, j, c - 1);
      var next := CloseLoop(g, cancelled, before, w, j, c - 1);
      x := RestOfRound(g, cancelled, input, walks, next, w, j, c, 0);
    }
  }

  /** No first edge at the end of the walk: success after running each of its nodes once. */
  lemma StraightRun(g: Graph, cancelled: nat -> bool, input: Data, w: seq<Id>)
    requires Undisturbed(g, cancelled) && LongestFirstEdgeWalk(g, w)
    requires EdgesFrom(g, w[|w| - 1]) == []
    ensures var p := After(g, cancelled, input, RunBound(g));
            && p.Halted? && Ids(p.visits) == w
            && p.outcome == Success(p.visits[|w| - 1].output)
  {
    var walks := RunWalks(g, cancelled, input);
    var x := FirstPass(g, cancelled, input, walks, w, |w| - 1);
    UndisturbedTurn(g, cancelled, x);
    IdsExtend(x.visits, Turn(g, cancelled, x).visits[|w| - 1]);
  }

  /**
   * The walk's last edge returns to position `j`. With limit zero the run stops at once; with any
   * other limit `k` it makes `max(k, 0)` further rounds of the loop and is then refused the next.
   */
  lemma LoopingRun(g: Graph, cancelled: nat -> bool, input: Data, w: seq<Id>, j: nat)
    requires Undisturbed(g, cancelled) && ClosesAt(g, w, j)
    ensures var p := After(g, cancelled, input, RunBound(g));
            var k := ClosingLimit(g, w, j);
            && p.Halted?
            && Ids(p.visits) == w + Repeat(w[j..], Max(k, 0))
            && |p.visits| == |w| + Max(k, 0) * (|w| - j)
            && p.outcome == if k == 0 then CycleDetected(w[|w| - 1], w[j])
                            else MaxIterationsExceeded(w[|w| - 1], w[j], k)
  {
    var c := Max(0, ClosingLimit(g, w, j));
    var walks := RunWalks(g, cancelled, input);
    var x := Rounds(g, cancelled, input, walks, w, j, c);
    RefuseLoop(g, cancelled, x, w, j, c);
    RoundsRotate(w, j, c);
    assert |Ids(Turn(g, cancelled, x).visits)| == |Turn(g, cancelled, x).visits|;
  }

  /** Rounds before the last, unfinished one read the same as rounds after the first pass. */
  lemma {:induction false} RoundsRotate(w: seq<Id>, j: nat, c: nat)
    requires j < |w|
    ensures RunsAfter(w, j, c, |w| - j - 1) + [w[|w| - 1]] == w + Repeat(w[j..], c)
    ensures |w + Repeat(w[j..], c)| == |w| + c * (|w| - j)
  {
    RepeatLength(w[j..], c);
    var loop := w[j..];
    assert w[j..|w| - 1] + [w[|w| - 1]] == loop;
    RepeatCommutes(loop, c);
    assert w[..j] + loop == w;
    assert RunsAfter(w, j, c, |w| - j - 1) + [w[|w| - 1]] == w[..j] + (Repeat(loop, c) + loop);
    assert w[..j] + (loop + Repeat(loop, c)) == w + Repeat(loop, c);
  }

  lemma {:induction false} RepeatCommutes<T>(s: seq<T>, k: nat)
    ensures Repeat(s, k) + s == s + Repeat(s, k)
  {
    if k > 0 {
      RepeatCommutes(s, k - 1);
      assert s + (Repeat(s, k - 1) + s) == (s + Repeat(s, k - 1)) + s;
    } else {
      assert Repeat(s, k) + s == s == s + Repeat(s, k);
    }
  }
}
