/** Building runtime graphs from their serialisable definitions. */
module GraphRegistry {
  import opened Common
  import opened GraphModel
  import opened GraphTheorems
  import opened GraphClosedForm

  datatype NodeDef = NodeDef(kind: string, params: Data)

  datatype EdgeDef = EdgeDef(to: Id, maxIterations: int)

  datatype GraphDef = GraphDef(start: Id, nodes: map<Id, NodeDef>, edges: map<Id, seq<EdgeDef>>)

  type Factory = (Id, NodeDef) -> Result<Behaviour, string>

  datatype BuildError =
    | NodeNotBuilt(id: Id, error: string)
    | StartNotDefined(start: Id)
    | TargetNotDefined(from: Id, to: Id)

  function NodeFor(factories: map<string, Factory>, id: Id, def: NodeDef): Result<Behaviour, string> {
    if def.kind in factories then factories[def.kind](id, def) else Err("graph: unknown node kind")
  }

  ghost predicate NodesBuild(factories: map<string, Factory>, gd: GraphDef) {
    forall id :: id in gd.nodes ==> NodeFor(factories, id, gd.nodes[id]).Ok?
  }

  ghost predicate TargetsDefined(gd: GraphDef) {
    forall src, ed :: src in gd.edges && ed in gd.edges[src] ==> ed.to in gd.nodes
  }

  ghost predicate Buildable(factories: map<string, Factory>, gd: GraphDef) {
    NodesBuild(factories, gd) && gd.start in gd.nodes && TargetsDefined(gd)
  }

  /** `es` is the list `defs` with the guards left out. */
  ghost predicate SameEdges(defs: seq<EdgeDef>, es: seq<Edge>) {
    && |es| == |defs|
    && forall i :: 0 <= i < |defs| ==> es[i] == Edge(defs[i].to, None, defs[i].maxIterations)
  }

  /** `g` has the defined nodes and, from every source, the defined edges in the defined order. */
  ghost predicate Realises(factories: map<string, Factory>, gd: GraphDef, g: Graph) {
    && g.start == gd.start
    && g.nodes.Keys == gd.nodes.Keys
    && (forall id :: id in gd.nodes ==> NodeFor(factories, id, gd.nodes[id]) == Ok(g.nodes[id]))
    && (forall src :: SameEdges(if src in gd.edges then gd.edges[src] else [], EdgesFrom(g, src)))
  }

  /** The error reported names a real fault, and faults are looked for in this order. */
  ghost predicate Explains(factories: map<string, Factory>, gd: GraphDef, e: BuildError) {
    match e
    case NodeNotBuilt(id, error) => id in gd.nodes && NodeFor(factories, id, gd.nodes[id]) == Err(error)
    case StartNotDefined(start) => NodesBuild(factories, gd) && start == gd.start && start !in gd.nodes
    case TargetNotDefined(from, to) =>
      && NodesBuild(factories, gd) && gd.start in gd.nodes
      && from in gd.edges && to !in gd.nodes && exists ed :: ed in gd.edges[from] && ed.to == to
  }

  class NodeRegistry {
    var factories: map<string, Factory>

    constructor ()
      ensures factories == map[]
    {
      factories := map[];
    }

    method Register(kind: string, factory: Factory)
      modifies this
      ensures factories == old(factories)[kind := factory]
    {
      factories := factories[kind := factory];
    }

    method Build(id: Id, def: NodeDef) returns (node: Result<Behaviour, string>)
      ensures node == NodeFor(factories, id, def)
    {
      if def.kind !in factories {
        return Err("graph: unknown node kind");
      }
      node := factories[def.kind](id, def);
    }

    method BuildNodes(gd: GraphDef) returns (r: Result<map<Id, Behaviour>, BuildError>)
      ensures r.Ok? <==> NodesBuild(factories, gd)
      ensures r.Ok? ==> r.value.Keys == gd.nodes.Keys
      ensures r.Ok? ==> forall id :: id in gd.nodes ==> NodeFor(factories, id, gd.nodes[id]) == Ok(r.value[id])
      ensures r.Err? ==> r.error.NodeNotBuilt? && Explains(factories, gd, r.error)
    {
      var nodes: map<Id, Behaviour> := map[];
      var rest := gd.nodes.Keys;
      while rest != {}
        invariant rest <= gd.nodes.Keys && nodes.Keys == gd.nodes.Keys - rest
        invariant forall id :: id in nodes ==> NodeFor(factories, id, gd.nodes[id]) == Ok(nodes[id])
        decreases rest
      {
        var id :| id in rest;
        var n := Build(id, gd.nodes[id]);
        if n.Err? {
          return Err(NodeNotBuilt(id, n.error));
        }
        nodes := nodes[id := n.value];
        rest := rest - {id};
      }
      return Ok(nodes);
    }

    /** The maps are walked in whatever order the choices make. */
    method BuildGraph(gd: GraphDef) returns (r: Result<Graph, BuildError>)
      ensures r.Ok? <==> Buildable(factories, gd)
      ensures r.Ok? ==> Realises(factories, gd, r.value)
      ensures r.Err? ==> Explains(factories, gd, r.error)
    {
      var built := BuildNodes(gd);
      if built.Err? {
        return Err(built.error);
      }
      var nodes := built.value;
      if gd.start !in nodes {
        return Err(StartNotDefined(gd.start));
      }
      var edges: map<Id, seq<Edge>> := map[];
      var rest := gd.edges.Keys;
      while rest != {}
        invariant rest <= gd.edges.Keys && edges.Keys <= gd.edges.Keys - rest
        invariant forall src :: src in gd.edges.Keys - rest ==>
                    && SameEdges(gd.edges[src], if src in edges then edges[src] else [])
                    && forall ed :: ed in gd.edges[src] ==> ed.to in gd.nodes
        decreases rest
      {
        var src :| src in rest;
        var es := BuildEdges(src, gd.edges[src], nodes);
        if es.Err? {
          return Err(es.error);
        }
        if es.value != [] {
          edges := edges[src := es.value];
        }
        rest := rest - {src};
      }
      r := Ok(Graph(nodes, edges, gd.start));
    }
  }

  /** The edges of one source, in order; they carry no guards. */
  method BuildEdges(src: Id, defs: seq<EdgeDef>, nodes: map<Id, Behaviour>) returns (r: Result<seq<Edge>, BuildError>)
    ensures r.Ok? <==> forall ed :: ed in defs ==> ed.to in nodes
    ensures r.Ok? ==> SameEdges(defs, r.value)
    ensures r.Err? ==> exists ed :: ed in defs && ed.to !in nodes && r.error == TargetNotDefined(src, ed.to)
  {
    var es: seq<Edge> := [];
    for i := 0 to |defs|
      invariant SameEdges(defs[..i], es)
      invariant forall ed :: ed in defs[..i] ==> ed.to in nodes
    {
      if defs[i].to !in nodes {
        assert defs[i] in defs;
        return Err(TargetNotDefined(src, defs[i].to));
      }
      es := es + [Edge(defs[i].to, None, defs[i].maxIterations)];
    }
    assert defs[..|defs|] == defs;
    return Ok(es);
  }

  /** Every node was made by the factory of its kind, from its own identifier and definition. */
  lemma NodesAreFactoryMade(factories: map<string, Factory>, gd: GraphDef, g: Graph, id: Id)
    requires Realises(factories, gd, g) && id in gd.nodes
    ensures id in g.nodes && gd.nodes[id].kind in factories
    ensures factories[gd.nodes[id].kind](id, gd.nodes[id]) == Ok(g.nodes[id])
  {
    assert NodeFor(factories, id, gd.nodes[id]) == Ok(g.nodes[id]);
  }

  /** A kind without a factory makes the definition unbuildable. */
  lemma UnknownKindFails(factories: map<string, Factory>, gd: GraphDef, id: Id)
    requires id in gd.nodes && gd.nodes[id].kind !in factories
    ensures !Buildable(factories, gd)
  {
  }

  /** What `BuildGraph` makes always satisfies what the closed form asks of a graph. */
  lemma BuiltGraphsAreWellFormed(factories: map<string, Factory>, gd: GraphDef, g: Graph)
    requires Buildable(factories, gd) && Realises(factories, gd, g)
    ensures WellFormed(g) && Unconditional(g)
  {
    forall u, e | e in EdgesFrom(g, u) ensures e.to in g.nodes && e.guard.None? {
      var defs := if u in gd.edges then gd.edges[u] else [];
      assert SameEdges(defs, EdgesFrom(g, u));
      var i :| 0 <= i < |defs| && EdgesFrom(g, u)[i] == e;
      assert defs[i] in defs;
    }
  }

  lemma TurnFindsNodes(g: Graph, cancelled: nat -> bool, w: Walk)
    requires WellFormed(g) && w.current in g.nodes
    ensures var p := Turn(g, cancelled, w); p.Halted? ==> !p.outcome.NodeNotFound?
  {
    if g.nodes[w.current](|w.visits|, w.input).Ok? {
      FirstEdgeMember(EdgesFrom(g, w.current), |w.visits|, g.nodes[w.current](|w.visits|, w.input).value);
    }
  }

  /** On a well-formed graph no run, whatever its guards, ends with `ErrNodeNotFound`. */
  lemma {:induction false} NeverNodeNotFound(g: Graph, cancelled: nat -> bool, input: Data, n: nat)
    requires WellFormed(g)
    ensures var p := After(g, cancelled, input, n); p.Halted? ==> !p.outcome.NodeNotFound?
  {
    if n > 0 {
      match After(g, cancelled, input, n - 1)
      case Halted(_, _) => NeverNodeNotFound(g, cancelled, input, n - 1);
      case Running(w) =>
        InvariantHolds(g, cancelled, input, n - 1);
        TurnFindsNodes(g, cancelled, w);
    }
  }
}
