/** GeneratorDefinitionAlgorithm: the generators of the main component and their models. */
module Generators {
  import opened Reachability
  import opened Network

  datatype ModelType =
    | SIGNALN
    | DIAGRAM_PQ_SIGNALN
    | REMOTE_SIGNALN
    | REMOTE_DIAGRAM_PQ_SIGNALN
    | PROP_SIGNALN
    | PROP_DIAGRAM_PQ_SIGNALN

  datatype GeneratorDefinition = GeneratorDefinition(
    id: Id, model: ModelType, nodeId: Id, points: seq<Point>,
    qmin: real, qmax: real, pmin: real, pmax: real, targetP: real, regulatedBusId: Id)
  {
    predicate IsUsingDiagram() {
      model == DIAGRAM_PQ_SIGNALN || model == REMOTE_DIAGRAM_PQ_SIGNALN || model == PROP_DIAGRAM_PQ_SIGNALN
    }

    predicate IsProp() {
      model == PROP_SIGNALN || model == PROP_DIAGRAM_PQ_SIGNALN
    }
  }

  // ---------------------------------------------------------------------------
  // Validity of a reactive diagram

  /** A diagram is usable if its points, or without points its limits, span both
      active and reactive power; one point alone never does. */
  ghost predicate DiagramValid(env: Services, g: Generator) {
    if g.points == [] then !env.doubleEquals(g.pmin, g.pmax) && !env.doubleEquals(g.qmin, g.qmax)
    else
      && |g.points| != 1
      && (exists p :: p in g.points && p.qmin != p.qmax)
      && (exists p :: p in g.points && p.p != g.points[0].p)
  }

  method IsDiagramValid(env: Services, g: Generator) returns (valid: bool)
    ensures valid <==> DiagramValid(env, g)
  {
    if g.points == [] {
      if env.doubleEquals(g.pmin, g.pmax) {
        return false;
      }
      if env.doubleEquals(g.qmin, g.qmax) {
        return false;
      }
      return true;
    }
    if |g.points| == 1 {
      return false;
    }
    var firstP := g.points[0].p;
    var allQminEqualQmax, allPEqual := true, true;
    var k := 0;
    while (allQminEqualQmax || allPEqual) && k < |g.points|
      invariant 0 <= k <= |g.points|
      invariant allQminEqualQmax <==> forall p <- g.points[..k] :: p.qmin == p.qmax
      invariant allPEqual <==> forall p <- g.points[..k] :: p.p == firstP
    {
      assert g.points[..k + 1] == g.points[..k] + [g.points[k]];
      allQminEqualQmax := allQminEqualQmax && g.points[k].qmin == g.points[k].qmax;
      allPEqual := allPEqual && g.points[k].p == firstP;
      k := k + 1;
    }
    assert g.points[..|g.points|] == g.points;
    valid := !allQminEqualQmax && !allPEqual;
  }

  // ---------------------------------------------------------------------------
  // Models

  datatype Context = Context(
    env: Services,
    infiniteReactiveLimits: bool,
    busMap: BusMapRegulating,
    nodes: Nodes,
    levelNodes: map<Id, seq<Id>>)

  /** The service only returns buses of the voltage level it is asked about. */
  ghost predicate ServiceAnswers(ctx: Context, node: NodeRecord) {
    && node.voltageLevel in ctx.levelNodes
    && forall id <- ctx.env.busesConnectedBySwitch(node.id, node.voltageLevel) ::
         id in ctx.levelNodes[node.voltageLevel] && id in ctx.nodes
  }

  ghost predicate OtherGeneratorBySwitches(ctx: Context, node: NodeRecord)
    requires ServiceAnswers(ctx, node)
  {
    exists id :: id in ctx.env.busesConnectedBySwitch(node.id, node.voltageLevel) && ctx.nodes[id].generators != []
  }

  method IsOtherGeneratorConnectedBySwitches(ctx: Context, node: NodeRecord) returns (found: bool)
    requires ServiceAnswers(ctx, node)
    ensures found <==> OtherGeneratorBySwitches(ctx, node)
  {
    var buses := ctx.env.busesConnectedBySwitch(node.id, node.voltageLevel);
    if |buses| == 0 {
      return false;
    }
    for k := 0 to |buses|
      invariant forall id <- buses[..k] :: ctx.nodes[id].generators == []
    {
      if |ctx.nodes[buses[k]].generators| != 0 {
        assert buses[k] in buses;
        return true;
      }
      assert buses[..k + 1] == buses[..k] + [buses[k]];
    }
    assert buses[..|buses|] == buses;
    return false;
  }

  /** The model a generator of a node gets. */
  ghost function ModelOf(ctx: Context, node: NodeRecord, g: Generator): ModelType
    requires ServiceAnswers(ctx, node) && g.regulatedBusId in ctx.busMap
  {
    var prop := if ctx.infiniteReactiveLimits then PROP_SIGNALN else PROP_DIAGRAM_PQ_SIGNALN;
    if |node.generators| == 1 && OtherGeneratorBySwitches(ctx, node) then prop
    else
      match ctx.busMap[g.regulatedBusId]
      case ONE =>
        if g.regulatedBusId == g.connectedBusId then
          if ctx.infiniteReactiveLimits then SIGNALN else DIAGRAM_PQ_SIGNALN
        else
          if ctx.infiniteReactiveLimits then REMOTE_SIGNALN else REMOTE_DIAGRAM_PQ_SIGNALN
      case MULTIPLES => prop
  }

  ghost function DefinitionOf(ctx: Context, node: NodeRecord, g: Generator): GeneratorDefinition
    requires ServiceAnswers(ctx, node) && g.regulatedBusId in ctx.busMap
  {
    GeneratorDefinition(g.id, ModelOf(ctx, node, g), node.id, g.points, g.qmin, g.qmax, g.pmin, g.pmax, g.targetP,
                        g.regulatedBusId)
  }

  /** A generator is left to the default model when its diagram would be needed
      and is not usable. */
  ghost predicate IsEmitted(ctx: Context, node: NodeRecord, g: Generator)
    requires ServiceAnswers(ctx, node) && g.regulatedBusId in ctx.busMap
  {
    DefinitionOf(ctx, node, g).IsUsingDiagram() ==> DiagramValid(ctx.env, g)
  }

  ghost predicate Usable(ctx: Context, node: NodeRecord) {
    ServiceAnswers(ctx, node) && forall g <- node.generators :: g.regulatedBusId in ctx.busMap
  }

  /** The definitions emitted for the first k generators of a node. */
  ghost function EmittedUpTo(ctx: Context, node: NodeRecord, k: nat): seq<GeneratorDefinition>
    requires Usable(ctx, node) && k <= |node.generators|
  {
    if k == 0 then []
    else
      EmittedUpTo(ctx, node, k - 1)
      + Only(IsEmitted(ctx, node, node.generators[k - 1]), [DefinitionOf(ctx, node, node.generators[k - 1])])
  }

  ghost function Emitted(ctx: Context, nodes: seq<NodeRecord>): seq<GeneratorDefinition>
    requires forall n <- nodes :: Usable(ctx, n)
  {
    if nodes == [] then []
    else
      var node := nodes[|nodes| - 1];
      Emitted(ctx, nodes[..|nodes| - 1]) + EmittedUpTo(ctx, node, |node.generators|)
  }

  /** The map of buses to the first emitted generator with a PROP model on them. */
  ghost predicate MapsFirstProp(defs: seq<GeneratorDefinition>, m: map<Id, Id>) {
    && (forall d <- defs :: d.IsProp() ==> d.regulatedBusId in m)
    && (forall b <- m :: exists k :: FirstProp(defs, k, b, m[b]))
  }

  ghost predicate FirstProp(defs: seq<GeneratorDefinition>, k: int, bus: Id, gen: Id) {
    && 0 <= k < |defs| && defs[k].IsProp() && defs[k].regulatedBusId == bus && defs[k].id == gen
    && forall j :: 0 <= j < k ==> !(defs[j].IsProp() && defs[j].regulatedBusId == bus)
  }

  lemma AddDefinition(defs: seq<GeneratorDefinition>, m: map<Id, Id>, d: GeneratorDefinition)
    requires MapsFirstProp(defs, m)
    ensures MapsFirstProp(defs + [d], if d.IsProp() && d.regulatedBusId !in m then m[d.regulatedBusId := d.id] else m)
  {
    var after := if d.IsProp() && d.regulatedBusId !in m then m[d.regulatedBusId := d.id] else m;
    forall b <- after ensures exists k :: FirstProp(defs + [d], k, b, after[b]) {
      if b in m {
        var k :| FirstProp(defs, k, b, m[b]);
        assert FirstProp(defs + [d], k, b, after[b]);
      } else {
        assert FirstProp(defs + [d], |defs|, b, after[b]) by {
          forall j | 0 <= j < |defs| ensures !(defs[j].IsProp() && defs[j].regulatedBusId == b) {
            assert defs[j] in defs;
          }
        }
      }
    }
  }

  lemma {:induction false} EmittedUpToHolds(ctx: Context, node: NodeRecord, k: nat, i: nat)
    requires Usable(ctx, node) && i < k <= |node.generators| && IsEmitted(ctx, node, node.generators[i])
    ensures DefinitionOf(ctx, node, node.generators[i]) in EmittedUpTo(ctx, node, k)
  {
    if i < k - 1 {
      EmittedUpToHolds(ctx, node, k - 1, i);
    }
  }

  /** What is emitted for a generator of a node is there after the walk. */
  lemma {:induction false} EmittedHolds(ctx: Context, nodes: seq<NodeRecord>, node: NodeRecord, i: nat)
    requires (forall n <- nodes :: Usable(ctx, n)) && node in nodes && Usable(ctx, node)
    requires i < |node.generators| && IsEmitted(ctx, node, node.generators[i])
    ensures DefinitionOf(ctx, node, node.generators[i]) in Emitted(ctx, nodes)
    decreases |nodes|
  {
    var n := |nodes| - 1;
    if nodes[n] == node {
      EmittedUpToHolds(ctx, node, |node.generators|, i);
    } else {
      EmittedHolds(ctx, nodes[..n], node, i);
    }
  }

  lemma OneMoreEmitted(ctx: Context, node: NodeRecord, k: nat, first: seq<GeneratorDefinition>,
                       before: seq<GeneratorDefinition>)
    requires Usable(ctx, node) && k < |node.generators| && before == first + EmittedUpTo(ctx, node, k)
    ensures var g := node.generators[k];
            before + Only(IsEmitted(ctx, node, g), [DefinitionOf(ctx, node, g)]) == first + EmittedUpTo(ctx, node, k + 1)
  {
  }

  class GeneratorDefinitionAlgorithm {
    const ctx: Context
    var generators: seq<GeneratorDefinition>
    var busesWithDynamicModel: map<Id, Id>

    constructor (ctx: Context)
      ensures this.ctx == ctx && generators == [] && busesWithDynamicModel == map[]
    {
      this.ctx := ctx;
      generators, busesWithDynamicModel := [], map[];
    }

    method Visit(node: NodeRecord)
      requires Usable(ctx, node) && MapsFirstProp(generators, busesWithDynamicModel)
      modifies this
      ensures generators == old(generators) + EmittedUpTo(ctx, node, |node.generators|)
      ensures MapsFirstProp(generators, busesWithDynamicModel)
    {
      for k := 0 to |node.generators|
        invariant generators == old(generators) + EmittedUpTo(ctx, node, k)
        invariant MapsFirstProp(generators, busesWithDynamicModel)
      {
        ghost var before := generators;
        VisitGenerator(node, node.generators[k]);
        OneMoreEmitted(ctx, node, k, old(generators), before);
      }
    }

    method VisitGenerator(node: NodeRecord, g: Generator)
      requires Usable(ctx, node) && g in node.generators && MapsFirstProp(generators, busesWithDynamicModel)
      modifies this
      ensures generators == old(generators) + Only(IsEmitted(ctx, node, g), [DefinitionOf(ctx, node, g)])
      ensures MapsFirstProp(generators, busesWithDynamicModel)
    {
      var nbOfRegulatingGenerators := ctx.busMap[g.regulatedBusId];
      var model := SIGNALN;
      var bySwitches := false;
      if |node.generators| == 1 {
        bySwitches := IsOtherGeneratorConnectedBySwitches(ctx, node);
      }
      var validDiagram := IsDiagramValid(ctx.env, g);
      ghost var d := DefinitionOf(ctx, node, g);
      AddDefinition(generators, busesWithDynamicModel, d);
      if |node.generators| == 1 && bySwitches {
        model := if ctx.infiniteReactiveLimits then PROP_SIGNALN else PROP_DIAGRAM_PQ_SIGNALN;
        if (model == PROP_DIAGRAM_PQ_SIGNALN ==> validDiagram) && g.regulatedBusId !in busesWithDynamicModel {
          busesWithDynamicModel := busesWithDynamicModel[g.regulatedBusId := g.id];
        }
      } else {
        match nbOfRegulatingGenerators {
          case ONE =>
            if g.regulatedBusId == g.connectedBusId {
              model := if ctx.infiniteReactiveLimits then SIGNALN else DIAGRAM_PQ_SIGNALN;
            } else {
              model := if ctx.infiniteReactiveLimits then REMOTE_SIGNALN else REMOTE_DIAGRAM_PQ_SIGNALN;
            }
          case MULTIPLES =>
            model := if ctx.infiniteReactiveLimits then PROP_SIGNALN else PROP_DIAGRAM_PQ_SIGNALN;
            if (model == PROP_DIAGRAM_PQ_SIGNALN ==> validDiagram) && g.regulatedBusId !in busesWithDynamicModel {
              busesWithDynamicModel := busesWithDynamicModel[g.regulatedBusId := g.id];
            }
        }
      }
      if model in {DIAGRAM_PQ_SIGNALN, REMOTE_DIAGRAM_PQ_SIGNALN, PROP_DIAGRAM_PQ_SIGNALN} && !validDiagram {
        return;
      }
      generators := generators + [GeneratorDefinition(g.id, model, node.id, g.points, g.qmin, g.qmax, g.pmin, g.pmax,
                                                      g.targetP, g.regulatedBusId)];
    }
  }
}
