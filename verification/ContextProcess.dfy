/** Context: the algorithms on all nodes, the checks, and the algorithms on the
    main component. */
module ContextProcess {
  import opened Wrappers
  import opened Reachability
  import opened Connexity
  import opened Network
  import opened Slack
  import opened Generators
  import opened Hvdc
  import opened HvdcLaws
  import opened MacroConnections
  import opened DynModels
  import opened DynModelLaws
  import opened Shunts

  datatype SlackNodeOrigin = FILE | ALGORITHM

  /** What the context is built from: the network, in the order walkNodes takes,
      the two documents, and the configuration. */
  datatype Inputs = Inputs(
    env: Services,
    nodes: Nodes,
    order: seq<Id>,
    levelNodes: map<Id, seq<Id>>,
    generatorBuses: BusMapRegulating,
    vscBuses: BusMapRegulating,
    fileSlackNode: Option<Id>,
    automaticSlackBus: bool,
    infiniteReactiveLimits: bool,
    doc: AssemblingDocument,
    libraryExists: string -> bool)
  {
    function Records(ids: seq<Id>): seq<NodeRecord> {
      seq(|ids|, i requires 0 <= i < |ids| => if ids[i] in nodes then nodes[ids[i]] else NoRecord())
    }

    function NoRecord(): NodeRecord {
      NodeRecord([], [], 0.0, [], [], [], [], [], [])
    }

    function GeneratorContext(): Generators.Context {
      Generators.Context(env, infiniteReactiveLimits, generatorBuses, nodes, levelNodes)
    }

    function HvdcConfig(): Config {
      Config(infiniteReactiveLimits, vscBuses)
    }

    /** What holds of every network that was built: it is not empty, the walk
        visits each node once, its graph is symmetric, and every list of a node
        leads to known elements. */
    ghost predicate Valid() {
      && order != [] && NoDuplicates(order) && Elements(order) == nodes.Keys
      && Symmetric(GraphOf(nodes))
      && (forall id <- nodes :: nodes[id].id == id)
      && (forall id <- nodes :: NodeValid(nodes[id]))
      && (fileSlackNode.Some? ==> fileSlackNode.value in nodes)
    }

    ghost predicate NodeValid(n: NodeRecord) {
      && n.voltageLevel in levelNodes && levelNodes[n.voltageLevel] != []
      && Usable(GeneratorContext(), n)
      && StationsValid(n.converters)
    }
  }

  // ---------------------------------------------------------------------------
  // Filtering

  /** Every macro connection the automaton requires is among the connections. */
  predicate FullyConnected(a: DynamicAutomaton, conns: seq<MacroConnection>) {
    forall m <- a.macroConnects :: exists c :: c in conns && c.id == m.macroConnection
  }

  /** Exactly the models all of whose automatons are fully connected are kept,
      unchanged. */
  ghost predicate KeepsConnected(before: DynModels.Models, after: DynModels.Models, automatons: seq<DynamicAutomaton>) {
    && (forall id <- after :: id in before && after[id] == before[id])
    && (forall id <- before ::
          id in after <==> forall a <- automatons :: a.id == id ==> FullyConnected(a, before[id].nodeConnections))
  }

  method FindConnection(conns: seq<MacroConnection>, macro: Id) returns (found: bool)
    ensures found <==> exists c :: c in conns && c.id == macro
  {
    for k := 0 to |conns|
      invariant forall c <- conns[..k] :: c.id != macro
    {
      if conns[k].id == macro {
        assert conns[k] in conns;
        return true;
      }
      assert conns[..k + 1] == conns[..k] + [conns[k]];
    }
    assert conns[..|conns|] == conns;
    return false;
  }

  method FilterPartiallyConnectedDynamicModels(before: DynModels.Models, automatons: seq<DynamicAutomaton>)
    returns (models: DynModels.Models)
    ensures KeepsConnected(before, models, automatons)
  {
    models := before;
    for k := 0 to |automatons|
      invariant KeepsConnected(before, models, automatons[..k])
    {
      var a := automatons[k];
      assert automatons[..k + 1] == automatons[..k] + [a];
      if a.id in models {
        var complete := IsFullyConnected(a, models[a.id].nodeConnections);
        if !complete {
          models := models - {a.id};
        }
      }
    }
    assert automatons[..|automatons|] == automatons;
  }

  method IsFullyConnected(a: DynamicAutomaton, conns: seq<MacroConnection>) returns (complete: bool)
    ensures complete <==> FullyConnected(a, conns)
  {
    for k := 0 to |a.macroConnects|
      invariant forall m <- a.macroConnects[..k] :: exists c :: c in conns && c.id == m.macroConnection
    {
      var found := FindConnection(conns, a.macroConnects[k].macroConnection);
      if !found {
        assert a.macroConnects[k] in a.macroConnects;
        return false;
      }
      assert a.macroConnects[..k + 1] == a.macroConnects[..k] + [a.macroConnects[k]];
    }
    assert a.macroConnects[..|a.macroConnects|] == a.macroConnects;
    return true;
  }

  // ---------------------------------------------------------------------------
  // The walk over all nodes

  lemma VisitedPrefix(inp: Inputs, k: nat)
    requires inp.Valid() && k < |inp.order|
    ensures inp.order[k] in inp.nodes && forall u <- inp.order[..k + 1] :: u in inp.nodes
    ensures inp.order[..k + 1][..k] == inp.order[..k]
    ensures inp.Records(inp.order[..k + 1]) == inp.Records(inp.order[..k]) + [inp.nodes[inp.order[k]]]
    ensures inp.Records(inp.order[..k + 1])[..k] == inp.Records(inp.order[..k])
  {
    assert inp.order[k] in Elements(inp.order);
    forall u <- inp.order[..k + 1] ensures u in inp.nodes {
      assert u in Elements(inp.order);
    }
  }

  // NetworkManager::walkNodes calls every callback on every node. The callbacks
  // share no state, so each is given here with a walk of its own.

  method WalkSlackOn(records: seq<NodeRecord>) returns (slackNode: Option<NodeRecord>)
    ensures IsSlack(records, slackNode)
  {
    var slack := new SlackNodeAlgorithm();
    for k := 0 to |records|
      invariant IsSlack(records[..k], slack.slackNode)
    {
      assert records[..k + 1] == records[..k] + [records[k]];
      slack.Visit(records[..k], records[k]);
    }
    assert records[..|records|] == records;
    return slack.slackNode;
  }

  method WalkComponent(inp: Inputs) returns (main: seq<Id>)
    requires inp.Valid()
    ensures forall u <- inp.order :: u in inp.nodes
    ensures main == Walk(GraphOf(inp.nodes), inp.order).main
  {
    OrderIsKnown(inp);
    main := WalkGraph(GraphOf(inp.nodes), inp.order);
  }

  method WalkDynModels(inp: Inputs) returns (models: DynModels.Models, used: set<Id>)
    requires inp.Valid()
    ensures models == WalkedModels(inp.doc, inp.libraryExists, inp.Records(inp.order), inp.levelNodes)
    ensures used == WalkUsed(Extract(inp.doc, inp.libraryExists, inp.doc.dynamicAutomatons).connects,
                             inp.Records(inp.order))
  {
    var dyn := new DynModelAlgorithm(inp.doc, inp.libraryExists, inp.levelNodes);
    ghost var automatons, connects := dyn.dynamicAutomatonsById, dyn.connects;
    for k := 0 to |inp.order|
      invariant dyn.levelNodes == inp.levelNodes && dyn.Valid()
      invariant dyn.dynamicAutomatonsById == automatons && dyn.connects == connects
      invariant dyn.models
             == AddAll(automatons, map[], WalkEvents(connects, inp.levelNodes, inp.Records(inp.order[..k])))
      invariant dyn.usedMacroConnections == WalkUsed(connects, inp.Records(inp.order[..k]))
    {
      VisitedPrefix(inp, k);
      var node := inp.nodes[inp.order[k]];
      AddMore(automatons, map[], WalkEvents(connects, inp.levelNodes, inp.Records(inp.order[..k])),
              NodeEvents(connects, inp.levelNodes, node));
      assert inp.NodeValid(node);
      dyn.Visit(node);
    }
    assert inp.order[..|inp.order|] == inp.order;
    return dyn.models, dyn.usedMacroConnections;
  }

  method WalkShunts(inp: Inputs) returns (nbShunts: map<Id, nat>)
    requires inp.Valid()
    ensures Counts(nbShunts, inp.Records(inp.order))
  {
    var shunts := new ShuntCounterAlgorithm();
    for k := 0 to |inp.order|
      invariant Counts(shunts.nbShunts, inp.Records(inp.order[..k]))
    {
      VisitedPrefix(inp, k);
      shunts.Visit(inp.Records(inp.order[..k]), inp.nodes[inp.order[k]]);
    }
    assert inp.order[..|inp.order|] == inp.order;
    return shunts.nbShunts;
  }

  // ---------------------------------------------------------------------------
  // The walk over the main component

  method WalkGenerators(ctx: Generators.Context, nodes: seq<NodeRecord>)
    returns (generators: seq<GeneratorDefinition>, busesWithDynamicModel: map<Id, Id>)
    requires forall n <- nodes :: Usable(ctx, n)
    ensures generators == Emitted(ctx, nodes) && MapsFirstProp(generators, busesWithDynamicModel)
  {
    var algo := new GeneratorDefinitionAlgorithm(ctx);
    for k := 0 to |nodes|
      invariant algo.ctx == ctx && forall n <- nodes[..k] :: Usable(ctx, n)
      invariant algo.generators == Emitted(ctx, nodes[..k])
      invariant MapsFirstProp(algo.generators, algo.busesWithDynamicModel)
    {
      assert nodes[..k + 1][..k] == nodes[..k] && nodes[..k + 1] == nodes[..k] + [nodes[k]];
      algo.Visit(nodes[k]);
    }
    assert nodes[..|nodes|] == nodes;
    return algo.generators, algo.busesWithDynamicModel;
  }

  lemma {:induction false} VisitMore(cfg: Config, d: Definitions, s: seq<Station>, t: seq<Station>)
    requires StationsValid(s) && StationsValid(t)
    ensures VisitStations(cfg, d, s + t) == VisitStations(cfg, VisitStations(cfg, d, s), t)
    decreases |t|
  {
    if t == [] {
      assert s + t == s;
    } else {
      VisitMore(cfg, d, s, t[..|t| - 1]);
      assert (s + t)[..|s + t| - 1] == s + t[..|t| - 1];
    }
  }

  method WalkHvdc(cfg: Config, nodes: seq<NodeRecord>) returns (definitions: Definitions)
    requires forall n <- nodes :: StationsValid(n.converters)
    ensures StationsValid(StationsOn(nodes)) && definitions == Walked(cfg, nodes)
  {
    var algo := new HVDCDefinitionAlgorithm(cfg);
    for k := 0 to |nodes|
      invariant algo.cfg == cfg && StationsValid(StationsOn(nodes[..k]))
      invariant algo.View() == Walked(cfg, nodes[..k])
    {
      assert nodes[..k + 1][..k] == nodes[..k];
      VisitMore(cfg, NOTHING, StationsOn(nodes[..k]), nodes[k].converters);
      algo.Visit(nodes[k]);
    }
    assert nodes[..|nodes|] == nodes;
    return Definitions(algo.hvdcLines, algo.vscBusVSCDefinitionsMap);
  }

  // ---------------------------------------------------------------------------
  // The context

  lemma MainIsKnown(inp: Inputs, main: seq<Id>)
    requires inp.Valid() && (forall u <- inp.order :: u in inp.nodes) && main == Walk(GraphOf(inp.nodes), inp.order).main
    ensures main != [] && NoDuplicates(main)
    ensures forall u <- main :: u in inp.nodes && u in inp.order
  {
    var g := GraphOf(inp.nodes);
    assert g.Keys == inp.nodes.Keys;
    MainIsLargestComponent(g, inp.order);
    var u :| u in g && Elements(main) == Component(g, u);
    ComponentIsClosed(g, u);
    assert u in Elements(main);
    forall v <- main ensures v in inp.nodes && v in inp.order {
      assert v in Elements(main) && v in Component(g, u);
      assert v in Elements(inp.order);
    }
  }

  /** The slack node is one of the given nodes, and none of them is higher. */
  ghost predicate HighestIn(inp: Inputs, ids: seq<Id>, slack: NodeRecord) {
    && slack.id in ids && slack.id in inp.nodes && slack == inp.nodes[slack.id]
    && forall id <- ids :: id in inp.nodes ==> NoneHigher(slack, inp.nodes[id])
  }

  lemma SlackOfRecords(inp: Inputs, ids: seq<Id>, slack: Option<NodeRecord>)
    requires inp.Valid() && ids != [] && (forall u <- ids :: u in inp.nodes) && IsSlack(inp.Records(ids), slack)
    ensures slack.Some? && HighestIn(inp, ids, slack.value)
  {
    var records := inp.Records(ids);
    assert |records| == |ids|;
    var k: nat :| FirstHighest(records, k) && records[k] == slack.value;
    assert ids[k] in ids && slack.value.id == ids[k];
    forall id <- ids ensures NoneHigher(slack.value, inp.nodes[id]) {
      var j :| 0 <= j < |ids| && ids[j] == id;
      assert records[j] == inp.nodes[id];
    }
  }

  /** A slack node of the whole network that lies in the component is highest there. */
  lemma StillHighest(inp: Inputs, main: seq<Id>, slack: NodeRecord)
    requires Known(inp, main) && IsSlack(inp.Records(inp.order), Some(slack))
    requires slack.id in main && HighestIn(inp, inp.order, slack)
    ensures HighestIn(inp, main, slack)
  {
    forall id <- main ensures inp.nodes[id] in inp.Records(inp.order) {
      assert id in Elements(inp.order);
      var k :| 0 <= k < |inp.order| && inp.order[k] == id;
      assert inp.Records(inp.order)[k] == inp.nodes[id];
    }
    HighestAmongFewer(inp.Records(inp.order), slack, seq(|main|, i requires 0 <= i < |main| => inp.nodes[main[i]]));
    forall id <- main ensures NoneHigher(slack, inp.nodes[id]) {
      var i :| 0 <= i < |main| && main[i] == id;
      assert inp.nodes[main[i]] == seq(|main|, j requires 0 <= j < |main| => inp.nodes[main[j]])[i];
    }
  }

  ghost predicate Known(inp: Inputs, ids: seq<Id>) {
    inp.Valid() && forall u <- ids :: u in inp.nodes
  }

  /** The generators emitted on some nodes. */
  ghost function EmittedOn(inp: Inputs, ids: seq<Id>): seq<GeneratorDefinition>
    requires Known(inp, ids)
  {
    RecordsAreValid(inp, ids);
    Emitted(inp.GeneratorContext(), inp.Records(ids))
  }

  /** The HVDC definitions on some nodes. */
  ghost function WalkedOn(inp: Inputs, ids: seq<Id>): Definitions
    requires Known(inp, ids)
  {
    RecordsAreValid(inp, ids);
    Walked(inp.HvdcConfig(), inp.Records(ids))
  }

  lemma RecordsAreValid(inp: Inputs, ids: seq<Id>)
    requires Known(inp, ids)
    ensures forall n <- inp.Records(ids) :: Usable(inp.GeneratorContext(), n) && StationsValid(n.converters)
    ensures StationsValid(StationsOn(inp.Records(ids)))
  {
    forall n <- inp.Records(ids) ensures inp.NodeValid(n) {
      var i :| 0 <= i < |ids| && inp.Records(ids)[i] == n;
      assert ids[i] in ids;
    }
    StationsOnValid(inp.Records(ids));
  }

  /** The main component of the network. */
  ghost function MainOf(inp: Inputs): (main: seq<Id>)
    requires inp.Valid()
    ensures main != [] && NoDuplicates(main) && Known(inp, main)
  {
    OrderIsKnown(inp);
    var main := Walk(GraphOf(inp.nodes), inp.order).main;
    MainIsKnown(inp, main);
    main
  }

  /** The main component of the network is one whole component, the first of the
      largest in the order of the walk. */
  lemma MainOfIsLargest(inp: Inputs)
    requires inp.Valid()
    ensures var g, main := GraphOf(inp.nodes), MainOf(inp);
            && IsFirstLargest(g, inp.order, main)
            && (exists u :: u in g && Elements(main) == Component(g, u))
            && (forall u <- g :: |Component(g, u)| <= |main|)
  {
    OrderIsKnown(inp);
    MainIsLargestComponent(GraphOf(inp.nodes), inp.order);
    WalkFindsFirstLargest(GraphOf(inp.nodes), inp.order);
  }

  lemma OrderIsKnown(inp: Inputs)
    requires inp.Valid()
    ensures forall u <- inp.order :: u in inp.nodes
  {
    assert forall u <- inp.order :: u in Elements(inp.order);
  }

  /** What process leaves of the dynamic models and the shunt counts. */
  ghost predicate ModelsProcessed(inp: Inputs, models: DynModels.Models, used: set<Id>, nbShunts: map<Id, nat>)
  {
    && KeepsConnected(WalkedModels(inp.doc, inp.libraryExists, inp.Records(inp.order), inp.levelNodes), models,
                      inp.doc.dynamicAutomatons)
    && used == WalkUsed(Extract(inp.doc, inp.libraryExists, inp.doc.dynamicAutomatons).connects, inp.Records(inp.order))
    && Counts(nbShunts, inp.Records(inp.order))
  }

  /** The direct scan gives the model a connection through the macro connection. */
  ghost predicate WantedThrough(inp: Inputs, id: Id, macro: Id) {
    exists c :: Wanted(inp.doc, inp.libraryExists, inp.Records(inp.order), inp.levelNodes, id, c) && c.id == macro
  }

  ghost predicate HasThrough(conns: seq<MacroConnection>, macro: Id) {
    exists c :: c in conns && c.id == macro
  }

  /** The walked models of the inputs. */
  function ModelsOf(inp: Inputs): DynModels.Models {
    WalkedModels(inp.doc, inp.libraryExists, inp.Records(inp.order), inp.levelNodes)
  }

  ghost predicate KeysDiffer(inp: Inputs, id: Id) {
    WantedKeysDiffer(inp.doc, inp.libraryExists, inp.Records(inp.order), inp.levelNodes, id)
  }

  lemma WantedThroughExactly(inp: Inputs, id: Id, macro: Id)
    requires KeysDiffer(inp, id) && id in ModelsOf(inp)
    ensures WantedThrough(inp, id, macro) <==> HasThrough(ModelsOf(inp)[id].nodeConnections, macro)
  {
    forall c
      ensures c in ModelsOf(inp)[id].nodeConnections
         <==> Wanted(inp.doc, inp.libraryExists, inp.Records(inp.order), inp.levelNodes, id, c)
    {
      WalkIsExact(inp.doc, inp.libraryExists, inp.Records(inp.order), inp.levelNodes, id, c);
    }
  }

  lemma WalkedIfWanted(inp: Inputs, id: Id)
    ensures id in ModelsOf(inp) <==> exists macro :: WantedThrough(inp, id, macro)
  {
    WalkIsDirectScan(inp.doc, inp.libraryExists, inp.Records(inp.order), inp.levelNodes, id);
    if c :| Wanted(inp.doc, inp.libraryExists, inp.Records(inp.order), inp.levelNodes, id, c) {
      assert WantedThrough(inp, id, c.id);
    }
  }

  /** A model is left exactly if the direct scan gives it some connection, and one
      through each macro connection that an automaton with its id requires; provided
      no two connections it gives share a key. */
  lemma KeptIfWanted(inp: Inputs, models: DynModels.Models, used: set<Id>, nbShunts: map<Id, nat>, id: Id)
    requires ModelsProcessed(inp, models, used, nbShunts) && KeysDiffer(inp, id)
    ensures id in models
       <==> && (exists macro :: WantedThrough(inp, id, macro))
            && (forall a, m :: a in inp.doc.dynamicAutomatons && a.id == id && m in a.macroConnects ==>
                  WantedThrough(inp, id, m.macroConnection))
  {
    WalkedIfWanted(inp, id);
    if id in ModelsOf(inp) {
      var conns := ModelsOf(inp)[id].nodeConnections;
      forall a: DynamicAutomaton
        ensures FullyConnected(a, conns) <==> forall m <- a.macroConnects :: WantedThrough(inp, id, m.macroConnection)
      {
        forall m <- a.macroConnects
          ensures WantedThrough(inp, id, m.macroConnection) <==> HasThrough(conns, m.macroConnection)
        {
          WantedThroughExactly(inp, id, m.macroConnection);
        }
      }
    }
  }

  /** A slack node in the component stays; another one is replaced by the first
      that is highest there. */
  ghost predicate Repaired(inp: Inputs, main: seq<Id>, before: NodeRecord, after: NodeRecord) {
    if before.id in main then after == before else IsSlack(inp.Records(main), Some(after))
  }

  /** The slack node is the first highest of all nodes, repaired. */
  ghost predicate ComputedSlack(inp: Inputs, main: seq<Id>, slack: NodeRecord) {
    exists before :: IsSlack(inp.Records(inp.order), Some(before)) && Repaired(inp, main, before, slack)
  }

  /** What process leaves of the main component, and of the slack node in it. */
  ghost predicate SlackProcessed(inp: Inputs, main: seq<Id>, origin: SlackNodeOrigin, slackNode: Option<NodeRecord>) {
    && Known(inp, main) && main == MainOf(inp) && slackNode.Some?
    && (origin == ALGORITHM ==> ComputedSlack(inp, main, slackNode.value) && HighestIn(inp, main, slackNode.value))
  }

  /** What the walk over the main component finds, when the slack node is in it. */
  ghost predicate MainProcessed(inp: Inputs, main: seq<Id>, slackNode: NodeRecord, gens: seq<GeneratorDefinition>,
                                busesWithDynamicModel: map<Id, Id>, definitions: Definitions, ok: bool)
    requires Known(inp, main)
  {
    && (ok <==> slackNode.id in main && EmittedOn(inp, main) != [])
    && (ok ==> gens == EmittedOn(inp, main) && MapsFirstProp(gens, busesWithDynamicModel))
    && (ok ==> definitions == WalkedOn(inp, main))
  }

  class Context {
    const inp: Inputs
    var slackNode: Option<NodeRecord>
    var slackNodeOrigin: SlackNodeOrigin
    var mainConnexNodes: seq<Id>
    var dynamicModels: DynModels.Models
    var usedMacroConnections: set<Id>
    var nbShunts: map<Id, nat>
    var generators: seq<GeneratorDefinition>
    var busesWithDynamicModel: map<Id, Id>
    var hvdcLineDefinitions: Definitions

    constructor (inp: Inputs)
      requires inp.Valid()
      ensures this.inp == inp && generators == []
      ensures slackNodeOrigin == FILE <==> inp.fileSlackNode.Some? && !inp.automaticSlackBus
      ensures slackNodeOrigin == FILE ==> slackNode == Some(inp.nodes[inp.fileSlackNode.value])
    {
      this.inp := inp;
      slackNode, slackNodeOrigin := None, ALGORITHM;
      if inp.fileSlackNode.Some? && !inp.automaticSlackBus {
        slackNode := Some(inp.nodes[inp.fileSlackNode.value]);
        slackNodeOrigin := FILE;
      }
      mainConnexNodes, dynamicModels, usedMacroConnections, nbShunts := [], map[], {}, map[];
      generators, busesWithDynamicModel, hvdcLineDefinitions := [], map[], NOTHING;
    }

    method CheckConnexity() returns (ok: bool)
      requires slackNode.Some?
      ensures ok <==> slackNode.value.id in mainConnexNodes
    {
      for k := 0 to |mainConnexNodes|
        invariant slackNode.value.id !in mainConnexNodes[..k]
      {
        if mainConnexNodes[k] == slackNode.value.id {
          return true;
        }
      }
      return false;
    }

    /** The slack node and the main component, from the walk over all nodes. */
    method FindSlackAndComponent()
      requires inp.Valid()
      modifies this`slackNode, this`mainConnexNodes
      ensures mainConnexNodes == MainOf(inp)
      ensures slackNodeOrigin == FILE ==> slackNode == old(slackNode)
      ensures slackNodeOrigin == ALGORITHM ==> IsSlack(inp.Records(inp.order), slackNode)
    {
      if slackNodeOrigin == ALGORITHM {
        slackNode := WalkSlackOn(inp.Records(inp.order));
      }
      mainConnexNodes := WalkComponent(inp);
    }

    /** The dynamic models and the shunt counts, from the same walk, and the check
        of the models. */
    method FindDynamicModels()
      requires inp.Valid()
      modifies this`dynamicModels, this`usedMacroConnections, this`nbShunts
      ensures ModelsProcessed(inp, dynamicModels, usedMacroConnections, nbShunts)
    {
      nbShunts := WalkShunts(inp);
      dynamicModels, usedMacroConnections := WalkDynModels(inp);
      dynamicModels := FilterPartiallyConnectedDynamicModels(dynamicModels, inp.doc.dynamicAutomatons);
    }

    /** Repairs a computed slack node outside the main component; a given one
        outside is an error. */
    method RepairSlackNode() returns (ok: bool)
      requires mainConnexNodes != [] && Known(inp, mainConnexNodes)
      requires slackNodeOrigin == FILE ==> slackNode.Some?
      requires slackNodeOrigin == ALGORITHM ==> IsSlack(inp.Records(inp.order), slackNode)
      modifies this`slackNode
      ensures slackNode.Some?
      ensures ok ==> slackNode.value.id in mainConnexNodes
      ensures slackNodeOrigin == FILE ==>
                slackNode == old(slackNode) && (ok <==> slackNode.value.id in mainConnexNodes)
      ensures slackNodeOrigin == ALGORITHM ==> ok && HighestIn(inp, mainConnexNodes, slackNode.value)
      ensures slackNodeOrigin == ALGORITHM ==>
                old(slackNode).Some? && Repaired(inp, mainConnexNodes, old(slackNode).value, slackNode.value)
    {
      if slackNodeOrigin == ALGORITHM {
        OrderIsKnown(inp);
        SlackOfRecords(inp, inp.order, slackNode);
      }
      var inside := CheckConnexity();
      if !inside {
        if slackNodeOrigin == FILE {
          return false;
        }
        slackNode := WalkSlackOn(inp.Records(mainConnexNodes));
        SlackOfRecords(inp, mainConnexNodes, slackNode);
      } else if slackNodeOrigin == ALGORITHM {
        StillHighest(inp, mainConnexNodes, slackNode.value);
      }
      return true;
    }

    /** The algorithms on the main component. */
    method ProcessMain()
      requires Known(inp, mainConnexNodes)
      modifies this`generators, this`busesWithDynamicModel, this`hvdcLineDefinitions
      ensures generators == EmittedOn(inp, mainConnexNodes) && MapsFirstProp(generators, busesWithDynamicModel)
      ensures hvdcLineDefinitions == WalkedOn(inp, mainConnexNodes)
    {
      RecordsAreValid(inp, mainConnexNodes);
      generators, busesWithDynamicModel := WalkGenerators(inp.GeneratorContext(), inp.Records(mainConnexNodes));
      hvdcLineDefinitions := WalkHvdc(inp.HvdcConfig(), inp.Records(mainConnexNodes));
    }

    method ProcessComponent() returns (ok: bool)
      requires inp.Valid() && (slackNodeOrigin == FILE ==> slackNode.Some?)
      modifies this`slackNode, this`mainConnexNodes, this`generators, this`busesWithDynamicModel
      modifies this`hvdcLineDefinitions
      ensures slackNodeOrigin == FILE ==> slackNode == old(slackNode)
      ensures SlackProcessed(inp, mainConnexNodes, slackNodeOrigin, slackNode)
      ensures MainProcessed(inp, mainConnexNodes, slackNode.value, generators, busesWithDynamicModel,
                            hvdcLineDefinitions, ok)
    {
      FindSlackAndComponent();
      var connected := RepairSlackNode();
      if !connected {
        return false;
      }
      ProcessMain();
      return generators != [];
    }

    /** Context::process. It succeeds exactly when the slack node was computed or
        the given one is in the main component, and a generator is found. */
    method Process() returns (ok: bool)
      requires inp.Valid() && (slackNodeOrigin == FILE ==> slackNode.Some?)
      modifies this
      ensures slackNodeOrigin == old(slackNodeOrigin)
      ensures slackNodeOrigin == FILE ==> slackNode == old(slackNode)
      ensures SlackProcessed(inp, mainConnexNodes, slackNodeOrigin, slackNode)
      ensures MainProcessed(inp, mainConnexNodes, slackNode.value, generators, busesWithDynamicModel,
                            hvdcLineDefinitions, ok)
      ensures ModelsProcessed(inp, dynamicModels, usedMacroConnections, nbShunts)
    {
      FindDynamicModels();
      assert ModelsProcessed(inp, dynamicModels, usedMacroConnections, nbShunts);
      ok := ProcessComponent();
      assert ModelsProcessed(inp, dynamicModels, usedMacroConnections, nbShunts);
      assert MainProcessed(inp, mainConnexNodes, slackNode.value, generators, busesWithDynamicModel,
                           hvdcLineDefinitions, ok);
    }
  }

  lemma {:induction false} StationsOnValid(nodes: seq<NodeRecord>)
    requires forall n <- nodes :: StationsValid(n.converters)
    ensures StationsValid(StationsOn(nodes))
    decreases |nodes|
  {
    if nodes != [] {
      StationsOnValid(nodes[..|nodes| - 1]);
      assert nodes[|nodes| - 1] in nodes;
    }
  }
}
