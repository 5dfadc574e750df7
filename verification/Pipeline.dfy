/**
 From the input file to the output files: the built network meets what process
 needs, so no lookup of it fails, and what process found is written so that
 every regulation model a connection leads to is declared.
 */
module Pipeline {
  import opened Wrappers
  import opened Reachability
  import opened Network
  import opened NetworkLaws
  import opened NetworkManager
  import opened Generators
  import opened Hvdc
  import opened HvdcLaws
  import opened HvdcOutputLaws
  import opened DynModels
  import opened Dyd
  import opened WriterLaws
  import opened ContextProcess

  // ---------------------------------------------------------------------------
  // The built network meets what process needs

  /** The context is built from the network of the input file; Dynawo answers
      with buses of the voltage level it is asked about. */
  ghost predicate BuiltFrom(inp: Inputs, data: NetworkData) {
    && WellFormed(data) && KnownBuses(data.voltageLevels) != {}
    && inp.nodes == BuildNodes(inp.env, data)
    && inp.levelNodes == LevelNodes(data.voltageLevels)
    && inp.generatorBuses == CountAll(map[], RegulatedBuses(AllGenerators(inp.env, data.voltageLevels)))
    && inp.vscBuses == CountAll(map[], VscRegulatedBuses(inp.env, ConnectedHvdc(data.hvdcLines)))
    && NoDuplicates(inp.order) && Elements(inp.order) == inp.nodes.Keys
    && (inp.fileSlackNode.Some? ==> inp.fileSlackNode.value in inp.nodes)
    && forall id <- inp.nodes :: AnswersInLevel(inp, inp.nodes[id])
  }

  ghost predicate AnswersInLevel(inp: Inputs, n: NodeRecord) {
    n.voltageLevel in inp.levelNodes ==>
      forall id <- inp.env.busesConnectedBySwitch(n.id, n.voltageLevel) ::
        id in inp.levelNodes[n.voltageLevel] && id in inp.nodes
  }

  lemma {:induction false} LevelOfBus(levels: seq<VoltageLevelData>, b: Bus)
    requires b in AllBuses(levels) && LevelsWellFormed(levels)
    ensures b.level.id in LevelNodes(levels)
    ensures b.id in LevelNodes(levels)[b.level.id]
    decreases |levels|
  {
    var n := |levels| - 1;
    if b in BusesOf(levels[n]) {
      var i :| 0 <= i < |BusesOf(levels[n])| && BusesOf(levels[n])[i] == b;
    } else {
      LevelOfBus(levels[..n], b);
      LevelIdIsEarlier(levels[..n], b.level.id);
    }
  }

  lemma {:induction false} LevelIdIsEarlier(levels: seq<VoltageLevelData>, id: Id)
    requires id in LevelNodes(levels)
    ensures exists i :: 0 <= i < |levels| && levels[i].id == id
    decreases |levels|
  {
    if levels[|levels| - 1].id != id {
      LevelIdIsEarlier(levels[..|levels| - 1], id);
    }
  }

  lemma {:induction false} GeneratorsAtMembers(gens: seq<Generator>, n: Id)
    ensures forall g <- GeneratorsAt(gens, n) :: g in gens && g.connectedBusId == n
    decreases |gens|
  {
    if gens != [] {
      GeneratorsAtMembers(gens[..|gens| - 1], n);
    }
  }

  lemma {:induction false} ConnectedHvdcMembers(data: seq<HvdcData>)
    ensures forall l <- ConnectedHvdc(data) :: exists d :: d in data && d.line == l
    decreases |data|
  {
    if data != [] {
      var n := |data| - 1;
      ConnectedHvdcMembers(data[..n]);
      assert data[n] in data && forall d <- data[..n] :: d in data;
    }
  }

  lemma {:induction false} ConnectedHvdcUnique(data: seq<HvdcData>)
    requires forall d <- data :: d.line.Valid()
    requires forall i, j :: 0 <= i < j < |data| ==> data[i].line.id != data[j].line.id
    ensures UniqueLines(ConnectedHvdc(data))
    decreases |data|
  {
    if data != [] {
      var n := |data| - 1;
      ConnectedHvdcUnique(data[..n]);
      var before, last := ConnectedHvdc(data[..n]), data[n].line;
      assert data[n] in data;
      forall l <- before ensures l.id != last.id {
        ConnectedHvdcMembers(data[..n]);
        var d :| d in data[..n] && d.line == l;
        var i :| 0 <= i < n && data[..n][i] == d;
        assert data[i] == d;
      }
    }
  }

  /** The regulating map knows the bus of every kept generator, so the lookup of
      the generator algorithm never fails; and it says ONE exactly for a bus that
      a single kept generator regulates. */
  lemma KeptGeneratorsAreCounted(env: Services, data: NetworkData, g: Generator)
    requires g in AllGenerators(env, data.voltageLevels)
    ensures var gens := AllGenerators(env, data.voltageLevels);
            var m := CountAll(map[], RegulatedBuses(gens));
            && g.regulatedBusId in m
            && (m[g.regulatedBusId] == ONE <==> multiset(RegulatedBuses(gens))[g.regulatedBusId] == 1)
  {
    var gens := AllGenerators(env, data.voltageLevels);
    CountAllCounts(RegulatedBuses(gens));
    var i :| 0 <= i < |gens| && gens[i] == g;
    assert RegulatedBuses(gens)[i] == g.regulatedBusId;
    assert g.regulatedBusId in multiset(RegulatedBuses(gens));
  }

  lemma BuiltNodeLevel(inp: Inputs, data: NetworkData, id: Id)
    requires BuiltFrom(inp, data) && id in inp.nodes
    ensures inp.nodes[id].id == id
    ensures inp.nodes[id].voltageLevel in inp.levelNodes && inp.levelNodes[inp.nodes[id].voltageLevel] != []
  {
    var b := BusOfNode(inp.env, data, id);
    LevelOfBus(data.voltageLevels, b);
  }

  lemma BuiltNodeGenerators(inp: Inputs, data: NetworkData, id: Id)
    requires BuiltFrom(inp, data) && id in inp.nodes
    ensures forall g <- inp.nodes[id].generators :: g.regulatedBusId in inp.generatorBuses
  {
    var b := BusOfNode(inp.env, data, id);
    GeneratorsAtMembers(AllGenerators(inp.env, data.voltageLevels), id);
    forall g <- inp.nodes[id].generators ensures g.regulatedBusId in inp.generatorBuses {
      KeptGeneratorsAreCounted(inp.env, data, g);
    }
  }

  lemma BuiltNodeStations(inp: Inputs, data: NetworkData, id: Id)
    requires BuiltFrom(inp, data) && id in inp.nodes
    ensures inp.nodes[id].converters == StationsAt(StationsOf(ConnectedHvdc(data.hvdcLines)), id)
    ensures StationsValid(inp.nodes[id].converters)
  {
    var lines := ConnectedHvdc(data.hvdcLines);
    var b := BusOfNode(inp.env, data, id);
    StationsAtFilters(StationsOf(lines), id);
    ConnectedHvdcMembers(data.hvdcLines);
    forall s <- inp.nodes[id].converters
      ensures s.line.Valid() && (s.converter == s.line.converter1 || s.converter == s.line.converter2)
    {
      StationsOfMembers(lines, s);
      var d :| d in data.hvdcLines && d.line == s.line;
      assert HvdcWellFormed(KnownBuses(data.voltageLevels), d);
    }
  }

  lemma BuiltNodeIsValid(inp: Inputs, data: NetworkData, id: Id)
    requires BuiltFrom(inp, data) && id in inp.nodes
    ensures inp.nodes[id].id == id && inp.NodeValid(inp.nodes[id])
  {
    BuiltNodeLevel(inp, data, id);
    BuiltNodeGenerators(inp, data, id);
    BuiltNodeStations(inp, data, id);
    assert AnswersInLevel(inp, inp.nodes[id]);
  }

  /** Every network that was built is one process can work on. */
  lemma BuiltInputsAreValid(inp: Inputs, data: NetworkData)
    requires BuiltFrom(inp, data)
    ensures inp.Valid()
  {
    BuildDescribes(inp.env, data);
    BuiltGraphIsSymmetric(inp.env, data);
    forall id <- inp.nodes ensures inp.nodes[id].id == id && inp.NodeValid(inp.nodes[id]) {
      BuiltNodeIsValid(inp, data, id);
    }
    assert inp.order == [] ==> Elements(inp.order) == {};
  }

  /** There are such networks: the smallest has a single bus. */
  lemma SingleBus(env: Services, vl: VoltageLevelData, choices: Choices)
    requires |vl.buses| == 1 && vl.generators == [] && vl.switches == []
    requires forall id <- env.busesConnectedBySwitch(vl.buses[0], vl.id) :: id == vl.buses[0]
    requires choices.fileSlackNode.Some? ==> choices.fileSlackNode.value == vl.buses[0]
    ensures var data := NetworkData([vl], [], [], [], []);
            BuiltFrom(InputsOf(env, data, choices, vl.buses), data)
  {
    var data := NetworkData([vl], [], [], [], []);
    var inp := InputsOf(env, data, choices, vl.buses);
    assert data.voltageLevels[..0] == [] && KnownBuses([]) == {};
    assert KnownBuses(data.voltageLevels) == Elements(vl.buses) == {vl.buses[0]};
    BuildDescribes(env, data);
    var b := BusOfNode(env, data, vl.buses[0]);
    LevelOfBus(data.voltageLevels, b);
    assert LevelNodes(data.voltageLevels) == map[vl.id := vl.buses];
  }

  /** Every well formed input with a bus makes such a network, whatever the order of
      the walk, if no bus is connected by switches. */
  lemma InputsAreBuilt(env: Services, data: NetworkData, choices: Choices, order: seq<Id>)
    requires WellFormed(data) && order != [] && NoDuplicates(order) && Elements(order) == KnownBuses(data.voltageLevels)
    requires forall bus, level :: env.busesConnectedBySwitch(bus, level) == []
    requires choices.fileSlackNode.Some? ==> choices.fileSlackNode.value in order
    ensures BuiltFrom(InputsOf(env, data, choices, order), data)
  {
    BuildDescribes(env, data);
    var inp := InputsOf(env, data, choices, order);
    assert order[0] in Elements(order);
    forall id <- inp.nodes ensures AnswersInLevel(inp, inp.nodes[id]) {
    }
  }

  // ---------------------------------------------------------------------------
  // The HVDC definitions of a built network

  lemma MainStationsOnBuses(inp: Inputs, data: NetworkData, ids: seq<Id>)
    requires BuiltFrom(inp, data) && NoDuplicates(ids) && forall u <- ids :: u in inp.nodes
    ensures NoDuplicates(IdsOf(inp.Records(ids))) && IdsOf(inp.Records(ids)) == ids
    ensures UniqueLines(ConnectedHvdc(data.hvdcLines))
    ensures OnTheirBuses(inp.Records(ids), ConnectedHvdc(data.hvdcLines))
  {
    var records := inp.Records(ids);
    forall d <- data.hvdcLines ensures d.line.Valid() {
      assert HvdcWellFormed(KnownBuses(data.voltageLevels), d);
    }
    ConnectedHvdcUnique(data.hvdcLines);
    forall k | 0 <= k < |ids|
      ensures records[k].id == ids[k]
      ensures records[k].converters == StationsAt(StationsOf(ConnectedHvdc(data.hvdcLines)), records[k].id)
    {
      assert ids[k] in ids;
      BuiltNodeLevel(inp, data, ids[k]);
      BuiltNodeStations(inp, data, ids[k]);
    }
    assert IdsOf(records) == ids;
  }

  /** End to end: the position and the model of every HVDC line of the input file
      follow from which of its converters' buses are in the main component. */
  lemma HvdcLinesOfTheNetwork(inp: Inputs, data: NetworkData, l: HvdcLine)
    requires BuiltFrom(inp, data) && l in ConnectedHvdc(data.hvdcLines)
    ensures inp.Valid()
    ensures l.id in WalkedOn(inp, MainOf(inp)).hvdcLines
       <==> l.converter1.busId in MainOf(inp) || l.converter2.busId in MainOf(inp)
    ensures l.id in WalkedOn(inp, MainOf(inp)).hvdcLines ==>
              WalkedOn(inp, MainOf(inp)).hvdcLines[l.id]
              == Placed(inp.HvdcConfig(), l, PositionAmong(MainOf(inp), l))
  {
    BuiltInputsAreValid(inp, data);
    var main := MainOf(inp);
    MainStationsOnBuses(inp, data, main);
    LinesArePlaced(inp.HvdcConfig(), inp.Records(main), ConnectedHvdc(data.hvdcLines), l);
  }

  // ---------------------------------------------------------------------------
  // Regulation models

  /** A VRRemote model of this id is declared. */
  ghost predicate DeclaresVRRemote(d: Definition, id: Id) {
    exists m :: m in FileModels(d) && m.id == id && m.lib == "VRRemote"
  }

  lemma VRRemoteDeclared(d: Definition, b: Id)
    requires b in d.busesWithDynamicModel || b in d.vscBuses
    ensures DeclaresVRRemote(d, NQ_PREFIX + b)
  {
    InMapSeq(WriteVRRemote, d.busesWithDynamicModel, WriteVRRemote(b));
    InMapSeq(WriteVRRemote, d.vscBuses, WriteVRRemote(b));
    assert WriteVRRemote(b) in FileModels(d);
  }

  lemma {:induction false} InFlatMap<S, T>(f: S -> seq<T>, s: seq<S>, y: T)
    requires y in FlatMap(f, s)
    ensures exists x :: x in s && y in f(x)
    decreases |s|
  {
    var n := |s| - 1;
    if y in FlatMap(f, s[..n]) {
      InFlatMap(f, s[..n], y);
    } else {
      assert s[n] in s;
    }
  }

  lemma HvdcNQLeadsToModel(d: Definition, l: HVDCDefinition, c: Connect)
    requires l in d.hvdcLines && forall b :: ConnectsNQ(l, b) ==> b in d.vscBuses
    requires c in WriteHvdcLineConnect(l) && c.var2 == "vrremote_NQ"
    ensures DeclaresVRRemote(d, c.model2)
  {
    assert "hvdc_terminal1"[0] == 'h' && "hvdc_terminal2"[0] == 'h';
    var bus1 := if l.position == SECOND_IN_MAIN_COMPONENT then l.converter2BusId else l.converter1BusId;
    var bus := if c == Connect(l.id, "hvdc_NQ1_value", NQ_PREFIX + bus1, "vrremote_NQ") then bus1 else l.converter2BusId;
    assert c.model1 == l.id && c.model2 == NQ_PREFIX + bus;
    assert ConnectsNQ(l, bus);
    VRRemoteDeclared(d, bus);
  }

  lemma GenNQLeadsToModel(d: Definition, m: map<Id, Id>, g: GeneratorDefinition, c: Connect)
    requires MapsFirstProp(d.generators, m) && Elements(d.busesWithDynamicModel) == m.Keys
    requires g in d.generators && c in WriteGenConnect(g) && c.var2 == "vrremote_NQ"
    ensures DeclaresVRRemote(d, c.model2)
  {
    EndsWithUValue(g.regulatedBusId);
    assert g.IsProp() && g.regulatedBusId in m.Keys;
    assert g.regulatedBusId in Elements(d.busesWithDynamicModel);
    VRRemoteDeclared(d, g.regulatedBusId);
  }

  /** Every connection to the NQ variable of a regulation model leads to a model
      the file declares: of generators, since the bus map has the regulated bus
      of each PROP generator, and of HVDC lines, since the VSC bus map has each
      bus they connect. */
  lemma NQConnectionsLeadToModels(d: Definition, m: map<Id, Id>, c: Connect)
    requires MapsFirstProp(d.generators, m) && Elements(d.busesWithDynamicModel) == m.Keys
    requires forall l, b :: l in d.hvdcLines && ConnectsNQ(l, b) ==> b in d.vscBuses
    requires c in FileConnects(d) && c.var2 == "vrremote_NQ"
    ensures DeclaresVRRemote(d, c.model2)
  {
    NoOtherNQ(d, c);
    if c in FlatMap(WriteHvdcLineConnect, d.hvdcLines) {
      InFlatMap(WriteHvdcLineConnect, d.hvdcLines, c);
      var l :| l in d.hvdcLines && c in WriteHvdcLineConnect(l);
      HvdcNQLeadsToModel(d, l, c);
    } else {
      InFlatMap(WriteGenConnect, d.generators, c);
      var g :| g in d.generators && c in WriteGenConnect(g);
      GenNQLeadsToModel(d, m, g, c);
    }
  }

  lemma EndsWithUValue(b: Id)
    ensures b + "_U_value" != "vrremote_NQ" && b + "_phi" != "vrremote_NQ"
  {
    var s, t := b + "_U_value", b + "_phi";
    assert s[|s| - 1] == 'e' && t[|t| - 1] == 'i';
    assert "vrremote_NQ"[10] == 'Q';
  }

  lemma NoOtherNQ(d: Definition, c: Connect)
    requires c in FileConnects(d) && c.var2 == "vrremote_NQ"
    ensures c in FlatMap(WriteHvdcLineConnect, d.hvdcLines) || c in FlatMap(WriteGenConnect, d.generators)
  {
    EndsWithUValue(d.slackNode);
    if c in FlatMap(WriteVRRemoteConnect, d.busesWithDynamicModel) {
      InFlatMap(WriteVRRemoteConnect, d.busesWithDynamicModel, c);
      var b :| b in d.busesWithDynamicModel && c in WriteVRRemoteConnect(b);
      EndsWithUValue(b);
    }
    if c in FlatMap(WriteVRRemoteConnect, d.vscBuses) {
      InFlatMap(WriteVRRemoteConnect, d.vscBuses, c);
      var b :| b in d.vscBuses && c in WriteVRRemoteConnect(b);
      EndsWithUValue(b);
    }
  }

  /** What the context hands to the writers, once process has succeeded. */
  ghost predicate HandsOver(inp: Inputs, m: map<Id, Id>, d: Definition)
    requires inp.Valid()
  {
    var h := WalkedOn(inp, MainOf(inp));
    && d.generators == EmittedOn(inp, MainOf(inp)) && MapsFirstProp(d.generators, m)
    && Elements(d.busesWithDynamicModel) == m.Keys && NoDuplicates(d.busesWithDynamicModel)
    && Elements(d.vscBuses) == h.vscBuses.Keys && NoDuplicates(d.vscBuses)
    && NoDuplicates(LineIds(d.hvdcLines))
    && forall l :: l in d.hvdcLines <==> exists id :: id in h.hvdcLines && h.hvdcLines[id] == l
  }

  /** End to end: in the DYD file of a built network, no NQ connection dangles. */
  lemma NoNQConnectionDangles(inp: Inputs, data: NetworkData, m: map<Id, Id>, d: Definition, c: Connect)
    requires BuiltFrom(inp, data) && inp.Valid() && HandsOver(inp, m, d)
    requires c in FileConnects(d) && c.var2 == "vrremote_NQ"
    ensures DeclaresVRRemote(d, c.model2)
  {
    var main, lines := MainOf(inp), ConnectedHvdc(data.hvdcLines);
    var cfg, records := inp.HvdcConfig(), inp.Records(main);
    MainStationsOnBuses(inp, data, main);
    forall l, b | l in d.hvdcLines && ConnectsNQ(l, b) ensures b in d.vscBuses {
      var id :| id in WalkedOn(inp, main).hvdcLines && WalkedOn(inp, main).hvdcLines[id] == l;
      MetStations(records, lines);
      OnlyLinesMet(cfg, StationsOn(records), id);
      var s :| s in StationsOn(records) && s.line.id == id;
      VscBusesAreConnected(cfg, records, lines, b);
      assert SomeLineConnects(cfg, records, lines, b);
      assert b in Elements(d.vscBuses);
    }
    NQConnectionsLeadToModels(d, m, c);
  }

  // ---------------------------------------------------------------------------
  // The launcher

  /** What the user chooses. */
  datatype Choices = Choices(
    fileSlackNode: Option<Id>,
    automaticSlackBus: bool,
    infiniteReactiveLimits: bool,
    doc: AssemblingDocument,
    libraryExists: string -> bool)

  /** The inputs of the context for a network; order is the order of its walk. */
  function InputsOf(env: Services, data: NetworkData, choices: Choices, order: seq<Id>): Inputs {
    Inputs(env, BuildNodes(env, data), order, LevelNodes(data.voltageLevels),
           CountAll(map[], RegulatedBuses(AllGenerators(env, data.voltageLevels))),
           CountAll(map[], VscRegulatedBuses(env, ConnectedHvdc(data.hvdcLines))),
           choices.fileSlackNode, choices.automaticSlackBus, choices.infiniteReactiveLimits, choices.doc,
           choices.libraryExists)
  }

  /** Builds the network, then processes it. */
  method Launch(env: Services, data: NetworkData, choices: Choices, order: seq<Id>)
    returns (context: ContextProcess.Context, ok: bool)
    requires BuiltFrom(InputsOf(env, data, choices, order), data)
    ensures context.inp == InputsOf(env, data, choices, order) && context.inp.Valid()
    ensures var inp := context.inp;
            && SlackProcessed(inp, context.mainConnexNodes, context.slackNodeOrigin, context.slackNode)
            && MainProcessed(inp, context.mainConnexNodes, context.slackNode.value, context.generators,
                             context.busesWithDynamicModel, context.hvdcLineDefinitions, ok)
    ensures ModelsProcessed(context.inp, context.dynamicModels, context.usedMacroConnections, context.nbShunts)
    ensures context.slackNodeOrigin == FILE <==> choices.fileSlackNode.Some? && !choices.automaticSlackBus
  {
    var manager := new NetworkManager(env);
    manager.BuildTree(data);
    var inp := Inputs(env, manager.View(), order, manager.levelNodes, manager.mapBusGeneratorsBusId,
                      manager.mapBusVSCConvertersBusId, choices.fileSlackNode, choices.automaticSlackBus,
                      choices.infiniteReactiveLimits, choices.doc, choices.libraryExists);
    assert inp == InputsOf(env, data, choices, order);
    BuiltInputsAreValid(inp, data);
    context := new ContextProcess.Context(inp);
    ok := context.Process();
  }
}
