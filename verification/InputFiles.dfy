/**
 The DYD file of a network in terms of the input: every model it declares and every
 connection it makes, and nothing else.
 */
module InputFiles {
  import opened Wrappers
  import opened Reachability
  import opened Network
  import opened InputLaws
  import opened Generators
  import opened Hvdc
  import opened HvdcOutputLaws
  import opened Dyd
  import opened WriterLaws
  import opened ConnectorLaws
  import opened ContextProcess
  import opened Pipeline
  import InputGenerators
  import InputLines

  // ---------------------------------------------------------------------------
  // Names of libraries

  function Word(condition: bool, word: string): string {
    if condition then word else ""
  }

  /** PQProp for a generator that shares a regulation, PVRemote for one that
      regulates another bus, PV otherwise. */
  function GeneratorName(shares: bool, remote: bool, diagram: bool): string {
    "GeneratorP" + (if shares then "QProp" else if remote then "VRemote" else "V") + Word(diagram, "DiagramPQ") + "SignalN"
  }

  /** The family of the model, then what else it is. */
  function HvdcName(lcc: bool, shared: bool, emulation: bool, dangling: bool, diagram: bool): string {
    "HvdcP" + (if lcc then "TanPhi" else if shared then "QProp" else "V")
    + Word(dangling, "Dangling") + Word(diagram, "DiagramPQ") + Word(emulation, "Emulation")
  }

  lemma LocalNames()
    ensures GeneratorName(false, false, false) == "GeneratorPVSignalN"
    ensures GeneratorName(false, false, true) == "GeneratorPVDiagramPQSignalN"
  {
  }

  lemma RemoteNames()
    ensures GeneratorName(false, true, false) == "GeneratorPVRemoteSignalN"
    ensures GeneratorName(false, true, true) == "GeneratorPVRemoteDiagramPQSignalN"
  {
  }

  lemma SharingNames(remote: bool)
    ensures GeneratorName(true, remote, false) == "GeneratorPQPropSignalN"
    ensures GeneratorName(true, remote, true) == "GeneratorPQPropDiagramPQSignalN"
  {
  }

  lemma GeneratorLibIs(g: GeneratorDefinition, shares: bool, remote: bool, diagram: bool)
    requires InputGenerators.ModelFits(g, shares, remote, diagram)
    ensures GeneratorLib(g.model) == GeneratorName(shares, remote, diagram)
  {
    if shares {
      SharingNames(remote);
    } else if remote {
      RemoteNames();
    } else {
      LocalNames();
    }
  }

  lemma PTanPhiNames(shared: bool)
    ensures HvdcName(true, shared, false, false, false) == "HvdcPTanPhi"
    ensures HvdcName(true, shared, false, true, false) == "HvdcPTanPhiDangling"
    ensures HvdcName(true, shared, false, false, true) == "HvdcPTanPhiDiagramPQ"
    ensures HvdcName(true, shared, false, true, true) == "HvdcPTanPhiDanglingDiagramPQ"
  {
  }

  lemma PQPropNames()
    ensures HvdcName(false, true, false, false, false) == "HvdcPQProp"
    ensures HvdcName(false, true, false, true, false) == "HvdcPQPropDangling"
    ensures HvdcName(false, true, false, false, true) == "HvdcPQPropDiagramPQ"
    ensures HvdcName(false, true, false, true, true) == "HvdcPQPropDanglingDiagramPQ"
    ensures HvdcName(false, true, true, false, false) == "HvdcPQPropEmulation"
    ensures HvdcName(false, true, true, false, true) == "HvdcPQPropDiagramPQEmulation"
  {
  }

  lemma PVNames()
    ensures HvdcName(false, false, false, false, false) == "HvdcPV"
    ensures HvdcName(false, false, false, true, false) == "HvdcPVDangling"
    ensures HvdcName(false, false, false, false, true) == "HvdcPVDiagramPQ"
    ensures HvdcName(false, false, false, true, true) == "HvdcPVDanglingDiagramPQ"
    ensures HvdcName(false, false, true, false, false) == "HvdcPVEmulation"
    ensures HvdcName(false, false, true, false, true) == "HvdcPVDiagramPQEmulation"
  {
  }

  lemma HvdcLibIs(h: HVDCDefinition, lcc: bool, shared: bool, emulation: bool, dangling: bool, diagram: bool)
    requires InputLines.ModelFits(h, lcc, shared, emulation, dangling, diagram)
    ensures HvdcLib(h.model) == HvdcName(lcc, shared, emulation, dangling, diagram)
  {
    if lcc {
      PTanPhiNames(shared);
    } else if shared {
      PQPropLibIs(h, emulation, dangling, diagram);
    } else {
      PVLibIs(h, emulation, dangling, diagram);
    }
  }

  lemma PQPropLibIs(h: HVDCDefinition, emulation: bool, dangling: bool, diagram: bool)
    requires InputLines.ModelFits(h, false, true, emulation, dangling, diagram)
    ensures HvdcLib(h.model) == HvdcName(false, true, emulation, dangling, diagram)
  {
    PQPropNames();
  }

  lemma PVLibIs(h: HVDCDefinition, emulation: bool, dangling: bool, diagram: bool)
    requires InputLines.ModelFits(h, false, false, emulation, dangling, diagram)
    ensures HvdcLib(h.model) == HvdcName(false, false, emulation, dangling, diagram)
  {
    PVNames();
  }

  // ---------------------------------------------------------------------------
  // One line

  /** The end of the model that is in the main component, the first if both are. */
  function InnerEnd(main: seq<Id>, l: HvdcLine): Converter {
    if l.converter1.busId in main then l.converter1 else l.converter2
  }

  function OuterEnd(main: seq<Id>, l: HvdcLine): Converter {
    if l.converter1.busId in main then l.converter2 else l.converter1
  }

  predicate BothInMain(main: seq<Id>, l: HvdcLine) {
    l.converter1.busId in main && l.converter2.busId in main
  }

  /** The line regulates with others, seen from the main component. */
  ghost predicate SharesBuses(inp: Inputs, data: NetworkData, main: seq<Id>, l: HvdcLine) {
    && l.converterType == VSC
    && InputLines.OnBusOfTwo(inp.env, ConnectedHvdc(data.hvdcLines), l, l.converter1.busId in main,
                             l.converter2.busId in main)
  }

  /** Terminal 1 of the model is the inner end, terminal 2 the outer; a line that
      regulates with others is connected to the models of the buses of its inner
      ends. */
  ghost predicate LineConnects(inp: Inputs, data: NetworkData, main: seq<Id>, l: HvdcLine, c: Connect) {
    || c == Connect(NETWORK, InnerEnd(main, l).busId + "_ACPIN", l.id, "hvdc_terminal1")
    || c == Connect(NETWORK, OuterEnd(main, l).busId + "_ACPIN", l.id, "hvdc_terminal2")
    || (&& SharesBuses(inp, data, main, l)
        && c == Connect(l.id, "hvdc_NQ1_value", "Model_Signal_NQ_" + InnerEnd(main, l).busId, "vrremote_NQ"))
    || (&& SharesBuses(inp, data, main, l) && BothInMain(main, l)
        && c == Connect(l.id, "hvdc_NQ2_value", "Model_Signal_NQ_" + OuterEnd(main, l).busId, "vrremote_NQ"))
  }

  lemma WrittenLineConnects(h: HVDCDefinition, c: Connect)
    ensures var second := h.position == SECOND_IN_MAIN_COMPONENT;
            var inner := if second then h.converter2BusId else h.converter1BusId;
            var outer := if second then h.converter1BusId else h.converter2BusId;
            c in WriteHvdcLineConnect(h) <==>
              || c == Connect(NETWORK, inner + "_ACPIN", h.id, "hvdc_terminal1")
              || c == Connect(NETWORK, outer + "_ACPIN", h.id, "hvdc_terminal2")
              || (h.HasPQPropModel() && c == Connect(h.id, "hvdc_NQ1_value", NQ_PREFIX + inner, "vrremote_NQ"))
              || (&& h.HasPQPropModel() && h.position == BOTH_IN_MAIN_COMPONENT
                  && c == Connect(h.id, "hvdc_NQ2_value", NQ_PREFIX + h.converter2BusId, "vrremote_NQ"))
  {
  }

  lemma LineIsConnected(inp: Inputs, data: NetworkData, main: seq<Id>, l: HvdcLine, h: HVDCDefinition, c: Connect)
    requires l.converter1.busId in main || l.converter2.busId in main
    requires InputLines.DefinesLine(inp, data, main, l, h)
    ensures c in WriteHvdcLineConnect(h) <==> LineConnects(inp, data, main, l, c)
  {
    WrittenLineConnects(h, c);
  }

  /** The model of a line of the input. */
  ghost predicate LineModel(inp: Inputs, data: NetworkData, main: seq<Id>, l: HvdcLine, x: Model) {
    && x.id == l.id && x.parId == Some(l.id)
    && x.lib == HvdcName(l.converterType == LCC, SharesBuses(inp, data, main, l),
                         l.converterType == VSC && l.droop.Some? && BothInMain(main, l), !BothInMain(main, l),
                         !inp.infiniteReactiveLimits)
  }

  lemma LineIsDeclared(inp: Inputs, data: NetworkData, main: seq<Id>, l: HvdcLine, h: HVDCDefinition, x: Model)
    requires InputLines.DefinesLine(inp, data, main, l, h)
    ensures x == WriteHvdcLine(h) <==> LineModel(inp, data, main, l, x)
  {
    var lines := ConnectedHvdc(data.hvdcLines);
    var in1, in2 := l.converter1.busId in main, l.converter2.busId in main;
    HvdcLibIs(h, l.converterType == LCC, InputLines.OnBusOfTwo(inp.env, lines, l, in1, in2),
              l.converterType == VSC && l.droop.Some? && in1 && in2, !(in1 && in2), !inp.infiniteReactiveLimits);
    assert x == WriteHvdcLine(h) <==> x.id == l.id && x.parId == Some(l.id) && x.lib == HvdcLib(h.model);
  }

  // ---------------------------------------------------------------------------
  // One generator

  /** A generator that shares a regulation is connected to the model of the bus, a
      remote one reads the voltage of its bus, a local one needs nothing. */
  ghost predicate GeneratorConnects(inp: Inputs, data: NetworkData, i: nat, c: Connect)
    requires i < |AllGenerators(inp.env, data.voltageLevels)|
  {
    var gens := AllGenerators(inp.env, data.voltageLevels);
    var g := gens[i];
    if InputGenerators.Shares(inp.env, data.voltageLevels, gens, i) then
      c == Connect(g.id, "generator_NQ_value", "Model_Signal_NQ_" + g.regulatedBusId, "vrremote_NQ")
    else
      && g.regulatedBusId != g.connectedBusId
      && c == Connect(g.id, "generator_URegulated", NETWORK, g.regulatedBusId + "_U_value")
  }

  lemma GeneratorIsConnected(inp: Inputs, data: NetworkData, i: nat, g: GeneratorDefinition, c: Connect)
    requires i < |AllGenerators(inp.env, data.voltageLevels)| && InputGenerators.Defines(inp, data, i, g)
    ensures c in WriteGenConnect(g) <==> GeneratorConnects(inp, data, i, c)
  {
  }

  /** The model of a generator of the input: with a diagram its set is its own. */
  ghost predicate GeneratorModel(inp: Inputs, data: NetworkData, d: Definition, i: nat, x: Model)
    requires i < |AllGenerators(inp.env, data.voltageLevels)|
  {
    var gens := AllGenerators(inp.env, data.voltageLevels);
    var g, shares := gens[i], InputGenerators.Shares(inp.env, data.voltageLevels, gens, i);
    var remote := g.regulatedBusId != g.connectedBusId;
    && x.id == g.id && x.lib == GeneratorName(shares, remote, !inp.infiniteReactiveLimits)
    && x.parId == Some(if !inp.infiniteReactiveLimits then d.hash(g.id)
                       else if shares then "propSignalNGenerator"
                       else if remote then "remoteVControl"
                       else if d.isZero(g.targetP) then "signalNGeneratorFixedP"
                       else "signalNGenerator")
  }

  lemma GeneratorIsDeclared(inp: Inputs, data: NetworkData, d: Definition, i: nat, g: GeneratorDefinition, x: Model)
    requires i < |AllGenerators(inp.env, data.voltageLevels)| && InputGenerators.Defines(inp, data, i, g)
    ensures x == WriteGenerator(d, g) <==> GeneratorModel(inp, data, d, i, x)
  {
    var gens := AllGenerators(inp.env, data.voltageLevels);
    GeneratorLibIs(g, InputGenerators.Shares(inp.env, data.voltageLevels, gens, i),
                   gens[i].regulatedBusId != gens[i].connectedBusId, !inp.infiniteReactiveLimits);
  }

  // ---------------------------------------------------------------------------
  // The regulation models

  /** A generator that gets a definition shares the regulation of the bus. */
  ghost predicate GeneratorShares(inp: Inputs, data: NetworkData, b: Id)
    requires inp.Valid()
  {
    var gens := AllGenerators(inp.env, data.voltageLevels);
    exists i: nat :: i < |gens| && InputGenerators.GetsDefinition(inp, data, i)
                     && InputGenerators.Shares(inp.env, data.voltageLevels, gens, i) && gens[i].regulatedBusId == b
  }

  /** An inner end of a line that shares regulations is on the bus. */
  ghost predicate LineShares(inp: Inputs, data: NetworkData, b: Id)
    requires inp.Valid()
  {
    exists l :: InputLines.HasDefinition(inp, data, l) && LineSharesBus(inp, data, MainOf(inp), l, b)
  }

  ghost predicate LineSharesBus(inp: Inputs, data: NetworkData, main: seq<Id>, l: HvdcLine, b: Id) {
    && SharesBuses(inp, data, main, l) && b in main
    && (b == l.converter1.busId || b == l.converter2.busId)
  }

  lemma BusOfProp(defs: seq<GeneratorDefinition>, m: map<Id, Id>, b: Id)
    requires MapsFirstProp(defs, m)
    ensures b in m <==> exists g :: g in defs && g.IsProp() && g.regulatedBusId == b
  {
    if b in m {
      var k :| FirstProp(defs, k, b, m[b]);
      assert defs[k] in defs;
    }
  }

  lemma GeneratorBuses(inp: Inputs, data: NetworkData, m: map<Id, Id>, d: Definition, b: Id)
    requires BuiltFrom(inp, data) && inp.Valid() && HandsOver(inp, m, d)
    ensures b in d.busesWithDynamicModel <==> GeneratorShares(inp, data, b)
  {
    BusOfProp(d.generators, m, b);
    assert b in Elements(d.busesWithDynamicModel) <==> b in m.Keys;
    if g :| g in d.generators && g.IsProp() && g.regulatedBusId == b {
      var i := InputGenerators.EmittedIsDefined(inp, data, g);
    }
    if GeneratorShares(inp, data, b) {
      var gens := AllGenerators(inp.env, data.voltageLevels);
      var i: nat :| i < |gens| && InputGenerators.GetsDefinition(inp, data, i)
                    && InputGenerators.Shares(inp.env, data.voltageLevels, gens, i) && gens[i].regulatedBusId == b;
      var g := InputGenerators.DefinitionOfGenerator(inp, data, i);
    }
  }

  lemma NQBusesOfLine(inp: Inputs, data: NetworkData, main: seq<Id>, l: HvdcLine, h: HVDCDefinition, b: Id)
    requires l.converter1.busId in main || l.converter2.busId in main
    requires InputLines.DefinesLine(inp, data, main, l, h)
    ensures b in NQBuses(h) <==> LineSharesBus(inp, data, main, l, b)
  {
  }

  lemma LineBuses(inp: Inputs, data: NetworkData, m: map<Id, Id>, d: Definition, b: Id)
    requires BuiltFrom(inp, data) && inp.Valid() && HandsOver(inp, m, d)
    ensures b in d.vscBuses <==> LineShares(inp, data, b)
  {
    var main, lines := MainOf(inp), ConnectedHvdc(data.hvdcLines);
    MainStationsOnBuses(inp, data, main);
    VscBusesAreConnected(inp.HvdcConfig(), inp.Records(main), lines, b);
    assert b in Elements(d.vscBuses) <==> b in WalkedOn(inp, main).vscBuses.Keys;
    if b in d.vscBuses {
      var l :| l in lines && l.id in WalkedOn(inp, main).hvdcLines && ConnectsNQ(WalkedOn(inp, main).hvdcLines[l.id], b);
      ConnectedLinesMembers(data.hvdcLines, l);
      HvdcLinesOfTheNetwork(inp, data, l);
      InputLines.PlacedDefines(inp, data, main, l);
      NQConnections(WalkedOn(inp, main).hvdcLines[l.id], b);
      NQBusesOfLine(inp, data, main, l, WalkedOn(inp, main).hvdcLines[l.id], b);
    }
    if LineShares(inp, data, b) {
      var l :| InputLines.HasDefinition(inp, data, l) && LineSharesBus(inp, data, main, l, b);
      SharedLineConnects(inp, data, l, b);
    }
  }

  lemma SharedLineConnects(inp: Inputs, data: NetworkData, l: HvdcLine, b: Id)
    requires BuiltFrom(inp, data) && inp.Valid() && InputLines.HasDefinition(inp, data, l)
    requires LineSharesBus(inp, data, MainOf(inp), l, b)
    ensures l in ConnectedHvdc(data.hvdcLines) && l.id in WalkedOn(inp, MainOf(inp)).hvdcLines
    ensures ConnectsNQ(WalkedOn(inp, MainOf(inp)).hvdcLines[l.id], b)
  {
    ConnectedLinesMembers(data.hvdcLines, l);
    HvdcLinesOfTheNetwork(inp, data, l);
    InputLines.PlacedDefines(inp, data, MainOf(inp), l);
    NQBusesOfLine(inp, data, MainOf(inp), l, WalkedOn(inp, MainOf(inp)).hvdcLines[l.id], b);
    NQConnections(WalkedOn(inp, MainOf(inp)).hvdcLines[l.id], b);
  }

  /** The regulation of the bus is shared, so that it has a model. */
  ghost predicate RegulationBus(inp: Inputs, data: NetworkData, b: Id)
    requires inp.Valid()
  {
    GeneratorShares(inp, data, b) || LineShares(inp, data, b)
  }

  lemma RegulationBuses(inp: Inputs, data: NetworkData, m: map<Id, Id>, d: Definition)
    requires BuiltFrom(inp, data) && inp.Valid() && HandsOver(inp, m, d)
    ensures forall b: Id :: b in d.busesWithDynamicModel || b in d.vscBuses <==> RegulationBus(inp, data, b)
  {
    forall b: Id ensures b in d.busesWithDynamicModel || b in d.vscBuses <==> RegulationBus(inp, data, b) {
      GeneratorBuses(inp, data, m, d, b);
      LineBuses(inp, data, m, d, b);
    }
  }

  // ---------------------------------------------------------------------------
  // The connections of the file

  ghost predicate SomeLineConnects(inp: Inputs, data: NetworkData, c: Connect)
    requires inp.Valid()
  {
    exists l :: InputLines.HasDefinition(inp, data, l) && LineConnects(inp, data, MainOf(inp), l, c)
  }

  ghost predicate SomeGeneratorConnects(inp: Inputs, data: NetworkData, c: Connect)
    requires inp.Valid()
  {
    exists i: nat :: i < |AllGenerators(inp.env, data.voltageLevels)|
                     && InputGenerators.GetsDefinition(inp, data, i) && GeneratorConnects(inp, data, i, c)
  }

  /** The model of a regulation reads the voltage of its bus. */
  ghost predicate RegulationConnects(inp: Inputs, data: NetworkData, c: Connect)
    requires inp.Valid()
  {
    exists b: Id ::
      && RegulationBus(inp, data, b)
      && c == Connect("Model_Signal_NQ_" + b, "vrremote_URegulated", NETWORK, b + "_U_value")
  }

  lemma LinesConnect(inp: Inputs, data: NetworkData, m: map<Id, Id>, d: Definition, c: Connect)
    requires BuiltFrom(inp, data) && inp.Valid() && HandsOver(inp, m, d)
    ensures c in FlatMap(WriteHvdcLineConnect, d.hvdcLines) <==> SomeLineConnects(inp, data, c)
  {
    InFlatMapExactly(WriteHvdcLineConnect, d.hvdcLines, c);
    if h :| h in d.hvdcLines && c in WriteHvdcLineConnect(h) {
      var l := InputLines.LineOfHanded(inp, data, m, d, h);
      LineIsConnected(inp, data, MainOf(inp), l, h, c);
    }
    if SomeLineConnects(inp, data, c) {
      var l :| InputLines.HasDefinition(inp, data, l) && LineConnects(inp, data, MainOf(inp), l, c);
      var h := InputLines.DefinitionOfHanded(inp, data, m, d, l);
      LineIsConnected(inp, data, MainOf(inp), l, h, c);
    }
  }

  lemma GeneratorsConnect(inp: Inputs, data: NetworkData, m: map<Id, Id>, d: Definition, c: Connect)
    requires BuiltFrom(inp, data) && inp.Valid() && HandsOver(inp, m, d)
    ensures c in FlatMap(WriteGenConnect, d.generators) <==> SomeGeneratorConnects(inp, data, c)
  {
    InFlatMapExactly(WriteGenConnect, d.generators, c);
    if g :| g in d.generators && c in WriteGenConnect(g) {
      var i := InputGenerators.EmittedIsDefined(inp, data, g);
      GeneratorIsConnected(inp, data, i, g, c);
    }
    if SomeGeneratorConnects(inp, data, c) {
      var i: nat :| i < |AllGenerators(inp.env, data.voltageLevels)|
                    && InputGenerators.GetsDefinition(inp, data, i) && GeneratorConnects(inp, data, i, c);
      var g := InputGenerators.DefinitionOfGenerator(inp, data, i);
      GeneratorIsConnected(inp, data, i, g, c);
    }
  }

  lemma VRRemotesConnect(d: Definition, c: Connect)
    ensures c in FlatMap(WriteVRRemoteConnect, d.busesWithDynamicModel) || c in FlatMap(WriteVRRemoteConnect, d.vscBuses)
       <==> exists b: Id ::
              && (b in d.busesWithDynamicModel || b in d.vscBuses)
              && c == Connect("Model_Signal_NQ_" + b, "vrremote_URegulated", NETWORK, b + "_U_value")
  {
    InFlatMapExactly(WriteVRRemoteConnect, d.busesWithDynamicModel, c);
    InFlatMapExactly(WriteVRRemoteConnect, d.vscBuses, c);
    forall b: Id ensures c in WriteVRRemoteConnect(b)
      <==> c == Connect("Model_Signal_NQ_" + b, "vrremote_URegulated", NETWORK, b + "_U_value")
    {
    }
  }

  lemma RegulationsConnect(inp: Inputs, data: NetworkData, m: map<Id, Id>, d: Definition, c: Connect)
    requires BuiltFrom(inp, data) && inp.Valid() && HandsOver(inp, m, d)
    ensures c in FlatMap(WriteVRRemoteConnect, d.busesWithDynamicModel) || c in FlatMap(WriteVRRemoteConnect, d.vscBuses)
       <==> RegulationConnects(inp, data, c)
  {
    RegulationBuses(inp, data, m, d);
    VRRemotesConnect(d, c);
  }

  /** A connection that the input calls for. */
  ghost predicate ConnectIsDue(inp: Inputs, data: NetworkData, slackNode: Id, c: Connect)
    requires inp.Valid()
  {
    || SomeLineConnects(inp, data, c)
    || RegulationConnects(inp, data, c)
    || SomeGeneratorConnects(inp, data, c)
    || c == Connect("Model_Signal_N", "signalN_thetaRef", NETWORK, slackNode + "_phi")
  }

  /** End to end: the connections of the DYD file of a network are exactly those of
      the lines and generators of the input in the main component, of the models of
      the regulations they share, and the reference of the angles. */
  lemma ConnectsOfInput(inp: Inputs, data: NetworkData, m: map<Id, Id>, d: Definition, c: Connect)
    requires BuiltFrom(inp, data) && inp.Valid() && HandsOver(inp, m, d)
    ensures c in FileConnects(d) <==> ConnectIsDue(inp, data, d.slackNode, c)
  {
    LinesConnect(inp, data, m, d, c);
    RegulationsConnect(inp, data, m, d, c);
    GeneratorsConnect(inp, data, m, d, c);
  }

  // ---------------------------------------------------------------------------
  // The models of the file

  ghost predicate LineDeclares(inp: Inputs, data: NetworkData, x: Model)
    requires inp.Valid()
  {
    exists l :: InputLines.HasDefinition(inp, data, l) && LineModel(inp, data, MainOf(inp), l, x)
  }

  ghost predicate GeneratorDeclares(inp: Inputs, data: NetworkData, d: Definition, x: Model)
    requires inp.Valid()
  {
    exists i: nat :: i < |AllGenerators(inp.env, data.voltageLevels)|
                     && InputGenerators.GetsDefinition(inp, data, i) && GeneratorModel(inp, data, d, i, x)
  }

  ghost predicate RegulationDeclares(inp: Inputs, data: NetworkData, x: Model)
    requires inp.Valid()
  {
    exists b: Id ::
      && RegulationBus(inp, data, b)
      && x == Model("Model_Signal_NQ_" + b, "VRRemote", Some("Model_Signal_NQ_" + b))
  }

  /** The models of the elements the walks only collect, and of the automatons. */
  ghost predicate ElementDeclares(d: Definition, x: Model) {
    || (x.id in d.loads && x.lib == "DYNModelLoadRestorativeWithLimits" && x.parId == Some("GenericRestorativeLoad"))
    || (x.id in d.svarcs && x.lib == "StaticVarCompensatorPV" && x.parId == Some(x.id))
    || (exists a :: a in d.dynamicModels && x == Model(a.id, a.lib, Some(a.id)))
    || x == Model("Model_Signal_N", "SignalN", None)
  }

  lemma LinesDeclared(inp: Inputs, data: NetworkData, m: map<Id, Id>, d: Definition, x: Model)
    requires BuiltFrom(inp, data) && inp.Valid() && HandsOver(inp, m, d)
    ensures x in MapSeq(WriteHvdcLine, d.hvdcLines) <==> LineDeclares(inp, data, x)
  {
    InMapSeq(WriteHvdcLine, d.hvdcLines, x);
    if h :| h in d.hvdcLines && WriteHvdcLine(h) == x {
      var l := InputLines.LineOfHanded(inp, data, m, d, h);
      LineIsDeclared(inp, data, MainOf(inp), l, h, x);
    }
    if LineDeclares(inp, data, x) {
      var l :| InputLines.HasDefinition(inp, data, l) && LineModel(inp, data, MainOf(inp), l, x);
      var h := InputLines.DefinitionOfHanded(inp, data, m, d, l);
      LineIsDeclared(inp, data, MainOf(inp), l, h, x);
    }
  }

  lemma GeneratorsDeclared(inp: Inputs, data: NetworkData, m: map<Id, Id>, d: Definition, x: Model)
    requires BuiltFrom(inp, data) && inp.Valid() && HandsOver(inp, m, d)
    ensures x in MapSeq(GeneratorWriter(d), d.generators) <==> GeneratorDeclares(inp, data, d, x)
  {
    InMapSeq(GeneratorWriter(d), d.generators, x);
    if g :| g in d.generators && GeneratorWriter(d)(g) == x {
      var i := InputGenerators.EmittedIsDefined(inp, data, g);
      GeneratorIsDeclared(inp, data, d, i, g, x);
    }
    if GeneratorDeclares(inp, data, d, x) {
      var i: nat :| i < |AllGenerators(inp.env, data.voltageLevels)|
                    && InputGenerators.GetsDefinition(inp, data, i) && GeneratorModel(inp, data, d, i, x);
      var g := InputGenerators.DefinitionOfGenerator(inp, data, i);
      GeneratorIsDeclared(inp, data, d, i, g, x);
    }
  }

  lemma VRRemotesDeclared(d: Definition, x: Model)
    ensures x in MapSeq(WriteVRRemote, d.busesWithDynamicModel) || x in MapSeq(WriteVRRemote, d.vscBuses)
       <==> exists b: Id ::
              && (b in d.busesWithDynamicModel || b in d.vscBuses)
              && x == Model("Model_Signal_NQ_" + b, "VRRemote", Some("Model_Signal_NQ_" + b))
  {
    InMapSeq(WriteVRRemote, d.busesWithDynamicModel, x);
    InMapSeq(WriteVRRemote, d.vscBuses, x);
  }

  lemma RegulationsDeclared(inp: Inputs, data: NetworkData, m: map<Id, Id>, d: Definition, x: Model)
    requires BuiltFrom(inp, data) && inp.Valid() && HandsOver(inp, m, d)
    ensures x in MapSeq(WriteVRRemote, d.busesWithDynamicModel) || x in MapSeq(WriteVRRemote, d.vscBuses)
       <==> RegulationDeclares(inp, data, x)
  {
    RegulationBuses(inp, data, m, d);
    VRRemotesDeclared(d, x);
  }

  lemma ElementsDeclared(d: Definition, x: Model)
    ensures || x in MapSeq(WriteLoad, d.loads) || x in MapSeq(WriteSVarC, d.svarcs)
            || x in MapSeq(WriteDynamicModel, d.dynamicModels) || x in WriteConstantsModel()
       <==> ElementDeclares(d, x)
  {
    InMapSeq(WriteLoad, d.loads, x);
    InMapSeq(WriteSVarC, d.svarcs, x);
    InMapSeq(WriteDynamicModel, d.dynamicModels, x);
  }

  lemma FileModelsMembers(d: Definition, x: Model)
    ensures x in FileModels(d)
       <==> || x in MapSeq(WriteLoad, d.loads) || x in WriteConstantsModel() || x in MapSeq(GeneratorWriter(d), d.generators)
            || x in MapSeq(WriteHvdcLine, d.hvdcLines) || x in MapSeq(WriteVRRemote, d.busesWithDynamicModel)
            || x in MapSeq(WriteVRRemote, d.vscBuses) || x in MapSeq(WriteDynamicModel, d.dynamicModels)
            || x in MapSeq(WriteSVarC, d.svarcs)
  {
  }

  /** A model that the input calls for. */
  ghost predicate ModelIsDue(inp: Inputs, data: NetworkData, d: Definition, x: Model)
    requires inp.Valid()
  {
    || LineDeclares(inp, data, x) || GeneratorDeclares(inp, data, d, x) || RegulationDeclares(inp, data, x)
    || ElementDeclares(d, x)
  }

  /** End to end: the models of the DYD file of a network are exactly those of the
      lines and generators of the input in the main component, with the library that
      their kind calls for, of the regulations they share, and of the other elements. */
  lemma ModelsOfInput(inp: Inputs, data: NetworkData, m: map<Id, Id>, d: Definition, x: Model)
    requires BuiltFrom(inp, data) && inp.Valid() && HandsOver(inp, m, d)
    ensures x in FileModels(d) <==> ModelIsDue(inp, data, d, x)
  {
    FileModelsMembers(d, x);
    LinesDeclared(inp, data, m, d, x);
    GeneratorsDeclared(inp, data, m, d, x);
    RegulationsDeclared(inp, data, m, d, x);
    ElementsDeclared(d, x);
  }

  /** The file holds what the input calls for, and nothing else. */
  ghost predicate IsOfInput(inp: Inputs, data: NetworkData, d: Definition, models: seq<Model>, connects: seq<Connect>)
    requires inp.Valid()
  {
    && (forall x :: x in models <==> ModelIsDue(inp, data, d, x))
    && (forall c :: c in connects <==> ConnectIsDue(inp, data, d.slackNode, c))
  }

  lemma FileIsOfInput(inp: Inputs, data: NetworkData, m: map<Id, Id>, d: Definition)
    requires BuiltFrom(inp, data) && inp.Valid() && HandsOver(inp, m, d)
    ensures IsOfInput(inp, data, d, FileModels(d), FileConnects(d))
  {
    forall x ensures x in FileModels(d) <==> ModelIsDue(inp, data, d, x) {
      ModelsOfInput(inp, data, m, d, x);
    }
    forall c ensures c in FileConnects(d) <==> ConnectIsDue(inp, data, d.slackNode, c) {
      ConnectsOfInput(inp, data, m, d, c);
    }
  }
}
