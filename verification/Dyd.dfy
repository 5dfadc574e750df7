/** The DYD writer: the models it declares and how it connects them. */
module Dyd {
  import opened Wrappers
  import opened Reachability
  import opened Network
  import opened Generators
  import opened Hvdc
  import opened MacroConnections
  import opened DynModels
  import opened CountSettings

  // ---------------------------------------------------------------------------
  // Identifiers shared with the PAR writer

  const LOAD_PAR_ID := "GenericRestorativeLoad"
  const SIGNALN_PAR_ID := "signalNGenerator"
  const SIGNALN_FIXED_P_PAR_ID := "signalNGeneratorFixedP"
  const PROP_SIGNALN_PAR_ID := "propSignalNGenerator"
  const PROP_SIGNALN_FIXED_P_PAR_ID := "propSignalNGeneratorFixedP"
  const REMOTE_V_CONTROL_PAR_ID := "remoteVControl"
  const REMOTE_SIGNALN_FIXED_P_PAR_ID := "remoteSignalNFixedP"

  const SIGNALN_MODEL := "Model_Signal_N"
  const NQ_PREFIX := "Model_Signal_NQ_"
  const NETWORK := "NETWORK"

  const MACRO_CONNECTOR_LOAD := "LOAD_NETWORK_CONNECTOR"
  const MACRO_CONNECTOR_GEN := "GEN_NETWORK_CONNECTOR"
  const MACRO_CONNECTOR_GEN_SIGNALN := "GEN_SIGNALN_CONNECTOR"
  const MACRO_CONNECTOR_SVARC := "StaticVarCompensatorMacroConnector"

  // ---------------------------------------------------------------------------
  // What a DYD file holds

  /** A black box model; the model of signal N has no parameter set. */
  datatype Model = Model(id: Id, lib: string, parId: Option<string>)

  datatype Connect = Connect(model1: Id, var1: string, model2: Id, var2: string)

  datatype MacroConnectOut = MacroConnectOut(
    connector: Id, model1: Id, model2: Id, name2: Option<Id>, index1: Option<nat>, index2: Option<nat>)

  /** What the launcher hands over to both writers. An unordered map comes as the
      sequence of its entries, in the order its iteration takes. */
  datatype Definition = Definition(
    hash: Id -> string,
    isZero: real -> bool,
    generators: seq<GeneratorDefinition>,
    loads: seq<Id>,
    slackNode: Id,
    hvdcLines: seq<HVDCDefinition>,
    busesWithDynamicModel: seq<Id>,
    vscBuses: seq<Id>,
    dynamicModels: seq<DynamicModelDefinition>,
    usedMacroConnections: seq<Id>,
    doc: AssemblingDocument,
    nbShunts: map<Id, nat>,
    settings: seq<Setting>,
    svarcs: seq<Id>)

  // ---------------------------------------------------------------------------
  // Models

  function WriteLoad(load: Id): Model {
    Model(load, "DYNModelLoadRestorativeWithLimits", Some(LOAD_PAR_ID))
  }

  function GeneratorLib(model: ModelType): string {
    match model
    case SIGNALN => "GeneratorPVSignalN"
    case DIAGRAM_PQ_SIGNALN => "GeneratorPVDiagramPQSignalN"
    case REMOTE_SIGNALN => "GeneratorPVRemoteSignalN"
    case REMOTE_DIAGRAM_PQ_SIGNALN => "GeneratorPVRemoteDiagramPQSignalN"
    case PROP_SIGNALN => "GeneratorPQPropSignalN"
    case PROP_DIAGRAM_PQ_SIGNALN => "GeneratorPQPropDiagramPQSignalN"
  }

  function GeneratorParId(d: Definition, g: GeneratorDefinition): string {
    match g.model
    case SIGNALN => if d.isZero(g.targetP) then SIGNALN_FIXED_P_PAR_ID else SIGNALN_PAR_ID
    case PROP_SIGNALN => PROP_SIGNALN_PAR_ID
    case REMOTE_SIGNALN => REMOTE_V_CONTROL_PAR_ID
    case _ => d.hash(g.id)
  }

  function WriteGenerator(d: Definition, g: GeneratorDefinition): Model {
    Model(g.id, GeneratorLib(g.model), Some(GeneratorParId(d, g)))
  }

  function GeneratorWriter(d: Definition): GeneratorDefinition -> Model {
    g => WriteGenerator(d, g)
  }

  function HvdcLib(model: HVDCModel): string {
    match model
    case HvdcPTanPhi => "HvdcPTanPhi"
    case HvdcPTanPhiDangling => "HvdcPTanPhiDangling"
    case HvdcPTanPhiDanglingDiagramPQ => "HvdcPTanPhiDanglingDiagramPQ"
    case HvdcPTanPhiDiagramPQ => "HvdcPTanPhiDiagramPQ"
    case HvdcPQProp => "HvdcPQProp"
    case HvdcPQPropDangling => "HvdcPQPropDangling"
    case HvdcPQPropDanglingDiagramPQ => "HvdcPQPropDanglingDiagramPQ"
    case HvdcPQPropDiagramPQ => "HvdcPQPropDiagramPQ"
    case HvdcPQPropDiagramPQEmulation => "HvdcPQPropDiagramPQEmulation"
    case HvdcPQPropEmulation => "HvdcPQPropEmulation"
    case HvdcPV => "HvdcPV"
    case HvdcPVDangling => "HvdcPVDangling"
    case HvdcPVDanglingDiagramPQ => "HvdcPVDanglingDiagramPQ"
    case HvdcPVDiagramPQ => "HvdcPVDiagramPQ"
    case HvdcPVDiagramPQEmulation => "HvdcPVDiagramPQEmulation"
    case HvdcPVEmulation => "HvdcPVEmulation"
  }

  function WriteHvdcLine(l: HVDCDefinition): Model {
    Model(l.id, HvdcLib(l.model), Some(l.id))
  }

  function WriteVRRemote(bus: Id): Model {
    Model(NQ_PREFIX + bus, "VRRemote", Some(NQ_PREFIX + bus))
  }

  function WriteDynamicModel(m: DynamicModelDefinition): Model {
    Model(m.id, m.lib, Some(m.id))
  }

  function WriteSVarC(svarc: Id): Model {
    Model(svarc, "StaticVarCompensatorPV", Some(svarc))
  }

  // ---------------------------------------------------------------------------
  // Connections

  function WriteHvdcLineConnect(l: HVDCDefinition): seq<Connect> {
    var second := l.position == SECOND_IN_MAIN_COMPONENT;
    var terminals :=
      if second then
        [Connect(NETWORK, l.converter1BusId + "_ACPIN", l.id, "hvdc_terminal2"),
         Connect(NETWORK, l.converter2BusId + "_ACPIN", l.id, "hvdc_terminal1")]
      else
        [Connect(NETWORK, l.converter1BusId + "_ACPIN", l.id, "hvdc_terminal1"),
         Connect(NETWORK, l.converter2BusId + "_ACPIN", l.id, "hvdc_terminal2")];
    var bus1 := if second then l.converter2BusId else l.converter1BusId;
    terminals
    + Only(l.HasPQPropModel(), [Connect(l.id, "hvdc_NQ1_value", NQ_PREFIX + bus1, "vrremote_NQ")])
    + Only(l.HasPQPropModel() && l.position == BOTH_IN_MAIN_COMPONENT,
           [Connect(l.id, "hvdc_NQ2_value", NQ_PREFIX + l.converter2BusId, "vrremote_NQ")])
  }

  function WriteVRRemoteConnect(bus: Id): seq<Connect> {
    [Connect(NQ_PREFIX + bus, "vrremote_URegulated", NETWORK, bus + "_U_value")]
  }

  function WriteGenConnect(g: GeneratorDefinition): seq<Connect> {
    if g.model == REMOTE_SIGNALN || g.model == REMOTE_DIAGRAM_PQ_SIGNALN then
      [Connect(g.id, "generator_URegulated", NETWORK, g.regulatedBusId + "_U_value")]
    else if g.model == PROP_SIGNALN || g.model == PROP_DIAGRAM_PQ_SIGNALN then
      [Connect(g.id, "generator_NQ_value", NQ_PREFIX + g.regulatedBusId, "vrremote_NQ")]
    else []
  }

  // ---------------------------------------------------------------------------
  // Macro connects of a dynamic model

  function CountOf(conns: seq<MacroConnection>, macro: Id): nat {
    if conns == [] then 0
    else CountOf(conns[..|conns| - 1], macro) + if conns[|conns| - 1].id == macro then 1 else 0
  }

  datatype Index = Index(nbConnections: nat, current: nat)

  method CountConnections(connections: seq<MacroConnection>) returns (indexes: map<Id, Index>)
    ensures forall macro: Id :: macro in indexes <==> CountOf(connections, macro) > 0
    ensures forall macro <- indexes :: indexes[macro] == Index(CountOf(connections, macro), 0)
  {
    indexes := map[];
    for k := 0 to |connections|
      invariant forall macro: Id :: macro in indexes <==> CountOf(connections[..k], macro) > 0
      invariant forall macro <- indexes :: indexes[macro] == Index(CountOf(connections[..k], macro), 0)
    {
      var connection := connections[k];
      assert connections[..k + 1][..k] == connections[..k];
      if connection.id in indexes {
        var index := indexes[connection.id];
        indexes := indexes[connection.id := index.(nbConnections := index.nbConnections + 1)];
      } else {
        indexes := indexes[connection.id := Index(1, 0)];
      }
    }
    assert connections[..|connections|] == connections;
  }

  /** The macro connect of the k-th connection: its index is the number of
      connections before it through the same macro connection. */
  function MacroConnectAt(m: DynamicModelDefinition, k: nat): MacroConnectOut
    requires k < |m.nodeConnections|
  {
    var c := m.nodeConnections[k];
    MacroConnectOut(c.id, m.id, NETWORK, Some(c.connectedElementId), Some(CountOf(m.nodeConnections[..k], c.id)), None)
  }

  function MacroConnectsOf(m: DynamicModelDefinition): seq<MacroConnectOut> {
    seq(|m.nodeConnections|, k requires 0 <= k < |m.nodeConnections| => MacroConnectAt(m, k))
  }

  method WriteDynamicModelMacroConnect(m: DynamicModelDefinition) returns (ret: seq<MacroConnectOut>)
    ensures ret == MacroConnectsOf(m)
  {
    var connections := m.nodeConnections;
    var indexes := CountConnections(connections);
    ret := [];
    for k := 0 to |connections|
      invariant forall macro: Id :: macro in indexes <==> CountOf(connections, macro) > 0
      invariant forall macro <- indexes ::
          indexes[macro] == Index(CountOf(connections, macro), CountOf(connections[..k], macro))
      invariant |ret| == k && forall j :: 0 <= j < k ==> ret[j] == MacroConnectAt(m, j)
    {
      var connection := connections[k];
      assert connections[..k + 1][..k] == connections[..k];
      CountGrows(connections, k + 1, connection.id);
      var index := indexes[connection.id];
      assert index.current < index.nbConnections;
      ret := ret + [MacroConnectOut(connection.id, m.id, NETWORK, Some(connection.connectedElementId),
                                    Some(index.current), None)];
      indexes := indexes[connection.id := index.(current := index.current + 1)];
    }
  }

  lemma {:induction false} CountGrows(conns: seq<MacroConnection>, k: nat, macro: Id)
    requires k <= |conns|
    ensures CountOf(conns[..k], macro) <= CountOf(conns, macro)
    decreases |conns| - k
  {
    if k == |conns| {
      assert conns[..k] == conns;
    } else {
      assert conns[..k + 1][..k] == conns[..k];
      CountGrows(conns, k + 1, macro);
    }
  }

  /** The indexes of one macro connection are 0 to n - 1: each is taken by a
      connection, and by one only. */
  lemma {:induction false} IndexIsTaken(conns: seq<MacroConnection>, macro: Id, i: nat) returns (k: nat)
    requires i < CountOf(conns, macro)
    ensures k < |conns| && conns[k].id == macro && CountOf(conns[..k], macro) == i
    decreases |conns|
  {
    var n := |conns| - 1;
    if conns[n].id == macro && CountOf(conns[..n], macro) == i {
      k := n;
    } else {
      k := IndexIsTaken(conns[..n], macro, i);
      assert conns[..n][..k] == conns[..k];
    }
  }

  lemma IndexIsTakenOnce(conns: seq<MacroConnection>, j: nat, k: nat)
    requires j < k < |conns| && conns[j].id == conns[k].id
    ensures CountOf(conns[..j], conns[j].id) < CountOf(conns[..k], conns[k].id)
  {
    assert conns[..k][..j + 1] == conns[..j + 1] && conns[..j + 1][..j] == conns[..j];
    CountGrows(conns[..k], j + 1, conns[j].id);
  }

  // ---------------------------------------------------------------------------
  // Macro connects of the other elements

  function WriteLoadConnect(load: Id): MacroConnectOut {
    MacroConnectOut(MACRO_CONNECTOR_LOAD, load, NETWORK, None, None, None)
  }

  function WriteSVarCMacroConnect(svarc: Id): MacroConnectOut {
    MacroConnectOut(MACRO_CONNECTOR_SVARC, svarc, NETWORK, None, None, None)
  }

  function WriteGenMacroConnect(g: GeneratorDefinition, index: nat): seq<MacroConnectOut> {
    [MacroConnectOut(MACRO_CONNECTOR_GEN, g.id, NETWORK, None, None, None),
     MacroConnectOut(MACRO_CONNECTOR_GEN_SIGNALN, g.id, SIGNALN_MODEL, None, None, Some(index))]
  }

  function GenMacroConnects(gens: seq<GeneratorDefinition>): seq<MacroConnectOut> {
    if gens == [] then []
    else GenMacroConnects(gens[..|gens| - 1]) + WriteGenMacroConnect(gens[|gens| - 1], |gens| - 1)
  }

  // ---------------------------------------------------------------------------
  // Macro connectors

  function ConstantMacroConnectors(): seq<MacroConnector> {
    [MacroConnector(MACRO_CONNECTOR_GEN, [("generator_terminal", "@STATIC_ID@@NODE@_ACPIN"),
                                          ("generator_switchOffSignal1", "@STATIC_ID@@NODE@_switchOff")]),
     MacroConnector(MACRO_CONNECTOR_GEN_SIGNALN, [("generator_N", "signalN_N")]),
     MacroConnector(MACRO_CONNECTOR_LOAD, [("Ur_value", "@STATIC_ID@@NODE@_ACPIN_V_re"),
                                           ("Ui_value", "@STATIC_ID@@NODE@_ACPIN_V_im"),
                                           ("Ir_value", "@STATIC_ID@@NODE@_ACPIN_i_re"),
                                           ("Ii_value", "@STATIC_ID@@NODE@_ACPIN_i_im"),
                                           ("switchOff1_value", "@STATIC_ID@@NODE@_switchOff_value")]),
     MacroConnector(MACRO_CONNECTOR_SVARC, [("SVarC_terminal", "@STATIC_ID@@NODE@_ACPIN")])]
  }

  /** The first macro connection of the document with an id. */
  function FirstMacro(macros: seq<MacroConnector>, id: Id): Option<MacroConnector> {
    if macros == [] then None
    else
      match FirstMacro(macros[..|macros| - 1], id)
      case Some(m) => Some(m)
      case None => if macros[|macros| - 1].id == id then Some(macros[|macros| - 1]) else None
  }

  /** The connectors of the macro connections used, as far as they are defined. */
  function UsedConnectors(macros: seq<MacroConnector>, used: seq<Id>): seq<MacroConnector> {
    if used == [] then []
    else
      UsedConnectors(macros, used[..|used| - 1])
      + match FirstMacro(macros, used[|used| - 1]) case Some(m) => [m] case None => []
  }

  method MacrosById(macros: seq<MacroConnector>) returns (macrosById: map<Id, MacroConnector>)
    ensures forall id: Id :: id in macrosById <==> FirstMacro(macros, id).Some?
    ensures forall id <- macrosById :: FirstMacro(macros, id) == Some(macrosById[id])
  {
    macrosById := map[];
    for k := 0 to |macros|
      invariant forall id: Id :: id in macrosById <==> FirstMacro(macros[..k], id).Some?
      invariant forall id <- macrosById :: FirstMacro(macros[..k], id) == Some(macrosById[id])
    {
      assert macros[..k + 1][..k] == macros[..k];
      if macros[k].id !in macrosById {
        macrosById := macrosById[macros[k].id := macros[k]];
      }
    }
    assert macros[..|macros|] == macros;
  }

  /** Dyd::writeDynamicModelMacroConnectors. */
  method WriteDynamicModelMacroConnectors(macros: seq<MacroConnector>, used: seq<Id>) returns (ret: seq<MacroConnector>)
    ensures ret == UsedConnectors(macros, used)
  {
    var macrosById := MacrosById(macros);
    ret := [];
    for k := 0 to |used|
      invariant ret == UsedConnectors(macros, used[..k])
    {
      assert used[..k + 1][..k] == used[..k];
      if used[k] in macrosById {
        ret := ret + [macrosById[used[k]]];
      }
    }
    assert used[..|used|] == used;
  }

  // ---------------------------------------------------------------------------
  // The file

  function MapSeq<S, T>(f: S -> T, s: seq<S>): seq<T> {
    seq(|s|, i requires 0 <= i < |s| => f(s[i]))
  }

  lemma MapSeqAppend<S, T>(f: S -> T, s: seq<S>, x: S)
    ensures MapSeq(f, s + [x]) == MapSeq(f, s) + [f(x)]
  {
  }

  function GeneratorIds(gens: seq<GeneratorDefinition>): seq<Id> {
    MapSeq((g: GeneratorDefinition) => g.id, gens)
  }

  function LineIds(lines: seq<HVDCDefinition>): seq<Id> {
    MapSeq((l: HVDCDefinition) => l.id, lines)
  }

  function AutomatonIds(models: seq<DynamicModelDefinition>): seq<Id> {
    MapSeq((m: DynamicModelDefinition) => m.id, models)
  }

  /** The macro connectors of the file, in order. */
  function FileMacroConnectors(d: Definition): seq<MacroConnector> {
    ConstantMacroConnectors() + UsedConnectors(d.doc.macroConnections, d.usedMacroConnections)
  }

  /** The macro connects of the file, in order. */
  function FileMacroConnects(d: Definition): seq<MacroConnectOut> {
    MapSeq(WriteLoadConnect, d.loads)
    + FlatMap(MacroConnectsOf, d.dynamicModels)
    + MapSeq(WriteSVarCMacroConnect, d.svarcs)
    + GenMacroConnects(d.generators)
  }

  function WriteConstantsModel(): seq<Model> {
    [Model(SIGNALN_MODEL, "SignalN", None)]
  }

  /** The models of the file, in order. */
  function FileModels(d: Definition): seq<Model> {
    MapSeq(WriteLoad, d.loads)
    + WriteConstantsModel()
    + MapSeq(GeneratorWriter(d), d.generators)
    + MapSeq(WriteHvdcLine, d.hvdcLines)
    + MapSeq(WriteVRRemote, d.busesWithDynamicModel)
    + MapSeq(WriteVRRemote, d.vscBuses)
    + MapSeq(WriteDynamicModel, d.dynamicModels)
    + MapSeq(WriteSVarC, d.svarcs)
  }

  function FlatMap<S, T>(f: S -> seq<T>, s: seq<S>): seq<T> {
    if s == [] then [] else FlatMap(f, s[..|s| - 1]) + f(s[|s| - 1])
  }

  /** The reference of the angles. */
  function SlackConnect(d: Definition): Connect {
    Connect(SIGNALN_MODEL, "signalN_thetaRef", NETWORK, d.slackNode + "_phi")
  }

  /** The plain connections of the file, in order. */
  function FileConnects(d: Definition): seq<Connect> {
    FlatMap(WriteHvdcLineConnect, d.hvdcLines)
    + FlatMap(WriteVRRemoteConnect, d.busesWithDynamicModel)
    + FlatMap(WriteVRRemoteConnect, d.vscBuses)
    + [SlackConnect(d)]
    + FlatMap(WriteGenConnect, d.generators)
  }

  class DynamicModelsCollection {
    var macroConnectors: seq<MacroConnector>
    var models: seq<Model>
    var connects: seq<Connect>
    var macroConnects: seq<MacroConnectOut>

    constructor ()
      ensures macroConnectors == [] && models == [] && connects == [] && macroConnects == []
    {
      macroConnectors, models, connects, macroConnects := [], [], [], [];
    }

    method AddModels<S>(f: S -> Model, s: seq<S>)
      modifies this`models
      ensures models == old(models) + MapSeq(f, s)
    {
      for k := 0 to |s|
        invariant models == old(models) + MapSeq(f, s[..k])
      {
        models := models + [f(s[k])];
        assert s[..k + 1] == s[..k] + [s[k]];
        MapSeqAppend(f, s[..k], s[k]);
      }
      assert s[..|s|] == s;
    }

    method AddConnects<S>(f: S -> seq<Connect>, s: seq<S>)
      modifies this`connects
      ensures connects == old(connects) + FlatMap(f, s)
    {
      for k := 0 to |s|
        invariant connects == old(connects) + FlatMap(f, s[..k])
      {
        connects := connects + f(s[k]);
        assert s[..k + 1][..k] == s[..k];
      }
      assert s[..|s|] == s;
    }

    method AddMacroConnects<S>(f: S -> MacroConnectOut, s: seq<S>)
      modifies this`macroConnects
      ensures macroConnects == old(macroConnects) + MapSeq(f, s)
    {
      for k := 0 to |s|
        invariant macroConnects == old(macroConnects) + MapSeq(f, s[..k])
      {
        macroConnects := macroConnects + [f(s[k])];
        assert s[..k + 1] == s[..k] + [s[k]];
        MapSeqAppend(f, s[..k], s[k]);
      }
      assert s[..|s|] == s;
    }

    method AddDynamicModelMacroConnects(models: seq<DynamicModelDefinition>)
      modifies this`macroConnects
      ensures macroConnects == old(macroConnects) + FlatMap(MacroConnectsOf, models)
    {
      for k := 0 to |models|
        invariant macroConnects == old(macroConnects) + FlatMap(MacroConnectsOf, models[..k])
      {
        var connects := WriteDynamicModelMacroConnect(models[k]);
        macroConnects := macroConnects + connects;
        assert models[..k + 1][..k] == models[..k];
      }
      assert models[..|models|] == models;
    }

    method AddGenMacroConnects(gens: seq<GeneratorDefinition>)
      modifies this`macroConnects
      ensures macroConnects == old(macroConnects) + GenMacroConnects(gens)
    {
      for k := 0 to |gens|
        invariant macroConnects == old(macroConnects) + GenMacroConnects(gens[..k])
      {
        macroConnects := macroConnects + WriteGenMacroConnect(gens[k], k);
        assert gens[..k + 1][..k] == gens[..k];
      }
      assert gens[..|gens|] == gens;
    }
  }

  // Dyd::write adds the elements of the file in one pass; the four lists are
  // written here one after the other.

  method WriteMacroConnectors(d: Definition, c: DynamicModelsCollection)
    requires c.macroConnectors == []
    modifies c`macroConnectors
    ensures c.macroConnectors == FileMacroConnectors(d)
  {
    c.macroConnectors := c.macroConnectors + ConstantMacroConnectors();
    var used := WriteDynamicModelMacroConnectors(d.doc.macroConnections, d.usedMacroConnections);
    c.macroConnectors := c.macroConnectors + used;
  }

  method WriteModels(d: Definition, c: DynamicModelsCollection)
    requires c.models == []
    modifies c`models
    ensures c.models == FileModels(d)
  {
    c.AddModels(WriteLoad, d.loads);
    assert c.models == MapSeq(WriteLoad, d.loads);
    ghost var m1 := c.models;
    c.models := c.models + WriteConstantsModel();
    c.AddModels(GeneratorWriter(d), d.generators);
    ghost var m2 := c.models;
    assert m2 == m1 + WriteConstantsModel() + MapSeq(GeneratorWriter(d), d.generators);
    c.AddModels(WriteHvdcLine, d.hvdcLines);
    c.AddModels(WriteVRRemote, d.busesWithDynamicModel);
    ghost var m3 := c.models;
    assert m3 == m2 + MapSeq(WriteHvdcLine, d.hvdcLines) + MapSeq(WriteVRRemote, d.busesWithDynamicModel);
    c.AddModels(WriteVRRemote, d.vscBuses);
    c.AddModels(WriteDynamicModel, d.dynamicModels);
    c.AddModels(WriteSVarC, d.svarcs);
    assert c.models == m3 + MapSeq(WriteVRRemote, d.vscBuses) + MapSeq(WriteDynamicModel, d.dynamicModels)
                       + MapSeq(WriteSVarC, d.svarcs);
  }

  method WriteConnects(d: Definition, c: DynamicModelsCollection)
    requires c.connects == []
    modifies c`connects
    ensures c.connects == FileConnects(d)
  {
    c.AddConnects(WriteHvdcLineConnect, d.hvdcLines);
    assert c.connects == FlatMap(WriteHvdcLineConnect, d.hvdcLines);
    ghost var c1 := c.connects;
    c.AddConnects(WriteVRRemoteConnect, d.busesWithDynamicModel);
    c.AddConnects(WriteVRRemoteConnect, d.vscBuses);
    ghost var c2 := c.connects;
    assert c2 == c1 + FlatMap(WriteVRRemoteConnect, d.busesWithDynamicModel) + FlatMap(WriteVRRemoteConnect, d.vscBuses);
    c.connects := c.connects + [SlackConnect(d)];
    c.AddConnects(WriteGenConnect, d.generators);
    assert c.connects == c2 + [SlackConnect(d)] + FlatMap(WriteGenConnect, d.generators);
  }

  method WriteMacroConnects(d: Definition, c: DynamicModelsCollection)
    requires c.macroConnects == []
    modifies c`macroConnects
    ensures c.macroConnects == FileMacroConnects(d)
  {
    c.AddMacroConnects(WriteLoadConnect, d.loads);
    assert c.macroConnects == MapSeq(WriteLoadConnect, d.loads);
    c.AddDynamicModelMacroConnects(d.dynamicModels);
    c.AddMacroConnects(WriteSVarCMacroConnect, d.svarcs);
    c.AddGenMacroConnects(d.generators);
  }

  /** Dyd::write. */
  method Write(d: Definition) returns (c: DynamicModelsCollection)
    ensures fresh(c) && c.models == FileModels(d) && c.connects == FileConnects(d)
    ensures c.macroConnectors == FileMacroConnectors(d) && c.macroConnects == FileMacroConnects(d)
  {
    c := new DynamicModelsCollection();
    WriteMacroConnectors(d, c);
    WriteModels(d, c);
    WriteConnects(d, c);
    WriteMacroConnects(d, c);
  }
}
