/** HVDCDefinitionAlgorithm: the HVDC lines of the main component and their models. */
module Hvdc {
  import opened Wrappers
  import opened Reachability
  import opened Network

  // ---------------------------------------------------------------------------
  // Definitions

  datatype Position = FIRST_IN_MAIN_COMPONENT | SECOND_IN_MAIN_COMPONENT | BOTH_IN_MAIN_COMPONENT

  datatype HVDCModel =
    | HvdcPTanPhi
    | HvdcPTanPhiDangling
    | HvdcPTanPhiDanglingDiagramPQ
    | HvdcPTanPhiDiagramPQ
    | HvdcPQProp
    | HvdcPQPropDangling
    | HvdcPQPropDanglingDiagramPQ
    | HvdcPQPropDiagramPQ
    | HvdcPQPropDiagramPQEmulation
    | HvdcPQPropEmulation
    | HvdcPV
    | HvdcPVDangling
    | HvdcPVDanglingDiagramPQ
    | HvdcPVDiagramPQ
    | HvdcPVDiagramPQEmulation
    | HvdcPVEmulation

  datatype VSCDefinition = VSCDefinition(id: Id, qmax: real, qmin: real, pmax: real, pmin: real, points: seq<Point>)

  function MakeVSC(id: Id, qMax: real, qMin: real, pMax: real, points: seq<Point>): VSCDefinition {
    VSCDefinition(id, qMax, qMin, pMax, -pMax, points)
  }

  datatype HVDCDefinition = HVDCDefinition(
    id: Id,
    converterType: ConverterType,
    converter1Id: Id, converter1BusId: Id, converter1VoltageRegulationOn: Option<bool>,
    converter2Id: Id, converter2BusId: Id, converter2VoltageRegulationOn: Option<bool>,
    position: Position,
    model: HVDCModel,
    powerFactors: (real, real),
    pMax: real,
    vscDefinition1: Option<VSCDefinition>,
    vscDefinition2: Option<VSCDefinition>,
    droop: Option<real>)
  {
    predicate HasDiagramModel() {
      || model == HvdcPTanPhiDanglingDiagramPQ || model == HvdcPQPropDanglingDiagramPQ || model == HvdcPVDanglingDiagramPQ
      || model == HvdcPTanPhiDiagramPQ || model == HvdcPQPropDiagramPQ || model == HvdcPQPropDiagramPQEmulation
      || model == HvdcPVDiagramPQ || model == HvdcPVDiagramPQEmulation
    }

    predicate HasEmulationModel() {
      || model == HvdcPQPropEmulation || model == HvdcPQPropDiagramPQEmulation || model == HvdcPVEmulation
      || model == HvdcPVDiagramPQEmulation
    }

    predicate HasPQPropModel() {
      || model == HvdcPQPropDangling || model == HvdcPQPropDanglingDiagramPQ || model == HvdcPQProp
      || model == HvdcPQPropDiagramPQ || model == HvdcPQPropEmulation || model == HvdcPQPropDiagramPQEmulation
    }

    predicate HasDanglingModel() {
      || model == HvdcPTanPhiDangling || model == HvdcPTanPhiDanglingDiagramPQ || model == HvdcPQPropDangling
      || model == HvdcPQPropDanglingDiagramPQ || model == HvdcPVDangling || model == HvdcPVDanglingDiagramPQ
    }
  }

  /** A bus with a converter on it. */
  datatype VSCBusPair = VSCBusPair(bus: Id, vsc: Id)

  datatype HVDCModelDefinition = HVDCModelDefinition(model: HVDCModel, vscBusIdsMultipleRegulated: seq<VSCBusPair>)

  datatype Config = Config(infiniteReactiveLimits: bool, busMap: BusMapRegulating)
  {
    predicate Multiple(bus: Id) {
      bus in busMap && busMap[bus] == MULTIPLES
    }
  }

  function PairOf(c: Converter): VSCBusPair {
    VSCBusPair(c.busId, c.id)
  }

  // ---------------------------------------------------------------------------
  // Models

  function GetBusRegulatedByMultipleVSC(cfg: Config, line: HvdcLine, position: Position): seq<VSCBusPair> {
    match position
    case FIRST_IN_MAIN_COMPONENT => if cfg.Multiple(line.converter1.busId) then [PairOf(line.converter1)] else []
    case SECOND_IN_MAIN_COMPONENT => if cfg.Multiple(line.converter2.busId) then [PairOf(line.converter2)] else []
    case BOTH_IN_MAIN_COMPONENT =>
      if cfg.Multiple(line.converter1.busId) || cfg.Multiple(line.converter2.busId) then
        [PairOf(line.converter1), PairOf(line.converter2)]
      else []
  }

  function ComputeModelVSC(cfg: Config, line: HvdcLine, position: Position, multipleInfinite: HVDCModel,
                           multipleFinite: HVDCModel, oneInfinite: HVDCModel, oneFinite: HVDCModel): HVDCModelDefinition
  {
    var pairs := GetBusRegulatedByMultipleVSC(cfg, line, position);
    if |pairs| > 0 then HVDCModelDefinition(if cfg.infiniteReactiveLimits then multipleInfinite else multipleFinite, pairs)
    else HVDCModelDefinition(if cfg.infiniteReactiveLimits then oneInfinite else oneFinite, pairs)
  }

  function ComputeModel(cfg: Config, line: HvdcLine, position: Position): HVDCModelDefinition {
    if position == BOTH_IN_MAIN_COMPONENT then
      if line.converterType == LCC then
        HVDCModelDefinition(if cfg.infiniteReactiveLimits then HvdcPTanPhi else HvdcPTanPhiDiagramPQ, [])
      else if line.droop == None then
        ComputeModelVSC(cfg, line, position, HvdcPQProp, HvdcPQPropDiagramPQ, HvdcPV, HvdcPVDiagramPQ)
      else
        ComputeModelVSC(cfg, line, position, HvdcPQPropEmulation, HvdcPQPropDiagramPQEmulation, HvdcPVEmulation,
                        HvdcPVDiagramPQEmulation)
    else
      if line.converterType == LCC then
        HVDCModelDefinition(if cfg.infiniteReactiveLimits then HvdcPTanPhiDangling else HvdcPTanPhiDanglingDiagramPQ, [])
      else
        ComputeModelVSC(cfg, line, position, HvdcPQPropDangling, HvdcPQPropDanglingDiagramPQ, HvdcPVDangling,
                        HvdcPVDanglingDiagramPQ)
  }

  // ---------------------------------------------------------------------------
  // The walk

  datatype Definitions = Definitions(hvdcLines: map<Id, HVDCDefinition>, vscBuses: map<Id, VSCDefinition>)

  function VSCOf(c: Converter, pMax: real): Option<VSCDefinition> {
    match c
    case VSCConverter(id, _, _, qMax, qMin, points) => Some(MakeVSC(id, qMax, qMin, pMax, points))
    case LCCConverter(_, _, _) => None
  }

  function RegulationOf(c: Converter): Option<bool> {
    match c
    case VSCConverter(_, _, on, _, _, _) => Some(on)
    case LCCConverter(_, _, _) => None
  }

  function PowerFactorOf(c: Converter): real {
    match c
    case VSCConverter(_, _, _, _, _, _) => 0.0
    case LCCConverter(_, _, powerFactor) => powerFactor
  }

  /** The definition of a line with a given position and model. */
  function DefinitionOf(line: HvdcLine, position: Position, model: HVDCModel): HVDCDefinition {
    HVDCDefinition(
      line.id, line.converterType,
      line.converter1.id, line.converter1.busId, RegulationOf(line.converter1),
      line.converter2.id, line.converter2.busId, RegulationOf(line.converter2),
      position, model,
      (PowerFactorOf(line.converter1), PowerFactorOf(line.converter2)),
      line.pMax,
      VSCOf(line.converter1, line.pMax), VSCOf(line.converter2, line.pMax),
      line.droop)
  }

  /** std::inserter on a map: a key that is present keeps its value. */
  function InsertPairs(m: map<Id, VSCDefinition>, pairs: seq<VSCBusPair>, visited: Converter, pMax: real)
    : map<Id, VSCDefinition>
    requires pairs != [] ==> visited.VSCConverter?
    decreases |pairs|
  {
    if pairs == [] then m
    else
      var vsc := MakeVSC(pairs[0].vsc, visited.qMax, visited.qMin, pMax, visited.points);
      InsertPairs(if pairs[0].bus in m then m else m[pairs[0].bus := vsc], pairs[1..], visited, pMax)
  }

  /** A converter is of the kind of its line. */
  predicate OfItsKind(s: Station) {
    s.line.Valid() && (s.converter.VSCConverter? <==> s.line.converterType == VSC)
  }

  /** What one converter of a visited node does to the definitions. A converter that
      is not one of its line's two leaves the definition it may have created. */
  function VisitStation(cfg: Config, d: Definitions, s: Station): Definitions
    requires OfItsKind(s)
  {
    var existing :=
      if s.line.id in d.hvdcLines then d.hvdcLines[s.line.id]
      else DefinitionOf(s.line, BOTH_IN_MAIN_COMPONENT, HvdcPTanPhi);
    if s.line.id in d.hvdcLines then PlaceAt(cfg, d, s, existing, BOTH_IN_MAIN_COMPONENT)
    else if s.converter.id == s.line.converter1.id then PlaceAt(cfg, d, s, existing, FIRST_IN_MAIN_COMPONENT)
    else if s.converter.id == s.line.converter2.id then PlaceAt(cfg, d, s, existing, SECOND_IN_MAIN_COMPONENT)
    else d.(hvdcLines := d.hvdcLines[s.line.id := existing])
  }

  function PlaceAt(cfg: Config, d: Definitions, s: Station, existing: HVDCDefinition, position: Position): Definitions
    requires OfItsKind(s)
  {
    var computed := ComputeModel(cfg, s.line, position);
    Definitions(
      d.hvdcLines[s.line.id := existing.(position := position, model := computed.model)],
      InsertPairs(d.vscBuses, computed.vscBusIdsMultipleRegulated, s.converter, s.line.pMax))
  }

  /** Every converter is one of its line's two. */
  ghost predicate StationsValid(stations: seq<Station>) {
    forall s <- stations :: s.line.Valid() && (s.converter == s.line.converter1 || s.converter == s.line.converter2)
  }

  function VisitStations(cfg: Config, d: Definitions, stations: seq<Station>): Definitions
    requires forall s <- stations :: OfItsKind(s)
  {
    if stations == [] then d
    else VisitStation(cfg, VisitStations(cfg, d, stations[..|stations| - 1]), stations[|stations| - 1])
  }

  class HVDCDefinitionAlgorithm {
    const cfg: Config
    var hvdcLines: map<Id, HVDCDefinition>
    var vscBusVSCDefinitionsMap: map<Id, VSCDefinition>

    ghost function View(): Definitions
      reads this
    {
      Definitions(hvdcLines, vscBusVSCDefinitionsMap)
    }

    constructor (cfg: Config)
      ensures this.cfg == cfg && View() == Definitions(map[], map[])
    {
      this.cfg := cfg;
      hvdcLines, vscBusVSCDefinitionsMap := map[], map[];
    }

    method GetOrCreateHvdcLineDefinition(line: HvdcLine) returns (definition: HVDCDefinition, alreadyInserted: bool)
      requires line.Valid()
      modifies this`hvdcLines
      ensures alreadyInserted == (line.id in old(hvdcLines))
      ensures definition == if alreadyInserted then old(hvdcLines)[line.id]
                            else DefinitionOf(line, BOTH_IN_MAIN_COMPONENT, HvdcPTanPhi)
      ensures hvdcLines == old(hvdcLines)[line.id := definition]
    {
      alreadyInserted := line.id in hvdcLines;
      if alreadyInserted {
        definition := hvdcLines[line.id];
      } else {
        var powerFactors := (0.0, 0.0);
        var def1, def2, voltageRegulation1, voltageRegulation2 := None, None, None, None;
        if line.converterType == LCC {
          powerFactors := (line.converter1.powerFactor, line.converter2.powerFactor);
        } else {
          var c1, c2 := line.converter1, line.converter2;
          def1 := Some(MakeVSC(c1.id, c1.qMax, c1.qMin, line.pMax, c1.points));
          def2 := Some(MakeVSC(c2.id, c2.qMax, c2.qMin, line.pMax, c2.points));
          voltageRegulation1, voltageRegulation2 := Some(c1.voltageRegulationOn), Some(c2.voltageRegulationOn);
        }
        definition := HVDCDefinition(
          line.id, line.converterType, line.converter1.id, line.converter1.busId, voltageRegulation1,
          line.converter2.id, line.converter2.busId, voltageRegulation2,
          BOTH_IN_MAIN_COMPONENT, HvdcPTanPhi, powerFactors, line.pMax, def1, def2, line.droop);
        hvdcLines := hvdcLines[line.id := definition];
      }
    }

    method Visit(node: NodeRecord)
      requires forall s <- node.converters :: OfItsKind(s)
      modifies this
      ensures View() == VisitStations(cfg, old(View()), node.converters)
    {
      for k := 0 to |node.converters|
        invariant View() == VisitStations(cfg, old(View()), node.converters[..k])
      {
        VisitConverter(node.converters[k]);
        assert node.converters[..k + 1][..k] == node.converters[..k];
      }
      assert node.converters[..|node.converters|] == node.converters;
    }

    method VisitConverter(s: Station)
      requires OfItsKind(s)
      modifies this
      ensures View() == VisitStation(cfg, old(View()), s)
    {
      var definition, alreadyInserted := GetOrCreateHvdcLineDefinition(s.line);
      if alreadyInserted {
        Place(s, definition, BOTH_IN_MAIN_COMPONENT);
      } else if s.converter.id == s.line.converter1.id {
        Place(s, definition, FIRST_IN_MAIN_COMPONENT);
      } else if s.converter.id == s.line.converter2.id {
        Place(s, definition, SECOND_IN_MAIN_COMPONENT);
      }
    }

    /** The position, the model, and the entries of the VSC bus map. */
    method Place(s: Station, existing: HVDCDefinition, position: Position)
      requires OfItsKind(s)
      modifies this
      ensures View() == PlaceAt(cfg, old(View()), s, existing, position)
    {
      var line, converter := s.line, s.converter;
      var modelDef := ComputeModel(cfg, line, position);
      var definition := existing.(position := position, model := modelDef.model);
      hvdcLines := hvdcLines[line.id := definition];
      var pairs := modelDef.vscBusIdsMultipleRegulated;
      while pairs != []
        invariant InsertPairs(vscBusVSCDefinitionsMap, pairs, converter, line.pMax)
               == InsertPairs(old(vscBusVSCDefinitionsMap), modelDef.vscBusIdsMultipleRegulated, converter, line.pMax)
        invariant hvdcLines == old(hvdcLines)[line.id := definition]
        decreases |pairs|
      {
        if pairs[0].bus !in vscBusVSCDefinitionsMap {
          var vsc := MakeVSC(pairs[0].vsc, converter.qMax, converter.qMin, line.pMax, converter.points);
          vscBusVSCDefinitionsMap := vscBusVSCDefinitionsMap[pairs[0].bus := vsc];
        }
        pairs := pairs[1..];
      }
    }
  }
}
