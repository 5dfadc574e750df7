/**
 The network as the launcher sees it: what it reads from the input file, the
 node records it builds, and each build operation as a function on the records.
 */
module Network {
  import opened Wrappers
  import opened Reachability

  // ---------------------------------------------------------------------------
  // Services of Dynawo, which the launcher calls and this model leaves open

  datatype Services = Services(
    doubleEquals: (real, real) -> bool,
    doubleIsZero: real -> bool,
    regulatedBus: Id -> Id,
    busesConnectedBySwitch: (Id, Id) -> seq<Id>)

  // ---------------------------------------------------------------------------
  // Elements

  datatype Point = Point(p: real, qmin: real, qmax: real)

  datatype Generator = Generator(
    id: Id,
    points: seq<Point>,
    qmin: real, qmax: real, pmin: real, pmax: real, targetP: real,
    regulatedBusId: Id,
    connectedBusId: Id)

  datatype ConverterType = VSC | LCC

  datatype Converter =
    | VSCConverter(id: Id, busId: Id, voltageRegulationOn: bool, qMax: real, qMin: real, points: seq<Point>)
    | LCCConverter(id: Id, busId: Id, powerFactor: real)

  datatype HvdcLine = HvdcLine(
    id: Id,
    converterType: ConverterType,
    converter1: Converter,
    converter2: Converter,
    droop: Option<real>,
    pMax: real)
  {
    /** What the constructor of the line asserts, and distinct converters. */
    predicate Valid() {
      && (converterType == VSC <==> converter1.VSCConverter?)
      && (converterType == VSC <==> converter2.VSCConverter?)
      && converter1.id != converter2.id
    }
  }

  /** A converter on a node, with the line it belongs to. */
  datatype Station = Station(line: HvdcLine, converter: Converter)

  datatype NbOfRegulating = ONE | MULTIPLES

  type BusMapRegulating = map<Id, NbOfRegulating>

  /** A node, frozen: neighbours, lines and transformers by id. */
  datatype NodeRecord = NodeRecord(
    id: Id,
    voltageLevel: Id,
    nominalVoltage: real,
    shunts: seq<Id>,
    lines: seq<Id>,
    tfos: seq<Id>,
    neighbours: seq<Id>,
    generators: seq<Generator>,
    converters: seq<Station>)

  type Nodes = map<Id, NodeRecord>

  function GraphOf(nodes: Nodes): Graph {
    map id | id in nodes :: nodes[id].neighbours
  }

  // ---------------------------------------------------------------------------
  // Input

  datatype GeneratorData = GeneratorData(
    id: Id, bus: Id, connected: bool, voltageRegulationOn: bool, points: seq<Point>,
    qmin: real, qmax: real, pmin: real, pmax: real, targetP: real)

  datatype ShuntData = ShuntData(id: Id, bus: Id)

  datatype SwitchData = SwitchData(id: Id, isOpen: bool, bus1: Id, bus2: Id)

  datatype VoltageLevelData = VoltageLevelData(
    id: Id, vNom: real, buses: seq<Id>, shunts: seq<ShuntData>,
    generators: seq<GeneratorData>, switches: seq<SwitchData>)

  /** A line or a transformer with two windings. */
  datatype BranchData = BranchData(id: Id, bus1: Id, bus2: Id, connected1: bool, connected2: bool)

  datatype ThreeWindingData = ThreeWindingData(
    id: Id, bus1: Id, bus2: Id, bus3: Id, connected1: bool, connected2: bool, connected3: bool)

  datatype HvdcData = HvdcData(line: HvdcLine, connected1: bool, connected2: bool)

  datatype NetworkData = NetworkData(
    voltageLevels: seq<VoltageLevelData>,
    lines: seq<BranchData>,
    tfos: seq<BranchData>,
    threeWindings: seq<ThreeWindingData>,
    hvdcLines: seq<HvdcData>)

  // ---------------------------------------------------------------------------
  // Connections

  datatype LinkKind = Switch | Line | Tfo

  /** A link joins two nodes; a transformer with three windings joins each of its
      three nodes to the other two. */
  datatype Connection = Link(kind: LinkKind, id: Id, a: Id, b: Id) | Star(id: Id, a: Id, b: Id, c: Id)
  {
    predicate Joins(known: set<Id>) {
      a in known && b in known && (Star? ==> c in known)
    }
  }

  function Only<T>(condition: bool, s: seq<T>): seq<T> {
    if condition then s else []
  }

  /** What one connection appends to the neighbours of n. */
  function EndsAt(x: Connection, n: Id): seq<Id> {
    match x
    case Link(_, _, a, b) => Only(n == a, [b]) + Only(n == b, [a])
    case Star(_, a, b, c) => Only(n == a, [b, c]) + Only(n == b, [a, c]) + Only(n == c, [a, b])
  }

  /** The neighbours of n once the connections have been made, in order. */
  function NeighboursAt(xs: seq<Connection>, n: Id): seq<Id> {
    if xs == [] then [] else NeighboursAt(xs[..|xs| - 1], n) + EndsAt(xs[|xs| - 1], n)
  }

  function LineEndsAt(x: Connection, n: Id): seq<Id> {
    if x.Link? && x.kind == Line then Only(n == x.a, [x.id]) + Only(n == x.b, [x.id]) else []
  }

  function LinesAt(xs: seq<Connection>, n: Id): seq<Id> {
    if xs == [] then [] else LinesAt(xs[..|xs| - 1], n) + LineEndsAt(xs[|xs| - 1], n)
  }

  function TfoEndsAt(x: Connection, n: Id): seq<Id> {
    if x.Star? then Only(n == x.a, [x.id]) + Only(n == x.b, [x.id]) + Only(n == x.c, [x.id])
    else if x.kind == Tfo then Only(n == x.a, [x.id]) + Only(n == x.b, [x.id])
    else []
  }

  function TfosAt(xs: seq<Connection>, n: Id): seq<Id> {
    if xs == [] then [] else TfosAt(xs[..|xs| - 1], n) + TfoEndsAt(xs[|xs| - 1], n)
  }

  function ClosedSwitches(switches: seq<SwitchData>): seq<Connection> {
    if switches == [] then []
    else
      var sw := switches[|switches| - 1];
      ClosedSwitches(switches[..|switches| - 1]) + Only(!sw.isOpen, [Link(Switch, sw.id, sw.bus1, sw.bus2)])
  }

  function AllSwitches(levels: seq<VoltageLevelData>): seq<Connection> {
    if levels == [] then []
    else AllSwitches(levels[..|levels| - 1]) + ClosedSwitches(levels[|levels| - 1].switches)
  }

  function ConnectedBranches(kind: LinkKind, branches: seq<BranchData>): seq<Connection> {
    if branches == [] then []
    else
      var l := branches[|branches| - 1];
      ConnectedBranches(kind, branches[..|branches| - 1])
      + Only(l.connected1 && l.connected2, [Link(kind, l.id, l.bus1, l.bus2)])
  }

  function ConnectedStars(tfos: seq<ThreeWindingData>): seq<Connection> {
    if tfos == [] then []
    else
      var t := tfos[|tfos| - 1];
      ConnectedStars(tfos[..|tfos| - 1])
      + Only(t.connected1 && t.connected2 && t.connected3, [Star(t.id, t.bus1, t.bus2, t.bus3)])
  }

  function Connections(data: NetworkData): seq<Connection> {
    AllSwitches(data.voltageLevels) + ConnectedBranches(Line, data.lines) + ConnectedBranches(Tfo, data.tfos)
    + ConnectedStars(data.threeWindings)
  }

  /** A record with one more connection. */
  function Joined(r: NodeRecord, x: Connection): NodeRecord {
    r.(neighbours := r.neighbours + EndsAt(x, r.id),
       lines := r.lines + LineEndsAt(x, r.id),
       tfos := r.tfos + TfoEndsAt(x, r.id))
  }

  function JoinEvery(nodes: Nodes, x: Connection): Nodes {
    map id | id in nodes :: Joined(nodes[id], x)
  }

  function ConnectAll(nodes: Nodes, xs: seq<Connection>): Nodes {
    if xs == [] then nodes else JoinEvery(ConnectAll(nodes, xs[..|xs| - 1]), xs[|xs| - 1])
  }

  // ---------------------------------------------------------------------------
  // Regulated buses

  function CountRegulating(m: BusMapRegulating, bus: Id): BusMapRegulating {
    m[bus := if bus in m then MULTIPLES else ONE]
  }

  function CountAll(m: BusMapRegulating, buses: seq<Id>): BusMapRegulating {
    if buses == [] then m else CountRegulating(CountAll(m, buses[..|buses| - 1]), buses[|buses| - 1])
  }

  /** Connected, regulating voltage, and with a power reference inside its range. */
  predicate IsKept(env: Services, g: GeneratorData) {
    && g.connected
    && g.voltageRegulationOn
    && (env.doubleEquals(-g.targetP, g.pmin) || -g.targetP > g.pmin)
    && (env.doubleEquals(-g.targetP, g.pmax) || -g.targetP < g.pmax)
  }

  function GeneratorOf(env: Services, g: GeneratorData): Generator {
    Generator(g.id, g.points, g.qmin, g.qmax, g.pmin, g.pmax, g.targetP, env.regulatedBus(g.id), g.bus)
  }

  function KeptGenerators(env: Services, gens: seq<GeneratorData>): seq<Generator> {
    if gens == [] then []
    else
      var g := gens[|gens| - 1];
      KeptGenerators(env, gens[..|gens| - 1]) + Only(IsKept(env, g), [GeneratorOf(env, g)])
  }

  function AllGenerators(env: Services, levels: seq<VoltageLevelData>): seq<Generator> {
    if levels == [] then []
    else AllGenerators(env, levels[..|levels| - 1]) + KeptGenerators(env, levels[|levels| - 1].generators)
  }

  /** A record with a generator, if it is on its bus. */
  function Hosting(r: NodeRecord, g: Generator): NodeRecord {
    r.(generators := r.generators + Only(g.connectedBusId == r.id, [g]))
  }

  function HostEvery(nodes: Nodes, g: Generator): Nodes {
    map id | id in nodes :: Hosting(nodes[id], g)
  }

  function PutGenerators(nodes: Nodes, gens: seq<Generator>): Nodes {
    if gens == [] then nodes else HostEvery(PutGenerators(nodes, gens[..|gens| - 1]), gens[|gens| - 1])
  }

  function GeneratorsAt(gens: seq<Generator>, n: Id): seq<Generator> {
    if gens == [] then []
    else
      var g := gens[|gens| - 1];
      GeneratorsAt(gens[..|gens| - 1], n) + Only(g.connectedBusId == n, [g])
  }

  /** The bus map after counting a list of regulated buses. */
  ghost predicate CountsBuses(m: BusMapRegulating, buses: seq<Id>) {
    forall b: Id ::
      && (b in m <==> multiset(buses)[b] >= 1)
      && (b in m ==> (m[b] == ONE <==> multiset(buses)[b] == 1))
  }

  function RegulatedBuses(gens: seq<Generator>): seq<Id> {
    seq(|gens|, i requires 0 <= i < |gens| => gens[i].regulatedBusId)
  }

  // ---------------------------------------------------------------------------
  // HVDC lines

  function ConnectedHvdc(lines: seq<HvdcData>): seq<HvdcLine> {
    if lines == [] then []
    else
      var l := lines[|lines| - 1];
      ConnectedHvdc(lines[..|lines| - 1]) + Only(l.connected1 && l.connected2, [l.line])
  }

  function StationsOf(lines: seq<HvdcLine>): seq<Station> {
    if lines == [] then []
    else
      var l := lines[|lines| - 1];
      StationsOf(lines[..|lines| - 1]) + [Station(l, l.converter1), Station(l, l.converter2)]
  }

  /** A record with a converter, if it is on its bus. */
  function Converting(r: NodeRecord, s: Station): NodeRecord {
    r.(converters := r.converters + Only(s.converter.busId == r.id, [s]))
  }

  function ConvertEvery(nodes: Nodes, s: Station): Nodes {
    map id | id in nodes :: Converting(nodes[id], s)
  }

  function PutStations(nodes: Nodes, stations: seq<Station>): Nodes {
    if stations == [] then nodes
    else ConvertEvery(PutStations(nodes, stations[..|stations| - 1]), stations[|stations| - 1])
  }

  function StationsAt(stations: seq<Station>, n: Id): seq<Station> {
    if stations == [] then []
    else
      var s := stations[|stations| - 1];
      StationsAt(stations[..|stations| - 1], n) + Only(s.converter.busId == n, [s])
  }

  /** The buses the converters of the VSC lines regulate. */
  function VscRegulatedBuses(env: Services, lines: seq<HvdcLine>): seq<Id> {
    if lines == [] then []
    else
      var l := lines[|lines| - 1];
      VscRegulatedBuses(env, lines[..|lines| - 1]) + VscBusesOf(env, l)
  }

  function VscBusesOf(env: Services, l: HvdcLine): seq<Id> {
    Only(l.converterType == VSC, [env.regulatedBus(l.converter1.id), env.regulatedBus(l.converter2.id)])
  }

  // ---------------------------------------------------------------------------
  // Nodes

  function ShuntsAt(shunts: seq<ShuntData>, n: Id): seq<Id> {
    if shunts == [] then []
    else
      var s := shunts[|shunts| - 1];
      ShuntsAt(shunts[..|shunts| - 1], n) + Only(s.bus == n, [s.id])
  }

  /** A bus, with the voltage level it belongs to. */
  datatype Bus = Bus(level: VoltageLevelData, id: Id)

  function BusesOf(vl: VoltageLevelData): seq<Bus> {
    seq(|vl.buses|, i requires 0 <= i < |vl.buses| => Bus(vl, vl.buses[i]))
  }

  function AllBuses(levels: seq<VoltageLevelData>): seq<Bus> {
    if levels == [] then [] else AllBuses(levels[..|levels| - 1]) + BusesOf(levels[|levels| - 1])
  }

  function BusIds(buses: seq<Bus>): seq<Id> {
    seq(|buses|, i requires 0 <= i < |buses| => buses[i].id)
  }

  function KnownBuses(levels: seq<VoltageLevelData>): set<Id> {
    if levels == [] then {} else KnownBuses(levels[..|levels| - 1]) + Elements(levels[|levels| - 1].buses)
  }

  lemma {:induction false} KnownInSome(levels: seq<VoltageLevelData>, b: Id)
    ensures b in KnownBuses(levels) ==> exists i :: 0 <= i < |levels| && b in levels[i].buses
    decreases |levels|
  {
    if levels != [] && b in KnownBuses(levels) && b !in levels[|levels| - 1].buses {
      KnownInSome(levels[..|levels| - 1], b);
    }
  }

  /** The nodes of each voltage level, in the order of its buses. */
  function LevelNodes(levels: seq<VoltageLevelData>): map<Id, seq<Id>> {
    if levels == [] then map[]
    else LevelNodes(levels[..|levels| - 1])[levels[|levels| - 1].id := levels[|levels| - 1].buses]
  }

  /** What the input file guarantees: bus ids and voltage level ids are unique,
      and every element that is connected is on known buses. */
  ghost predicate WellFormed(data: NetworkData) {
    var known := KnownBuses(data.voltageLevels);
    && LevelsWellFormed(data.voltageLevels)
    && (forall l <- data.lines :: BranchWellFormed(known, l))
    && (forall l <- data.tfos :: BranchWellFormed(known, l))
    && (forall t <- data.threeWindings :: t.connected1 && t.connected2 && t.connected3 ==>
          t.bus1 in known && t.bus2 in known && t.bus3 in known)
    && (forall d <- data.hvdcLines :: HvdcWellFormed(known, d))
    && (forall i, j :: 0 <= i < j < |data.hvdcLines| ==> data.hvdcLines[i].line.id != data.hvdcLines[j].line.id)
  }

  ghost predicate BranchWellFormed(known: set<Id>, l: BranchData) {
    l.connected1 && l.connected2 ==> l.bus1 in known && l.bus2 in known
  }

  ghost predicate HvdcWellFormed(known: set<Id>, d: HvdcData) {
    && d.line.Valid()
    && (d.connected1 && d.connected2 ==> d.line.converter1.busId in known && d.line.converter2.busId in known)
  }

  ghost predicate LevelsWellFormed(levels: seq<VoltageLevelData>) {
    && (forall vl <- levels :: LevelWellFormed(vl))
    && (forall i, j :: 0 <= i < j < |levels| ==>
          levels[i].id != levels[j].id && forall b <- levels[i].buses :: b !in levels[j].buses)
  }

  ghost predicate LevelWellFormed(vl: VoltageLevelData) {
    && NoDuplicates(vl.buses)
    && (forall g <- vl.generators :: g.connected ==> g.bus in vl.buses)
    && (forall sw <- vl.switches :: !sw.isOpen ==> sw.bus1 in vl.buses && sw.bus2 in vl.buses)
  }

  function PutBuses(nodes: Nodes, buses: seq<Bus>): Nodes {
    if buses == [] then nodes
    else
      var b := buses[|buses| - 1];
      PutBuses(nodes, buses[..|buses| - 1])[b.id := RecordAt(b, [], [], [])]
  }

  /** The nodes built from the voltage levels, one after the other. */
  function BuildLevels(env: Services, levels: seq<VoltageLevelData>): Nodes {
    if levels == [] then map[]
    else WithLevel(env, BuildLevels(env, levels[..|levels| - 1]), levels[|levels| - 1])
  }

  function WithLevel(env: Services, nodes: Nodes, vl: VoltageLevelData): Nodes {
    var withGenerators := PutGenerators(PutBuses(nodes, BusesOf(vl)), KeptGenerators(env, vl.generators));
    ConnectAll(withGenerators, ClosedSwitches(vl.switches))
  }

  /** All the nodes of the network. */
  function BuildNodes(env: Services, data: NetworkData): Nodes {
    var withLines := ConnectAll(BuildLevels(env, data.voltageLevels), ConnectedBranches(Line, data.lines));
    var withTfos := ConnectAll(withLines, ConnectedBranches(Tfo, data.tfos));
    var withStars := ConnectAll(withTfos, ConnectedStars(data.threeWindings));
    PutStations(withStars, StationsOf(ConnectedHvdc(data.hvdcLines)))
  }

  /** The record of a bus, given everything that was added. */
  function RecordAt(b: Bus, xs: seq<Connection>, gens: seq<Generator>, stations: seq<Station>): NodeRecord {
    NodeRecord(b.id, b.level.id, b.level.vNom, ShuntsAt(b.level.shunts, b.id), LinesAt(xs, b.id), TfosAt(xs, b.id),
               NeighboursAt(xs, b.id), GeneratorsAt(gens, b.id), StationsAt(stations, b.id))
  }

  /** The records are those of the buses, and nothing else. */
  ghost predicate Describes(nodes: Nodes, buses: seq<Bus>, xs: seq<Connection>, gens: seq<Generator>,
                            stations: seq<Station>)
  {
    && nodes.Keys == Elements(BusIds(buses))
    && forall b <- buses :: b.id in nodes && nodes[b.id] == RecordAt(b, xs, gens, stations)
  }
}
