/**
 NetworkManager::buildTree: the nodes are objects, connected by pushing onto
 their lists; the bus maps are updated in place.
 */
module NetworkManager {
  import opened Reachability
  import opened Network

  class Node {
    const id: Id
    const voltageLevel: Id
    const nominalVoltage: real
    const shunts: seq<Id>
    var lines: seq<Id>
    var tfos: seq<Id>
    var neighbours: seq<Node>
    var generators: seq<Generator>
    var converters: seq<Station>

    constructor (id: Id, vl: VoltageLevelData, shunts: seq<Id>)
      ensures Record() == NodeRecord(id, vl.id, vl.vNom, shunts, [], [], [], [], [])
      ensures this.id == id
    {
      this.id, voltageLevel, nominalVoltage, this.shunts := id, vl.id, vl.vNom, shunts;
      lines, tfos, neighbours, generators, converters := [], [], [], [], [];
    }

    function Record(): NodeRecord
      reads this
    {
      NodeRecord(id, voltageLevel, nominalVoltage, shunts, lines, tfos, Ids(neighbours), generators, converters)
    }
  }

  function Ids(nodes: seq<Node>): seq<Id> {
    seq(|nodes|, i requires 0 <= i < |nodes| => nodes[i].id)
  }

  ghost predicate Distinguished(nodes: set<Node>) {
    forall m, n :: m in nodes && n in nodes && m.id == n.id ==> m == n
  }

  /** A closed switch. */
  method BuildSwitch(sw: Id, node1: Node, node2: Node)
    requires Distinguished({node1, node2})
    modifies node1, node2
    ensures forall n <- {node1, node2} ::
              n.Record() == Joined(old(n.Record()), Link(Switch, sw, node1.id, node2.id))
  {
    node1.neighbours := node1.neighbours + [node2];
    node2.neighbours := node2.neighbours + [node1];
  }

  /** Line::build. */
  method BuildLine(line: Id, node1: Node, node2: Node)
    requires Distinguished({node1, node2})
    modifies node1, node2
    ensures forall n <- {node1, node2} ::
              n.Record() == Joined(old(n.Record()), Link(Line, line, node1.id, node2.id))
  {
    node1.neighbours := node1.neighbours + [node2];
    node2.neighbours := node2.neighbours + [node1];
    node1.lines := node1.lines + [line];
    node2.lines := node2.lines + [line];
  }

  /** Tfo::build for two windings. */
  method BuildTfo(tfo: Id, node1: Node, node2: Node)
    requires Distinguished({node1, node2})
    modifies node1, node2
    ensures forall n <- {node1, node2} ::
              n.Record() == Joined(old(n.Record()), Link(Tfo, tfo, node1.id, node2.id))
  {
    node1.neighbours := node1.neighbours + [node2];
    node2.neighbours := node2.neighbours + [node1];
    node1.tfos := node1.tfos + [tfo];
    node2.tfos := node2.tfos + [tfo];
  }

  /** Tfo::build for three windings. */
  method BuildTfo3(tfo: Id, node1: Node, node2: Node, node3: Node)
    requires Distinguished({node1, node2, node3})
    modifies node1, node2, node3
    ensures forall n <- {node1, node2, node3} ::
              n.Record() == Joined(old(n.Record()), Star(tfo, node1.id, node2.id, node3.id))
  {
    ghost var all := {node1, node2, node3};
    PushNeighbours(node1, node2, node3, all);
    PushNeighbours(node2, node1, node3, all);
    PushNeighbours(node3, node1, node2, all);
    PushTfo(node1, tfo, all);
    PushTfo(node2, tfo, all);
    PushTfo(node3, tfo, all);
    forall n <- all
      ensures n.Record() == Joined(old(n.Record()), Star(tfo, node1.id, node2.id, node3.id))
    {
      Reassociate(old(Ids(n.neighbours)), Only(n.id == node1.id, [node2.id, node3.id]),
                  Only(n.id == node2.id, [node1.id, node3.id]), Only(n.id == node3.id, [node1.id, node2.id]));
      Reassociate(old(n.tfos), Only(n.id == node1.id, [tfo]), Only(n.id == node2.id, [tfo]),
                  Only(n.id == node3.id, [tfo]));
    }
  }

  method PushNeighbours(node: Node, first: Node, second: Node, ghost all: set<Node>)
    requires node in all && Distinguished(all)
    modifies node`neighbours
    ensures forall n <- all ::
              Ids(n.neighbours) == old(Ids(n.neighbours)) + Only(n.id == node.id, [first.id, second.id])
  {
    node.neighbours := node.neighbours + [first];
    node.neighbours := node.neighbours + [second];
  }

  method PushTfo(node: Node, tfo: Id, ghost all: set<Node>)
    requires node in all && Distinguished(all)
    modifies node`tfos
    ensures forall n <- all :: n.tfos == old(n.tfos) + Only(n.id == node.id, [tfo])
  {
    node.tfos := node.tfos + [tfo];
  }

  lemma NotJoined(r: NodeRecord, x: Connection)
    requires r.id != x.a && r.id != x.b && (x.Star? ==> r.id != x.c)
    ensures Joined(r, x) == r
  {
  }

  /** Dispatches a connection between known nodes to its builder. */
  method BuildConnection(x: Connection, nodes: map<Id, Node>)
    requires x.Joins(nodes.Keys) && forall id <- nodes :: nodes[id].id == id
    modifies nodes.Values
    ensures forall id <- nodes :: nodes[id].Record() == Joined(old(nodes[id].Record()), x)
  {
    match x {
      case Link(Switch, id, a, b) => BuildSwitch(id, nodes[a], nodes[b]);
      case Link(Line, id, a, b) => BuildLine(id, nodes[a], nodes[b]);
      case Link(Tfo, id, a, b) => BuildTfo(id, nodes[a], nodes[b]);
      case Star(id, a, b, c) => BuildTfo3(id, nodes[a], nodes[b], nodes[c]);
    }
    forall id <- nodes ensures nodes[id].Record() == Joined(old(nodes[id].Record()), x) {
      if id != x.a && id != x.b && (x.Star? ==> id != x.c) {
        NotJoined(old(nodes[id].Record()), x);
      }
    }
  }

  /** Puts a generator on the node of its bus. */
  method PushGenerator(g: Generator, nodes: map<Id, Node>)
    requires g.connectedBusId in nodes && forall id <- nodes :: nodes[id].id == id
    modifies nodes.Values
    ensures forall id <- nodes :: nodes[id].Record() == Hosting(old(nodes[id].Record()), g)
  {
    var node := nodes[g.connectedBusId];
    node.generators := node.generators + [g];
  }

  /** Puts a converter on the node of its bus. */
  method PushConverter(s: Station, nodes: map<Id, Node>)
    requires s.converter.busId in nodes && forall id <- nodes :: nodes[id].id == id
    modifies nodes.Values
    ensures forall id <- nodes :: nodes[id].Record() == Converting(old(nodes[id].Record()), s)
  {
    var node := nodes[s.converter.busId];
    node.converters := node.converters + [s];
  }

  /** NetworkManager::updateMapRegulatingBuses. */
  method UpdateMapRegulatingBuses(env: Services, m: BusMapRegulating, elementId: Id)
    returns (updated: BusMapRegulating, regulatedBus: Id)
    ensures regulatedBus == env.regulatedBus(elementId)
    ensures updated == CountRegulating(m, regulatedBus)
  {
    regulatedBus := env.regulatedBus(elementId);
    if regulatedBus !in m {
      updated := m[regulatedBus := ONE];
    } else {
      updated := m[regulatedBus := MULTIPLES];
    }
  }

  lemma CountTwo(m: BusMapRegulating, b1: Id, b2: Id)
    ensures CountAll(m, [b1, b2]) == CountRegulating(CountRegulating(m, b1), b2)
  {
    assert [b1, b2][..1] == [b1] && [b1][..0] == [];
    assert CountAll(m, [b1]) == CountRegulating(m, b1);
  }

  lemma {:induction false} CountMore(m: BusMapRegulating, s: seq<Id>, t: seq<Id>)
    ensures CountAll(m, s + t) == CountAll(CountAll(m, s), t)
    decreases |t|
  {
    if t == [] {
      assert s + t == s;
    } else {
      CountMore(m, s, t[..|t| - 1]);
      assert (s + t)[..|s + t| - 1] == s + t[..|t| - 1];
    }
  }

  lemma CountOneMore(env: Services, m: BusMapRegulating, kept: seq<Generator>, g: GeneratorData)
    ensures CountAll(m, RegulatedBuses(kept + Only(IsKept(env, g), [GeneratorOf(env, g)])))
         == if IsKept(env, g) then CountRegulating(CountAll(m, RegulatedBuses(kept)), env.regulatedBus(g.id))
            else CountAll(m, RegulatedBuses(kept))
  {
    var bus := env.regulatedBus(g.id);
    if IsKept(env, g) {
      assert RegulatedBuses(kept + [GeneratorOf(env, g)]) == RegulatedBuses(kept) + [bus];
      assert (RegulatedBuses(kept) + [bus])[..|kept|] == RegulatedBuses(kept);
    } else {
      assert kept + [] == kept;
    }
  }

  lemma NextSwitch(data: seq<SwitchData>, k: nat)
    requires k < |data|
    ensures ClosedSwitches(data[..k + 1])
         == ClosedSwitches(data[..k]) + Only(!data[k].isOpen, [Link(Switch, data[k].id, data[k].bus1, data[k].bus2)])
  {
    assert data[..k + 1][..k] == data[..k];
  }

  lemma NextBranch(kind: LinkKind, data: seq<BranchData>, k: nat)
    requires k < |data|
    ensures var l := data[k];
            ConnectedBranches(kind, data[..k + 1])
            == ConnectedBranches(kind, data[..k])
               + Only(l.connected1 && l.connected2, [Link(kind, l.id, l.bus1, l.bus2)])
  {
    assert data[..k + 1][..k] == data[..k];
  }

  lemma NextStar(data: seq<ThreeWindingData>, k: nat)
    requires k < |data|
    ensures var t := data[k];
            ConnectedStars(data[..k + 1])
            == ConnectedStars(data[..k])
               + Only(t.connected1 && t.connected2 && t.connected3, [Star(t.id, t.bus1, t.bus2, t.bus3)])
  {
    assert data[..k + 1][..k] == data[..k];
  }

  lemma JoinOneMore(nodes: Nodes, xs: seq<Connection>, joins: bool, x: Connection)
    ensures ConnectAll(nodes, xs + Only(joins, [x]))
         == if joins then JoinEvery(ConnectAll(nodes, xs), x) else ConnectAll(nodes, xs)
  {
    if joins {
      assert (xs + [x])[..|xs|] == xs;
    } else {
      assert xs + [] == xs;
    }
  }

  lemma HostOneMore(env: Services, nodes: Nodes, kept: seq<Generator>, g: GeneratorData)
    ensures PutGenerators(nodes, kept + Only(IsKept(env, g), [GeneratorOf(env, g)]))
         == if IsKept(env, g) then HostEvery(PutGenerators(nodes, kept), GeneratorOf(env, g))
            else PutGenerators(nodes, kept)
  {
    if IsKept(env, g) {
      assert (kept + [GeneratorOf(env, g)])[..|kept|] == kept;
    } else {
      assert kept + [] == kept;
    }
  }

  lemma PutOneMore(nodes: Nodes, buses: seq<Bus>, b: Bus)
    ensures PutBuses(nodes, buses + [b]) == PutBuses(nodes, buses)[b.id := RecordAt(b, [], [], [])]
  {
    assert (buses + [b])[..|buses|] == buses;
  }

  lemma ConvertTwoMore(nodes: Nodes, lines: seq<HvdcLine>, l: HvdcLine)
    ensures var s1, s2 := Station(l, l.converter1), Station(l, l.converter2);
            PutStations(nodes, StationsOf(lines + [l]))
            == ConvertEvery(ConvertEvery(PutStations(nodes, StationsOf(lines)), s1), s2)
  {
    var stations, s1, s2 := StationsOf(lines), Station(l, l.converter1), Station(l, l.converter2);
    assert (lines + [l])[..|lines|] == lines;
    assert (stations + [s1, s2])[..|stations| + 1] == stations + [s1];
    assert (stations + [s1])[..|stations|] == stations;
  }

  lemma NextBus(vl: VoltageLevelData, k: nat)
    requires NoDuplicates(vl.buses) && k < |vl.buses|
    ensures BusesOf(vl)[..k + 1] == BusesOf(vl)[..k] + [Bus(vl, vl.buses[k])]
    ensures vl.buses[..k + 1] == vl.buses[..k] + [vl.buses[k]]
    ensures Elements(vl.buses[..k + 1]) == Elements(vl.buses[..k]) + {vl.buses[k]}
    ensures vl.buses[k] !in Elements(vl.buses[..k]) && vl.buses[k] in vl.buses
  {
  }

  lemma NextLevel(env: Services, levels: seq<VoltageLevelData>, k: nat)
    requires LevelsWellFormed(levels) && k < |levels|
    ensures levels[..k + 1][..k] == levels[..k] && LevelWellFormed(levels[k])
    ensures forall b <- levels[k].buses :: b !in KnownBuses(levels[..k])
    ensures CountAll(map[], RegulatedBuses(AllGenerators(env, levels[..k + 1])))
         == CountAll(CountAll(map[], RegulatedBuses(AllGenerators(env, levels[..k]))),
                     RegulatedBuses(KeptGenerators(env, levels[k].generators)))
  {
    assert levels[..k + 1][..k] == levels[..k];
    var before, kept := AllGenerators(env, levels[..k]), KeptGenerators(env, levels[k].generators);
    assert RegulatedBuses(before + kept) == RegulatedBuses(before) + RegulatedBuses(kept);
    CountMore(map[], RegulatedBuses(before), RegulatedBuses(kept));
    forall b <- levels[k].buses ensures b !in KnownBuses(levels[..k]) {
      KnownInSome(levels[..k], b);
    }
  }

  class NetworkManager {
    const env: Services
    var nodes: map<Id, Node>
    var levelNodes: map<Id, seq<Id>>
    var mapBusGeneratorsBusId: BusMapRegulating
    var mapBusVSCConvertersBusId: BusMapRegulating
    var hvdcLines: seq<HvdcLine>

    /** The nodes, frozen. */
    function View(): Nodes
      reads this`nodes, nodes.Values
    {
      map id | id in nodes :: nodes[id].Record()
    }

    ghost predicate Valid()
      reads this`nodes
    {
      forall id <- nodes :: nodes[id].id == id
    }

    constructor (env: Services)
      ensures Valid() && this.env == env && nodes == map[] && levelNodes == map[]
      ensures mapBusGeneratorsBusId == map[] && mapBusVSCConvertersBusId == map[] && hvdcLines == []
    {
      this.env := env;
      nodes, levelNodes := map[], map[];
      mapBusGeneratorsBusId, mapBusVSCConvertersBusId, hvdcLines := map[], map[], [];
    }

    method Connect(x: Connection)
      requires Valid() && x.Joins(nodes.Keys)
      modifies nodes.Values
      ensures View() == JoinEvery(old(View()), x)
    {
      BuildConnection(x, nodes);
    }

    /** Node::build, for one bus of a voltage level. */
    method AddBus(b: Bus)
      requires Valid() && b.id !in nodes
      modifies this`nodes
      ensures Valid() && View() == old(View())[b.id := RecordAt(b, [], [], [])]
      ensures nodes.Keys == old(nodes.Keys) + {b.id} && fresh(nodes.Values - old(nodes.Values))
    {
      var node := new Node(b.id, b.level, ShuntsAt(b.level.shunts, b.id));
      nodes := nodes[b.id := node];
    }

    method Host(g: Generator)
      requires Valid() && g.connectedBusId in nodes
      modifies nodes.Values
      ensures View() == HostEvery(old(View()), g)
    {
      PushGenerator(g, nodes);
    }

    method Convert(s: Station)
      requires Valid() && s.converter.busId in nodes
      modifies nodes.Values
      ensures View() == ConvertEvery(old(View()), s)
    {
      PushConverter(s, nodes);
    }

    method CountGenerator(id: Id) returns (regulatedBus: Id)
      modifies this`mapBusGeneratorsBusId
      ensures regulatedBus == env.regulatedBus(id)
      ensures mapBusGeneratorsBusId == CountRegulating(old(mapBusGeneratorsBusId), regulatedBus)
      ensures View() == old(View())
    {
      mapBusGeneratorsBusId, regulatedBus := UpdateMapRegulatingBuses(env, mapBusGeneratorsBusId, id);
    }

    method KeepGenerator(g: GeneratorData)
      requires Valid() && g.bus in nodes
      modifies this`mapBusGeneratorsBusId, nodes.Values
      ensures View() == HostEvery(old(View()), GeneratorOf(env, g))
      ensures mapBusGeneratorsBusId == CountRegulating(old(mapBusGeneratorsBusId), env.regulatedBus(g.id))
    {
      var regulatedBus := CountGenerator(g.id);
      Host(Generator(g.id, g.points, g.qmin, g.qmax, g.pmin, g.pmax, g.targetP, regulatedBus, g.bus));
    }

    method AddGenerator(g: GeneratorData)
      requires Valid() && (g.connected ==> g.bus in nodes)
      modifies this`mapBusGeneratorsBusId, nodes.Values
      ensures View() == if IsKept(env, g) then HostEvery(old(View()), GeneratorOf(env, g)) else old(View())
      ensures mapBusGeneratorsBusId
           == if IsKept(env, g) then CountRegulating(old(mapBusGeneratorsBusId), env.regulatedBus(g.id))
              else old(mapBusGeneratorsBusId)
    {
      if !g.connected {
        return;
      }
      if g.voltageRegulationOn && (env.doubleEquals(-g.targetP, g.pmin) || -g.targetP > g.pmin)
         && (env.doubleEquals(-g.targetP, g.pmax) || -g.targetP < g.pmax)
      {
        KeepGenerator(g);
      }
    }

    method CountConverters(l: HvdcLine)
      modifies this`mapBusVSCConvertersBusId
      ensures mapBusVSCConvertersBusId == CountAll(old(mapBusVSCConvertersBusId), VscBusesOf(env, l))
      ensures View() == old(View())
    {
      var bus1, bus2;
      if l.converterType == VSC {
        mapBusVSCConvertersBusId, bus1 := UpdateMapRegulatingBuses(env, mapBusVSCConvertersBusId, l.converter1.id);
        mapBusVSCConvertersBusId, bus2 := UpdateMapRegulatingBuses(env, mapBusVSCConvertersBusId, l.converter2.id);
        CountTwo(old(mapBusVSCConvertersBusId), bus1, bus2);
      }
    }

    method RecordHvdc(l: HvdcLine)
      modifies this`hvdcLines, this`mapBusVSCConvertersBusId
      ensures View() == old(View()) && hvdcLines == old(hvdcLines) + [l]
      ensures mapBusVSCConvertersBusId == CountAll(old(mapBusVSCConvertersBusId), VscBusesOf(env, l))
    {
      CountConverters(l);
      hvdcLines := hvdcLines + [l];
    }

    method AddHvdc(l: HvdcLine)
      requires Valid() && l.converter1.busId in nodes && l.converter2.busId in nodes
      modifies this`hvdcLines, this`mapBusVSCConvertersBusId, nodes.Values
      ensures View() == ConvertEvery(ConvertEvery(old(View()), Station(l, l.converter1)), Station(l, l.converter2))
      ensures hvdcLines == old(hvdcLines) + [l]
      ensures mapBusVSCConvertersBusId == CountAll(old(mapBusVSCConvertersBusId), VscBusesOf(env, l))
    {
      RecordHvdc(l);
      Convert(Station(l, l.converter1));
      Convert(Station(l, l.converter2));
    }

    method AddBuses(vl: VoltageLevelData)
      requires Valid() && NoDuplicates(vl.buses) && forall b <- vl.buses :: b !in nodes
      modifies this`nodes
      ensures Valid() && fresh(nodes.Values - old(nodes.Values))
      ensures View() == PutBuses(old(View()), BusesOf(vl))
      ensures nodes.Keys == old(nodes.Keys) + Elements(vl.buses)
    {
      ghost var before, known := View(), nodes.Keys;
      for k := 0 to |vl.buses|
        invariant Valid() && fresh(nodes.Values - old(nodes.Values))
        invariant View() == PutBuses(before, BusesOf(vl)[..k])
        invariant nodes.Keys == known + Elements(vl.buses[..k])
      {
        NextBus(vl, k);
        var b := Bus(vl, vl.buses[k]);
        assert b.id !in nodes;
        AddBus(b);
        PutOneMore(before, BusesOf(vl)[..k], b);
      }
      assert BusesOf(vl)[..|vl.buses|] == BusesOf(vl) && vl.buses[..|vl.buses|] == vl.buses;
    }

    method AddGenerators(data: seq<GeneratorData>)
      requires Valid() && forall g <- data :: g.connected ==> g.bus in nodes
      modifies this`mapBusGeneratorsBusId, nodes.Values
      ensures View() == PutGenerators(old(View()), KeptGenerators(env, data))
      ensures mapBusGeneratorsBusId
           == CountAll(old(mapBusGeneratorsBusId), RegulatedBuses(KeptGenerators(env, data)))
    {
      for k := 0 to |data|
        invariant View() == PutGenerators(old(View()), KeptGenerators(env, data[..k]))
        invariant mapBusGeneratorsBusId
               == CountAll(old(mapBusGeneratorsBusId), RegulatedBuses(KeptGenerators(env, data[..k])))
      {
        AddGenerator(data[k]);
        assert data[..k + 1][..k] == data[..k];
        HostOneMore(env, old(View()), KeptGenerators(env, data[..k]), data[k]);
        CountOneMore(env, old(mapBusGeneratorsBusId), KeptGenerators(env, data[..k]), data[k]);
      }
      assert data[..|data|] == data;
    }

    method AddSwitch(sw: SwitchData)
      requires Valid() && (!sw.isOpen ==> sw.bus1 in nodes && sw.bus2 in nodes)
      modifies nodes.Values
      ensures View() == if !sw.isOpen then JoinEvery(old(View()), Link(Switch, sw.id, sw.bus1, sw.bus2))
                        else old(View())
    {
      if !sw.isOpen {
        Connect(Link(Switch, sw.id, sw.bus1, sw.bus2));
      }
    }

    method AddSwitches(data: seq<SwitchData>)
      requires Valid() && forall sw <- data :: !sw.isOpen ==> sw.bus1 in nodes && sw.bus2 in nodes
      modifies nodes.Values
      ensures View() == ConnectAll(old(View()), ClosedSwitches(data))
    {
      for k := 0 to |data|
        invariant View() == ConnectAll(old(View()), ClosedSwitches(data[..k]))
      {
        var sw := data[k];
        NextSwitch(data, k);
        JoinOneMore(old(View()), ClosedSwitches(data[..k]), !sw.isOpen, Link(Switch, sw.id, sw.bus1, sw.bus2));
        AddSwitch(sw);
      }
      assert data[..|data|] == data;
    }

    method AddBranch(kind: LinkKind, l: BranchData)
      requires Valid() && (l.connected1 && l.connected2 ==> l.bus1 in nodes && l.bus2 in nodes)
      modifies nodes.Values
      ensures View() == if l.connected1 && l.connected2 then JoinEvery(old(View()), Link(kind, l.id, l.bus1, l.bus2))
                        else old(View())
    {
      if l.connected1 && l.connected2 {
        Connect(Link(kind, l.id, l.bus1, l.bus2));
      }
    }

    method AddBranches(kind: LinkKind, data: seq<BranchData>)
      requires Valid()
      requires forall l <- data :: l.connected1 && l.connected2 ==> l.bus1 in nodes && l.bus2 in nodes
      modifies nodes.Values
      ensures View() == ConnectAll(old(View()), ConnectedBranches(kind, data))
    {
      for k := 0 to |data|
        invariant View() == ConnectAll(old(View()), ConnectedBranches(kind, data[..k]))
      {
        var l := data[k];
        NextBranch(kind, data, k);
        JoinOneMore(old(View()), ConnectedBranches(kind, data[..k]), l.connected1 && l.connected2,
                    Link(kind, l.id, l.bus1, l.bus2));
        AddBranch(kind, l);
      }
      assert data[..|data|] == data;
    }

    method AddStar(t: ThreeWindingData)
      requires Valid()
      requires t.connected1 && t.connected2 && t.connected3 ==>
                 t.bus1 in nodes && t.bus2 in nodes && t.bus3 in nodes
      modifies nodes.Values
      ensures View() == if t.connected1 && t.connected2 && t.connected3
                        then JoinEvery(old(View()), Star(t.id, t.bus1, t.bus2, t.bus3))
                        else old(View())
    {
      if t.connected1 && t.connected2 && t.connected3 {
        Connect(Star(t.id, t.bus1, t.bus2, t.bus3));
      }
    }

    method AddStars(data: seq<ThreeWindingData>)
      requires Valid()
      requires forall t <- data :: t.connected1 && t.connected2 && t.connected3 ==>
                 t.bus1 in nodes && t.bus2 in nodes && t.bus3 in nodes
      modifies nodes.Values
      ensures View() == ConnectAll(old(View()), ConnectedStars(data))
    {
      for k := 0 to |data|
        invariant View() == ConnectAll(old(View()), ConnectedStars(data[..k]))
      {
        var t := data[k];
        NextStar(data, k);
        JoinOneMore(old(View()), ConnectedStars(data[..k]), t.connected1 && t.connected2 && t.connected3,
                    Star(t.id, t.bus1, t.bus2, t.bus3));
        AddStar(t);
      }
      assert data[..|data|] == data;
    }

    method AddHvdcLines(data: seq<HvdcData>)
      requires Valid() && hvdcLines == []
      requires forall d <- data :: d.connected1 && d.connected2 ==>
                 d.line.converter1.busId in nodes && d.line.converter2.busId in nodes
      modifies this`hvdcLines, this`mapBusVSCConvertersBusId, nodes.Values
      ensures hvdcLines == ConnectedHvdc(data)
      ensures View() == PutStations(old(View()), StationsOf(hvdcLines))
      ensures mapBusVSCConvertersBusId == CountAll(old(mapBusVSCConvertersBusId), VscRegulatedBuses(env, hvdcLines))
    {
      for k := 0 to |data|
        invariant hvdcLines == ConnectedHvdc(data[..k])
        invariant View() == PutStations(old(View()), StationsOf(hvdcLines))
        invariant mapBusVSCConvertersBusId
               == CountAll(old(mapBusVSCConvertersBusId), VscRegulatedBuses(env, hvdcLines))
      {
        var d := data[k];
        assert data[..k + 1][..k] == data[..k];
        if d.connected1 && d.connected2 {
          CountMore(old(mapBusVSCConvertersBusId), VscRegulatedBuses(env, hvdcLines), VscBusesOf(env, d.line));
          assert (hvdcLines + [d.line])[..|hvdcLines|] == hvdcLines;
          ConvertTwoMore(old(View()), hvdcLines, d.line);
          AddHvdc(d.line);
        }
      }
      assert data[..|data|] == data;
    }

    method AddElements(vl: VoltageLevelData)
      requires Valid() && LevelWellFormed(vl) && forall b <- vl.buses :: b in nodes
      modifies this`mapBusGeneratorsBusId, nodes.Values
      ensures View() == ConnectAll(PutGenerators(old(View()), KeptGenerators(env, vl.generators)),
                                   ClosedSwitches(vl.switches))
      ensures mapBusGeneratorsBusId
           == CountAll(old(mapBusGeneratorsBusId), RegulatedBuses(KeptGenerators(env, vl.generators)))
    {
      AddGenerators(vl.generators);
      AddSwitches(vl.switches);
    }

    method ListLevel(vl: VoltageLevelData)
      modifies this`levelNodes
      ensures View() == old(View()) && levelNodes == old(levelNodes)[vl.id := vl.buses]
    {
      levelNodes := levelNodes[vl.id := vl.buses];
    }

    method AddListedBuses(vl: VoltageLevelData)
      requires Valid() && NoDuplicates(vl.buses) && forall b <- vl.buses :: b !in nodes
      modifies this`nodes, this`levelNodes
      ensures Valid() && fresh(nodes.Values - old(nodes.Values)) && levelNodes == old(levelNodes)[vl.id := vl.buses]
      ensures View() == PutBuses(old(View()), BusesOf(vl))
      ensures nodes.Keys == old(nodes.Keys) + Elements(vl.buses)
    {
      AddBuses(vl);
      ListLevel(vl);
    }

    method AddVoltageLevel(vl: VoltageLevelData)
      requires Valid() && LevelWellFormed(vl) && forall b <- vl.buses :: b !in nodes
      modifies this`nodes, this`levelNodes, this`mapBusGeneratorsBusId, nodes.Values
      ensures Valid() && fresh(nodes.Values - old(nodes.Values))
      ensures nodes.Keys == old(nodes.Keys) + Elements(vl.buses)
      ensures View() == WithLevel(env, old(View()), vl)
      ensures levelNodes == old(levelNodes)[vl.id := vl.buses]
      ensures mapBusGeneratorsBusId
           == CountAll(old(mapBusGeneratorsBusId), RegulatedBuses(KeptGenerators(env, vl.generators)))
    {
      AddListedBuses(vl);
      AddElements(vl);
    }

    method AddVoltageLevels(levels: seq<VoltageLevelData>)
      requires Valid() && nodes == map[] && levelNodes == map[] && mapBusGeneratorsBusId == map[]
      requires LevelsWellFormed(levels)
      modifies this`nodes, this`levelNodes, this`mapBusGeneratorsBusId
      ensures Valid() && fresh(nodes.Values) && View() == BuildLevels(env, levels)
      ensures nodes.Keys == KnownBuses(levels) && levelNodes == LevelNodes(levels)
      ensures mapBusGeneratorsBusId == CountAll(map[], RegulatedBuses(AllGenerators(env, levels)))
    {
      for k := 0 to |levels|
        invariant Valid() && fresh(nodes.Values) && View() == BuildLevels(env, levels[..k])
        invariant nodes.Keys == KnownBuses(levels[..k]) && levelNodes == LevelNodes(levels[..k])
        invariant mapBusGeneratorsBusId == CountAll(map[], RegulatedBuses(AllGenerators(env, levels[..k])))
      {
        NextLevel(env, levels, k);
        AddVoltageLevel(levels[k]);
      }
      assert levels[..|levels|] == levels;
    }

    method AddConnections(data: NetworkData)
      requires Valid() && WellFormed(data) && nodes.Keys == KnownBuses(data.voltageLevels)
      modifies nodes.Values
      ensures View() == ConnectAll(ConnectAll(ConnectAll(old(View()), ConnectedBranches(Line, data.lines)),
                                              ConnectedBranches(Tfo, data.tfos)),
                                   ConnectedStars(data.threeWindings))
    {
      AddBranches(Line, data.lines);
      AddBranches(Tfo, data.tfos);
      AddStars(data.threeWindings);
    }

    method BuildTree(data: NetworkData)
      requires Valid() && nodes == map[] && levelNodes == map[] && hvdcLines == []
      requires mapBusGeneratorsBusId == map[] && mapBusVSCConvertersBusId == map[]
      requires WellFormed(data)
      modifies this
      ensures Valid() && View() == BuildNodes(env, data)
      ensures levelNodes == LevelNodes(data.voltageLevels) && hvdcLines == ConnectedHvdc(data.hvdcLines)
      ensures mapBusGeneratorsBusId == CountAll(map[], RegulatedBuses(AllGenerators(env, data.voltageLevels)))
      ensures mapBusVSCConvertersBusId == CountAll(map[], VscRegulatedBuses(env, hvdcLines))
    {
      AddVoltageLevels(data.voltageLevels);
      AddConnections(data);
      AddHvdcLines(data.hvdcLines);
    }
  }
}
