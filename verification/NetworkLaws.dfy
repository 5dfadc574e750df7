/**
 What the built network looks like, whatever the order in which it was built:
 every node record by a direct definition, symmetric neighbours, the total
 degree, and the counts of the bus maps.
 */
module NetworkLaws {
  import opened Reachability
  import opened Network

  // ---------------------------------------------------------------------------
  // Every record, by a direct definition

  lemma OneMoreConnection(b: Bus, xs: seq<Connection>, x: Connection, gens: seq<Generator>, stations: seq<Station>)
    ensures Joined(RecordAt(b, xs, gens, stations), x) == RecordAt(b, xs + [x], gens, stations)
  {
    assert (xs + [x])[..|xs|] == xs;
  }

  lemma OneMoreGenerator(b: Bus, xs: seq<Connection>, gens: seq<Generator>, g: Generator, stations: seq<Station>)
    ensures Hosting(RecordAt(b, xs, gens, stations), g) == RecordAt(b, xs, gens + [g], stations)
  {
    assert (gens + [g])[..|gens|] == gens;
  }

  lemma JoiningDescribes(nodes: Nodes, buses: seq<Bus>, xs: seq<Connection>, x: Connection, gens: seq<Generator>,
                         stations: seq<Station>)
    requires Describes(nodes, buses, xs, gens, stations)
    ensures Describes(JoinEvery(nodes, x), buses, xs + [x], gens, stations)
  {
    var after := JoinEvery(nodes, x);
    forall b <- buses ensures b.id in after && after[b.id] == RecordAt(b, xs + [x], gens, stations) {
      OneMoreConnection(b, xs, x, gens, stations);
    }
  }

  lemma {:induction false} ConnectAllDescribes(nodes: Nodes, buses: seq<Bus>, xs: seq<Connection>, ys: seq<Connection>,
                                               gens: seq<Generator>, stations: seq<Station>)
    requires Describes(nodes, buses, xs, gens, stations)
    ensures Describes(ConnectAll(nodes, ys), buses, xs + ys, gens, stations)
    decreases |ys|
  {
    if ys == [] {
      assert xs + ys == xs;
    } else {
      var n := |ys| - 1;
      ConnectAllDescribes(nodes, buses, xs, ys[..n], gens, stations);
      assert xs + ys == (xs + ys[..n]) + [ys[n]];
      JoiningDescribes(ConnectAll(nodes, ys[..n]), buses, xs + ys[..n], ys[n], gens, stations);
    }
  }

  lemma PuttingDescribes(nodes: Nodes, buses: seq<Bus>, xs: seq<Connection>, gens: seq<Generator>, g: Generator,
                         stations: seq<Station>)
    requires Describes(nodes, buses, xs, gens, stations)
    ensures Describes(HostEvery(nodes, g), buses, xs, gens + [g], stations)
  {
    var after := HostEvery(nodes, g);
    forall b <- buses ensures b.id in after && after[b.id] == RecordAt(b, xs, gens + [g], stations) {
      OneMoreGenerator(b, xs, gens, g, stations);
    }
  }

  lemma {:induction false} PutGeneratorsDescribes(nodes: Nodes, buses: seq<Bus>, xs: seq<Connection>,
                                                  gens: seq<Generator>, more: seq<Generator>, stations: seq<Station>)
    requires Describes(nodes, buses, xs, gens, stations)
    ensures Describes(PutGenerators(nodes, more), buses, xs, gens + more, stations)
    decreases |more|
  {
    if more == [] {
      assert gens + more == gens;
    } else {
      var n := |more| - 1;
      PutGeneratorsDescribes(nodes, buses, xs, gens, more[..n], stations);
      assert gens + more == (gens + more[..n]) + [more[n]];
      PuttingDescribes(PutGenerators(nodes, more[..n]), buses, xs, gens + more[..n], more[n], stations);
    }
  }

  lemma {:induction false} PutStationsDescribes(nodes: Nodes, buses: seq<Bus>, xs: seq<Connection>,
                                                gens: seq<Generator>, stations: seq<Station>)
    requires Describes(nodes, buses, xs, gens, [])
    ensures Describes(PutStations(nodes, stations), buses, xs, gens, stations)
    decreases |stations|
  {
    if stations != [] {
      var n := |stations| - 1;
      var before, after := PutStations(nodes, stations[..n]), PutStations(nodes, stations);
      PutStationsDescribes(nodes, buses, xs, gens, stations[..n]);
      forall b <- buses ensures after[b.id] == RecordAt(b, xs, gens, stations) {
        assert before[b.id] == RecordAt(b, xs, gens, stations[..n]);
      }
    }
  }

  /** The elements added so far are on known buses, so nothing is at a new one. */
  lemma {:induction false} NothingAt(xs: seq<Connection>, gens: seq<Generator>, known: set<Id>, b: Id)
    requires (forall x <- xs :: x.Joins(known)) && (forall g <- gens :: g.connectedBusId in known) && b !in known
    ensures NeighboursAt(xs, b) == LinesAt(xs, b) == TfosAt(xs, b) == [] && GeneratorsAt(gens, b) == []
    decreases |xs| + |gens|
  {
    if xs != [] {
      assert xs[|xs| - 1].Joins(known);
      NothingAt(xs[..|xs| - 1], gens, known, b);
    } else if gens != [] {
      assert gens[|gens| - 1] in gens;
      NothingAt(xs, gens[..|gens| - 1], known, b);
    }
  }

  lemma OneMoreBus(before: Nodes, buses: seq<Bus>, b: Bus, xs: seq<Connection>, gens: seq<Generator>)
    requires Describes(before, buses, xs, gens, []) && b.id !in before
    requires NeighboursAt(xs, b.id) == LinesAt(xs, b.id) == TfosAt(xs, b.id) == [] && GeneratorsAt(gens, b.id) == []
    ensures Describes(before[b.id := RecordAt(b, [], [], [])], buses + [b], xs, gens, [])
  {
    assert BusIds(buses + [b]) == BusIds(buses) + [b.id];
    assert RecordAt(b, [], [], []) == RecordAt(b, xs, gens, []);
  }

  lemma LastBus(more: seq<Bus>)
    requires more != [] && NoDuplicates(BusIds(more))
    ensures var before, last := more[..|more| - 1], more[|more| - 1];
            && NoDuplicates(BusIds(before)) && last.id !in Elements(BusIds(before))
            && Elements(BusIds(more)) == Elements(BusIds(before)) + {last.id}
  {
    var n := |more| - 1;
    assert BusIds(more) == BusIds(more[..n]) + [more[n].id];
    forall i, j | 0 <= i < j < |more| ensures more[i].id != more[j].id {
      assert BusIds(more)[i] != BusIds(more)[j];
    }
  }

  lemma {:induction false} PutBusesKeys(nodes: Nodes, more: seq<Bus>)
    ensures PutBuses(nodes, more).Keys == nodes.Keys + Elements(BusIds(more))
    decreases |more|
  {
    if more != [] {
      var n := |more| - 1;
      PutBusesKeys(nodes, more[..n]);
      assert BusIds(more) == BusIds(more[..n]) + [more[n].id];
    }
  }

  lemma {:induction false} PutBusesDescribes(nodes: Nodes, buses: seq<Bus>, more: seq<Bus>, xs: seq<Connection>,
                                             gens: seq<Generator>)
    requires Describes(nodes, buses, xs, gens, [])
    requires (forall x <- xs :: x.Joins(nodes.Keys)) && (forall g <- gens :: g.connectedBusId in nodes)
    requires NoDuplicates(BusIds(more)) && forall b <- more :: b.id !in nodes
    ensures Describes(PutBuses(nodes, more), buses + more, xs, gens, [])
    decreases |more|
  {
    if more == [] {
      assert buses + more == buses;
    } else {
      var n := |more| - 1;
      var b := more[n];
      assert buses + more == (buses + more[..n]) + [b];
      LastBus(more);
      assert b in more;
      assert forall c <- more[..n] :: c in more;
      PutBusesDescribes(nodes, buses, more[..n], xs, gens);
      PutBusesKeys(nodes, more[..n]);
      NothingAt(xs, gens, nodes.Keys, b.id);
      OneMoreBus(PutBuses(nodes, more[..n]), buses + more[..n], b, xs, gens);
    }
  }

  lemma {:induction false} SwitchesJoin(switches: seq<SwitchData>, known: set<Id>)
    requires forall sw <- switches :: !sw.isOpen ==> sw.bus1 in known && sw.bus2 in known
    ensures forall x <- ClosedSwitches(switches) :: x.Joins(known)
    decreases |switches|
  {
    if switches != [] {
      SwitchesJoin(switches[..|switches| - 1], known);
    }
  }

  lemma {:induction false} KeptOnBuses(env: Services, gens: seq<GeneratorData>, known: set<Id>)
    requires forall g <- gens :: g.connected ==> g.bus in known
    ensures forall g <- KeptGenerators(env, gens) :: g.connectedBusId in known
    decreases |gens|
  {
    if gens != [] {
      KeptOnBuses(env, gens[..|gens| - 1], known);
    }
  }

  /** The levels built so far, with what holds of the elements on them. */
  ghost predicate BuiltLevels(env: Services, levels: seq<VoltageLevelData>, nodes: Nodes) {
    && Describes(nodes, AllBuses(levels), AllSwitches(levels), AllGenerators(env, levels), [])
    && (forall x <- AllSwitches(levels) :: x.Joins(nodes.Keys))
    && (forall g <- AllGenerators(env, levels) :: g.connectedBusId in nodes)
    && nodes.Keys == KnownBuses(levels)
  }

  lemma WithLevelDescribes(env: Services, levels: seq<VoltageLevelData>, nodes: Nodes, vl: VoltageLevelData)
    requires BuiltLevels(env, levels, nodes)
    requires LevelWellFormed(vl) && forall b <- vl.buses :: b !in nodes
    ensures BuiltLevels(env, levels + [vl], WithLevel(env, nodes, vl))
  {
    var all := levels + [vl];
    assert all[..|levels|] == levels;
    var xs, gens := AllSwitches(levels), AllGenerators(env, levels);
    var kept, switches := KeptGenerators(env, vl.generators), ClosedSwitches(vl.switches);
    assert BusIds(BusesOf(vl)) == vl.buses;
    var withBuses := PutBuses(nodes, BusesOf(vl));
    PutBusesDescribes(nodes, AllBuses(levels), BusesOf(vl), xs, gens);
    PutBusesKeys(nodes, BusesOf(vl));
    PutGeneratorsDescribes(withBuses, AllBuses(all), xs, gens, kept, []);
    ConnectAllDescribes(PutGenerators(withBuses, kept), AllBuses(all), xs, switches, gens + kept, []);
    WithLevelKnows(env, levels, nodes.Keys, vl);
  }

  lemma WithLevelKnows(env: Services, levels: seq<VoltageLevelData>, known: set<Id>, vl: VoltageLevelData)
    requires known == KnownBuses(levels) && LevelWellFormed(vl)
    requires (forall x <- AllSwitches(levels) :: x.Joins(known))
    requires (forall g <- AllGenerators(env, levels) :: g.connectedBusId in known)
    ensures KnownBuses(levels + [vl]) == known + Elements(vl.buses)
    ensures forall x <- AllSwitches(levels + [vl]) :: x.Joins(KnownBuses(levels + [vl]))
    ensures forall g <- AllGenerators(env, levels + [vl]) :: g.connectedBusId in KnownBuses(levels + [vl])
  {
    var all := levels + [vl];
    assert all[..|levels|] == levels;
    SwitchesJoin(vl.switches, KnownBuses(all));
    KeptOnBuses(env, vl.generators, KnownBuses(all));
    assert forall x <- AllSwitches(levels) :: x.Joins(known) && x.Joins(KnownBuses(all));
  }

  lemma LastLevelIsNew(levels: seq<VoltageLevelData>)
    requires LevelsWellFormed(levels) && levels != []
    ensures var n := |levels| - 1;
            forall b <- levels[n].buses :: b !in KnownBuses(levels[..n])
  {
    var n := |levels| - 1;
    forall b <- levels[n].buses ensures b !in KnownBuses(levels[..n]) {
      KnownInSome(levels[..n], b);
    }
  }

  lemma {:induction false} BuildLevelsDescribes(env: Services, levels: seq<VoltageLevelData>)
    requires LevelsWellFormed(levels)
    ensures BuiltLevels(env, levels, BuildLevels(env, levels))
    decreases |levels|
  {
    if levels != [] {
      var n := |levels| - 1;
      BuildLevelsDescribes(env, levels[..n]);
      assert levels == levels[..n] + [levels[n]];
      LastLevelIsNew(levels);
      WithLevelDescribes(env, levels[..n], BuildLevels(env, levels[..n]), levels[n]);
    }
  }

  /** Every node of the built network is what its bus and the connections, kept
      generators and converters of the input say, and there is no other node. */
  lemma BuildDescribes(env: Services, data: NetworkData)
    requires WellFormed(data)
    ensures Describes(BuildNodes(env, data), AllBuses(data.voltageLevels), Connections(data),
                      AllGenerators(env, data.voltageLevels), StationsOf(ConnectedHvdc(data.hvdcLines)))
    ensures BuildNodes(env, data).Keys == KnownBuses(data.voltageLevels)
  {
    var levels := data.voltageLevels;
    var buses, gens := AllBuses(levels), AllGenerators(env, levels);
    var xs0 := AllSwitches(levels);
    var lines, tfos := ConnectedBranches(Line, data.lines), ConnectedBranches(Tfo, data.tfos);
    var stars := ConnectedStars(data.threeWindings);
    BuildLevelsDescribes(env, levels);
    var nodes0 := BuildLevels(env, levels);
    ConnectAllDescribes(nodes0, buses, xs0, lines, gens, []);
    var nodes1 := ConnectAll(nodes0, lines);
    ConnectAllDescribes(nodes1, buses, xs0 + lines, tfos, gens, []);
    var nodes2 := ConnectAll(nodes1, tfos);
    ConnectAllDescribes(nodes2, buses, xs0 + lines + tfos, stars, gens, []);
    PutStationsDescribes(ConnectAll(nodes2, stars), buses, Connections(data), gens,
                         StationsOf(ConnectedHvdc(data.hvdcLines)));
  }

  /** The bus behind a node of the built network. */
  lemma BusOfNode(env: Services, data: NetworkData, id: Id) returns (b: Bus)
    requires WellFormed(data) && id in BuildNodes(env, data)
    ensures b in AllBuses(data.voltageLevels) && b.id == id
    ensures BuildNodes(env, data)[id] == RecordAt(b, Connections(data), AllGenerators(env, data.voltageLevels),
                                                  StationsOf(ConnectedHvdc(data.hvdcLines)))
  {
    BuildDescribes(env, data);
    var buses := AllBuses(data.voltageLevels);
    assert id in BusIds(buses);
    var i :| 0 <= i < |buses| && BusIds(buses)[i] == id;
    b := buses[i];
  }

  // ---------------------------------------------------------------------------
  // Symmetry and degree

  /** How often b is among the neighbours of a. */
  function Multiplicity(xs: seq<Connection>, a: Id, b: Id): nat {
    multiset(NeighboursAt(xs, a))[b]
  }

  /** How often a connection makes b a neighbour of a. */
  function Occurrences(x: Connection, a: Id, b: Id): nat {
    match x
    case Link(_, _, c, d) => One(a == c && b == d) + One(a == d && b == c)
    case Star(_, c, d, e) =>
      One(a == c && b == d) + One(a == c && b == e) + One(a == d && b == c) + One(a == d && b == e)
      + One(a == e && b == c) + One(a == e && b == d)
  }

  function One(condition: bool): nat {
    if condition then 1 else 0
  }

  lemma CountTwo(condition: bool, c: Id, d: Id, b: Id)
    ensures multiset(Only(condition, [c, d]))[b] == One(condition && b == c) + One(condition && b == d)
  {
    assert [c, d] == [c] + [d];
  }

  lemma CountThree(s: seq<Id>, t: seq<Id>, u: seq<Id>, b: Id)
    ensures multiset(s + t + u)[b] == multiset(s)[b] + multiset(t)[b] + multiset(u)[b]
  {
    assert multiset(s + t + u) == multiset(s) + multiset(t) + multiset(u);
  }

  lemma EndsOccur(x: Connection, a: Id, b: Id)
    ensures multiset(EndsAt(x, a))[b] == Occurrences(x, a, b)
  {
    match x
    case Link(_, _, c, d) =>
      assert multiset(EndsAt(x, a)) == multiset(Only(a == c, [d])) + multiset(Only(a == d, [c]));
    case Star(_, c, d, e) =>
      CountThree(Only(a == c, [d, e]), Only(a == d, [c, e]), Only(a == e, [c, d]), b);
      CountTwo(a == c, d, e, b);
      CountTwo(a == d, c, e, b);
      CountTwo(a == e, c, d, b);
  }

  lemma MultiplicityOfLast(xs: seq<Connection>, a: Id, b: Id)
    requires xs != []
    ensures Multiplicity(xs, a, b) == Multiplicity(xs[..|xs| - 1], a, b) + Occurrences(xs[|xs| - 1], a, b)
  {
    var before, ends := NeighboursAt(xs[..|xs| - 1], a), EndsAt(xs[|xs| - 1], a);
    assert multiset(before + ends) == multiset(before) + multiset(ends);
    EndsOccur(xs[|xs| - 1], a, b);
  }

  lemma OccurrencesAreSymmetric(x: Connection, a: Id, b: Id)
    ensures Occurrences(x, a, b) == Occurrences(x, b, a)
  {
  }

  /** Neighbours are symmetric, with multiplicities, for any connections, between
      two nodes or of a node with itself. */
  lemma {:induction false} NeighboursAreSymmetric(xs: seq<Connection>, a: Id, b: Id)
    ensures Multiplicity(xs, a, b) == Multiplicity(xs, b, a)
    decreases |xs|
  {
    if xs != [] {
      NeighboursAreSymmetric(xs[..|xs| - 1], a, b);
      MultiplicityOfLast(xs, a, b);
      MultiplicityOfLast(xs, b, a);
      OccurrencesAreSymmetric(xs[|xs| - 1], a, b);
    }
  }

  function CountLinks(xs: seq<Connection>): nat {
    if xs == [] then 0 else CountLinks(xs[..|xs| - 1]) + if xs[|xs| - 1].Link? then 1 else 0
  }

  /** The sum of the degrees of some nodes. */
  function TotalDegree(xs: seq<Connection>, ids: seq<Id>): nat {
    if ids == [] then 0 else |NeighboursAt(xs, ids[0])| + TotalDegree(xs, ids[1..])
  }

  function TotalEnds(x: Connection, ids: seq<Id>): nat {
    if ids == [] then 0 else |EndsAt(x, ids[0])| + TotalEnds(x, ids[1..])
  }

  lemma {:induction false} DegreeOfLast(xs: seq<Connection>, x: Connection, ids: seq<Id>)
    ensures TotalDegree(xs + [x], ids) == TotalDegree(xs, ids) + TotalEnds(x, ids)
    decreases |ids|
  {
    assert (xs + [x])[..|xs|] == xs;
    if ids != [] {
      DegreeOfLast(xs, x, ids[1..]);
    }
  }

  function CountIn(n: Id, ids: seq<Id>): nat {
    if ids == [] then 0 else (if ids[0] == n then 1 else 0) + CountIn(n, ids[1..])
  }

  lemma {:induction false} CountsOnce(n: Id, ids: seq<Id>)
    requires NoDuplicates(ids)
    ensures CountIn(n, ids) == if n in ids then 1 else 0
    decreases |ids|
  {
    if ids != [] {
      CountsOnce(n, ids[1..]);
    }
  }

  lemma {:induction false} EndsByCounts(x: Connection, ids: seq<Id>)
    ensures TotalEnds(x, ids)
         == if x.Link? then CountIn(x.a, ids) + CountIn(x.b, ids)
            else 2 * CountIn(x.a, ids) + 2 * CountIn(x.b, ids) + 2 * CountIn(x.c, ids)
    decreases |ids|
  {
    if ids != [] {
      EndsByCounts(x, ids[1..]);
    }
  }

  /** The total degree is two for each link and six for each transformer with
      three windings. */
  lemma {:induction false} TotalDegreeFormula(xs: seq<Connection>, ids: seq<Id>)
    requires NoDuplicates(ids) && forall x <- xs :: x.Joins(Elements(ids))
    ensures TotalDegree(xs, ids) == 2 * CountLinks(xs) + 6 * (|xs| - CountLinks(xs))
    decreases |xs|
  {
    if xs == [] {
      NoDegree(ids);
    } else {
      var n := |xs| - 1;
      TotalDegreeFormula(xs[..n], ids);
      DegreeOfLast(xs[..n], xs[n], ids);
      assert xs == xs[..n] + [xs[n]] && xs[n].Joins(Elements(ids));
      EndsByCounts(xs[n], ids);
      CountsOnce(xs[n].a, ids);
      CountsOnce(xs[n].b, ids);
      if xs[n].Star? {
        CountsOnce(xs[n].c, ids);
      }
    }
  }

  lemma {:induction false} NoDegree(ids: seq<Id>)
    ensures TotalDegree([], ids) == 0
    decreases |ids|
  {
    if ids != [] {
      NoDegree(ids[1..]);
    }
  }

  /** The neighbours of a built node are those the connections give it. */
  lemma BuiltNeighbours(env: Services, data: NetworkData, u: Id)
    requires WellFormed(data) && u in BuildNodes(env, data)
    ensures BuildNodes(env, data)[u].neighbours == NeighboursAt(Connections(data), u)
  {
    var b := BusOfNode(env, data, u);
  }

  /** The graph of the built network is symmetric. */
  lemma BuiltGraphIsSymmetric(env: Services, data: NetworkData)
    requires WellFormed(data)
    ensures Symmetric(GraphOf(BuildNodes(env, data)))
  {
    var nodes, xs := BuildNodes(env, data), Connections(data);
    var g := GraphOf(nodes);
    ConnectionsJoin(data);
    assert nodes.Keys == KnownBuses(data.voltageLevels) by {
      BuildDescribes(env, data);
    }
    forall u, v | u in g && v in g[u] ensures v in g && u in g[v] {
      BuiltNeighbours(env, data, u);
      NeighboursAreKnown(xs, nodes.Keys, u, v);
      BuiltNeighbours(env, data, v);
      NeighboursInBothLists(xs, u, v);
    }
  }

  lemma NeighboursInBothLists(xs: seq<Connection>, u: Id, v: Id)
    requires v in NeighboursAt(xs, u)
    ensures u in NeighboursAt(xs, v)
  {
    NeighboursAreSymmetric(xs, u, v);
    assert v in multiset(NeighboursAt(xs, u)) && u in multiset(NeighboursAt(xs, v));
  }

  lemma {:induction false} NeighboursAreKnown(xs: seq<Connection>, known: set<Id>, u: Id, v: Id)
    requires (forall x <- xs :: x.Joins(known)) && v in NeighboursAt(xs, u)
    ensures v in known
    decreases |xs|
  {
    assert xs[|xs| - 1].Joins(known);
    if v in NeighboursAt(xs[..|xs| - 1], u) {
      NeighboursAreKnown(xs[..|xs| - 1], known, u, v);
    }
  }

  lemma ConnectionsJoin(data: NetworkData)
    requires WellFormed(data)
    ensures forall x <- Connections(data) :: x.Joins(KnownBuses(data.voltageLevels))
  {
    var known := KnownBuses(data.voltageLevels);
    AllSwitchesJoin(data.voltageLevels);
    BranchesJoin(Line, data.lines, known);
    BranchesJoin(Tfo, data.tfos, known);
    StarsJoin(data.threeWindings, known);
  }

  lemma {:induction false} AllSwitchesJoin(levels: seq<VoltageLevelData>)
    requires forall vl <- levels :: LevelWellFormed(vl)
    ensures forall x <- AllSwitches(levels) :: x.Joins(KnownBuses(levels))
    decreases |levels|
  {
    if levels != [] {
      AllSwitchesJoin(levels[..|levels| - 1]);
      assert LevelWellFormed(levels[|levels| - 1]);
      SwitchesJoin(levels[|levels| - 1].switches, KnownBuses(levels));
    }
  }

  lemma {:induction false} BranchesJoin(kind: LinkKind, data: seq<BranchData>, known: set<Id>)
    requires forall l <- data :: BranchWellFormed(known, l)
    ensures forall x <- ConnectedBranches(kind, data) :: x.Joins(known)
    decreases |data|
  {
    if data != [] {
      BranchesJoin(kind, data[..|data| - 1], known);
      assert BranchWellFormed(known, data[|data| - 1]);
    }
  }

  lemma {:induction false} StarsJoin(data: seq<ThreeWindingData>, known: set<Id>)
    requires forall t <- data :: t.connected1 && t.connected2 && t.connected3 ==>
               t.bus1 in known && t.bus2 in known && t.bus3 in known
    ensures forall x <- ConnectedStars(data) :: x.Joins(known)
    decreases |data|
  {
    if data != [] {
      StarsJoin(data[..|data| - 1], known);
    }
  }

  lemma {:induction false} CountLinksJoin(xs: seq<Connection>, ys: seq<Connection>)
    ensures CountLinks(xs + ys) == CountLinks(xs) + CountLinks(ys)
    decreases |ys|
  {
    if ys == [] {
      assert xs + ys == xs;
    } else {
      CountLinksJoin(xs, ys[..|ys| - 1]);
      assert (xs + ys)[..|xs + ys| - 1] == xs + ys[..|ys| - 1];
    }
  }

  lemma {:induction false} CountAllAlike(xs: seq<Connection>, link: bool)
    requires forall x <- xs :: x.Link? <==> link
    ensures CountLinks(xs) == if link then |xs| else 0
    decreases |xs|
  {
    if xs != [] {
      CountAllAlike(xs[..|xs| - 1], link);
      assert xs[|xs| - 1] in xs;
    }
  }

  lemma {:induction false} SwitchesAreLinks(switches: seq<SwitchData>)
    ensures forall x <- ClosedSwitches(switches) :: x.Link?
    decreases |switches|
  {
    if switches != [] {
      SwitchesAreLinks(switches[..|switches| - 1]);
    }
  }

  lemma {:induction false} AllSwitchesAreLinks(levels: seq<VoltageLevelData>)
    ensures forall x <- AllSwitches(levels) :: x.Link?
    decreases |levels|
  {
    if levels != [] {
      AllSwitchesAreLinks(levels[..|levels| - 1]);
      SwitchesAreLinks(levels[|levels| - 1].switches);
    }
  }

  lemma {:induction false} BranchesAreLinks(kind: LinkKind, data: seq<BranchData>)
    ensures forall x <- ConnectedBranches(kind, data) :: x.Link?
    decreases |data|
  {
    if data != [] {
      BranchesAreLinks(kind, data[..|data| - 1]);
    }
  }

  lemma {:induction false} StarsAreNotLinks(data: seq<ThreeWindingData>)
    ensures forall x <- ConnectedStars(data) :: !x.Link?
    decreases |data|
  {
    if data != [] {
      StarsAreNotLinks(data[..|data| - 1]);
    }
  }

  lemma LinksOfNetwork(data: NetworkData)
    ensures CountLinks(Connections(data))
         == |AllSwitches(data.voltageLevels)| + |ConnectedBranches(Line, data.lines)| + |ConnectedBranches(Tfo, data.tfos)|
  {
    var switches, stars := AllSwitches(data.voltageLevels), ConnectedStars(data.threeWindings);
    var lines, tfos := ConnectedBranches(Line, data.lines), ConnectedBranches(Tfo, data.tfos);
    AllSwitchesAreLinks(data.voltageLevels);
    BranchesAreLinks(Line, data.lines);
    BranchesAreLinks(Tfo, data.tfos);
    StarsAreNotLinks(data.threeWindings);
    CountAllAlike(switches, true);
    CountAllAlike(lines, true);
    CountAllAlike(tfos, true);
    CountAllAlike(stars, false);
    CountLinksJoin(switches, lines);
    CountLinksJoin(switches + lines, tfos);
    CountLinksJoin(switches + lines + tfos, stars);
  }

  /** The sum of the degrees of the built nodes. */
  function SumDegrees(nodes: Nodes, ids: seq<Id>): nat
    requires forall id <- ids :: id in nodes
  {
    if ids == [] then 0 else |nodes[ids[0]].neighbours| + SumDegrees(nodes, ids[1..])
  }

  lemma {:induction false} SumIsTotal(env: Services, data: NetworkData, ids: seq<Id>)
    requires WellFormed(data) && forall id <- ids :: id in BuildNodes(env, data)
    ensures SumDegrees(BuildNodes(env, data), ids) == TotalDegree(Connections(data), ids)
    decreases |ids|
  {
    if ids != [] {
      assert ids[0] in ids;
      BuiltNeighbours(env, data, ids[0]);
      SumIsTotal(env, data, ids[1..]);
    }
  }

  /** The total degree of the built network: two for each closed switch, connected
      line and connected transformer with two windings, six for each connected
      transformer with three. */
  lemma BuiltTotalDegree(env: Services, data: NetworkData, ids: seq<Id>)
    requires WellFormed(data) && NoDuplicates(ids) && Elements(ids) == BuildNodes(env, data).Keys
    ensures forall id <- ids :: id in BuildNodes(env, data)
    ensures SumDegrees(BuildNodes(env, data), ids)
         == 2 * (|AllSwitches(data.voltageLevels)| + |ConnectedBranches(Line, data.lines)|
                 + |ConnectedBranches(Tfo, data.tfos)|)
            + 6 * |ConnectedStars(data.threeWindings)|
  {
    assert forall id <- ids :: id in Elements(ids);
    BuildDescribes(env, data);
    ConnectionsJoin(data);
    SumIsTotal(env, data, ids);
    TotalDegreeFormula(Connections(data), ids);
    LinksOfNetwork(data);
  }

  // ---------------------------------------------------------------------------
  // Bus maps

  /** The bus map says ONE or MULTIPLES exactly when one element, or at least two,
      regulate the bus. */
  lemma {:induction false} CountAllCounts(buses: seq<Id>)
    ensures CountsBuses(CountAll(map[], buses), buses)
    decreases |buses|
  {
    if buses != [] {
      var n := |buses| - 1;
      CountAllCounts(buses[..n]);
      assert multiset(buses) == multiset(buses[..n]) + multiset{buses[n]} by {
        assert buses == buses[..n] + [buses[n]];
      }
    }
  }
}
