/**
 What the DYD writer does with the HVDC definitions of the walk: terminal 1 is
 on the main component, the proportional connections lead to exactly the buses
 of the VSC bus map, and no optional value the writers read is missing.
 */
module HvdcOutputLaws {
  import opened Reachability
  import opened Network
  import opened Hvdc
  import opened HvdcLaws
  import opened Dyd

  lemma SuffixCancels(prefix: string, s: string, t: string)
    requires prefix + s == prefix + t
    ensures s == t
  {
    assert (prefix + s)[|prefix|..] == s && (prefix + t)[|prefix|..] == t;
  }

  lemma PrefixCancels(s: string, t: string, suffix: string)
    requires s + suffix == t + suffix
    ensures s == t
  {
    assert |s| == |t|;
    assert (s + suffix)[..|s|] == s && (t + suffix)[..|t|] == t;
  }

  /** The definition has a proportional connection to the model of bus b. */
  ghost predicate ConnectsNQ(l: HVDCDefinition, b: Id) {
    exists c :: c in WriteHvdcLineConnect(l) && c.model1 == l.id && c.model2 == NQ_PREFIX + b && c.var2 == "vrremote_NQ"
  }

  /** The buses the proportional connections lead to. */
  function NQBuses(l: HVDCDefinition): set<Id> {
    if !l.HasPQPropModel() then {}
    else if l.position == SECOND_IN_MAIN_COMPONENT then {l.converter2BusId}
    else if l.position == FIRST_IN_MAIN_COMPONENT then {l.converter1BusId}
    else {l.converter1BusId, l.converter2BusId}
  }

  lemma NQConnections(l: HVDCDefinition, b: Id)
    ensures ConnectsNQ(l, b) <==> b in NQBuses(l)
  {
    var out := WriteHvdcLineConnect(l);
    var bus1 := if l.position == SECOND_IN_MAIN_COMPONENT then l.converter2BusId else l.converter1BusId;
    var first := Connect(l.id, "hvdc_NQ1_value", NQ_PREFIX + bus1, "vrremote_NQ");
    var second := Connect(l.id, "hvdc_NQ2_value", NQ_PREFIX + l.converter2BusId, "vrremote_NQ");
    if l.HasPQPropModel() {
      assert out[2] == first;
      if l.position == BOTH_IN_MAIN_COMPONENT {
        assert out[3] == second;
      }
    }
    if ConnectsNQ(l, b) {
      var c :| c in out && c.model1 == l.id && c.model2 == NQ_PREFIX + b && c.var2 == "vrremote_NQ";
      assert "hvdc_terminal1"[0] == 'h' && "hvdc_terminal2"[0] == 'h';
      assert c == first || c == second;
      SuffixCancels(NQ_PREFIX, b, if c == first then bus1 else l.converter2BusId);
    }
  }

  /** The proportional connections of a placed line lead to its shared buses. */
  lemma NQBusesAreShared(cfg: Config, l: HvdcLine, position: Position)
    ensures NQBuses(Placed(cfg, l, position)) == SharedBuses(cfg, l, position)
  {
    var pairs := ComputeModel(cfg, l, position).vscBusIdsMultipleRegulated;
    var p1, p2 := PairOf(l.converter1), PairOf(l.converter2);
    assert pairs == [] || pairs == [p1] || pairs == [p2] || pairs == [p1, p2];
    assert BusesOfPairs([]) == {} && BusesOfPairs([p1]) == {p1.bus} && BusesOfPairs([p2]) == {p2.bus};
    assert BusesOfPairs([p1, p2]) == {p1.bus, p2.bus} by {
      assert p1 in [p1, p2] && p2 in [p1, p2];
    }
  }

  /** A recorded line of the walk has a proportional connection to bus b. */
  ghost predicate SomeLineConnects(cfg: Config, nodes: seq<NodeRecord>, lines: seq<HvdcLine>, b: Id)
    requires StationsValid(StationsOn(nodes))
  {
    exists l :: l in lines && l.id in Walked(cfg, nodes).hvdcLines && ConnectsNQ(Walked(cfg, nodes).hvdcLines[l.id], b)
  }

  /** Main result. The keys of the VSC bus map are exactly the buses that the DYD
      file connects through NQ1 or NQ2, so each such connection has its model. */
  lemma VscBusesAreConnected(cfg: Config, nodes: seq<NodeRecord>, lines: seq<HvdcLine>, b: Id)
    requires NoDuplicates(IdsOf(nodes)) && UniqueLines(lines) && OnTheirBuses(nodes, lines)
    ensures StationsValid(StationsOn(nodes))
    ensures b in Walked(cfg, nodes).vscBuses <==> SomeLineConnects(cfg, nodes, lines, b)
  {
    MetStations(nodes, lines);
    var stations := StationsOn(nodes);
    WalkSharesBuses(cfg, stations, b);
    forall l <- lines
      ensures l.id in Walked(cfg, nodes).hvdcLines ==>
        && (ConnectsNQ(Walked(cfg, nodes).hvdcLines[l.id], b) <==> b in SharedBuses(cfg, l, PositionIn(stations, l)))
      ensures l.id in Walked(cfg, nodes).hvdcLines <==> Met1(stations, l) || Met2(stations, l)
    {
      WalkPlacesLine(cfg, stations, l);
      if l.id in Walked(cfg, nodes).hvdcLines {
        NQConnections(Walked(cfg, nodes).hvdcLines[l.id], b);
        NQBusesAreShared(cfg, l, PositionIn(stations, l));
      }
    }
    if SharedIn(cfg, stations, b) {
      var s :| s in stations && b in SharedBuses(cfg, s.line, PositionIn(stations, s.line));
      assert s.line in lines && (s == Station(s.line, s.line.converter1) || s == Station(s.line, s.line.converter2));
    }
    if SomeLineConnects(cfg, nodes, lines, b) {
      var l :| l in lines && l.id in Walked(cfg, nodes).hvdcLines && ConnectsNQ(Walked(cfg, nodes).hvdcLines[l.id], b);
      var s := if Met1(stations, l) then Station(l, l.converter1) else Station(l, l.converter2);
      assert s in stations && b in SharedBuses(cfg, s.line, PositionIn(stations, s.line));
    }
  }

  /** Terminal 1 of the model is wired to a bus of the main component, and the
      other bus is there as well exactly for a position BOTH. */
  lemma Terminal1InMain(cfg: Config, buses: seq<Id>, l: HvdcLine, bus: Id)
    requires l.converter1.busId in buses || l.converter2.busId in buses
    requires Connect(NETWORK, bus + "_ACPIN", l.id, "hvdc_terminal1")
             in WriteHvdcLineConnect(Placed(cfg, l, PositionAmong(buses, l)))
    ensures bus in buses
  {
    var d := Placed(cfg, l, PositionAmong(buses, l));
    assert "hvdc_terminal1"[13] == '1' && "hvdc_terminal2"[13] == '2' && "vrremote_NQ"[0] == 'v';
    var wired := if d.position == SECOND_IN_MAIN_COMPONENT then d.converter2BusId else d.converter1BusId;
    PrefixCancels(bus, wired, "_ACPIN");
  }

  lemma Terminal1IsWired(d: HVDCDefinition)
    ensures exists bus: Id {:trigger bus + "_ACPIN"} ::
              (bus == d.converter1BusId || bus == d.converter2BusId)
              && Connect(NETWORK, bus + "_ACPIN", d.id, "hvdc_terminal1") in WriteHvdcLineConnect(d)
  {
    var out := WriteHvdcLineConnect(d);
    if d.position == SECOND_IN_MAIN_COMPONENT {
      assert out[1] == Connect(NETWORK, d.converter2BusId + "_ACPIN", d.id, "hvdc_terminal1");
    } else {
      assert out[0] == Connect(NETWORK, d.converter1BusId + "_ACPIN", d.id, "hvdc_terminal1");
    }
  }

  /** What the writers read of a placed line is there: a droop for the emulation
      models, both converters and their regulation for VSC lines; and a dangling
      model is used exactly when one converter is outside. */
  lemma PlacedIsReadable(cfg: Config, l: HvdcLine, position: Position)
    requires l.Valid()
    ensures var d := Placed(cfg, l, position);
            && (d.HasEmulationModel() ==> d.droop.Some?)
            && (d.converterType == VSC ==> d.vscDefinition1.Some? && d.vscDefinition2.Some?)
            && (d.converterType == VSC ==>
                  d.converter1VoltageRegulationOn.Some? && d.converter2VoltageRegulationOn.Some?)
            && (d.HasDanglingModel() <==> d.position != BOTH_IN_MAIN_COMPONENT)
            && (d.HasDiagramModel() <==> !cfg.infiniteReactiveLimits)
            && (d.HasPQPropModel() ==> d.converterType == VSC)
  {
  }
}
