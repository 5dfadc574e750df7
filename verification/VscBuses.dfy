/**
 What the VSC bus map makes of a network. Its keys are the buses that converters
 regulate, but the models are chosen by looking up the buses they are on.
 */
module VscBuses {
  import opened Wrappers
  import opened Reachability
  import opened Network
  import opened NetworkLaws
  import opened Hvdc
  import opened HvdcLaws

  /** How many converters of the VSC lines regulate a bus. */
  function Regulating(env: Services, lines: seq<HvdcLine>, b: Id): nat {
    multiset(VscRegulatedBuses(env, lines))[b]
  }

  /** The bus map is the one the network manager counts. */
  predicate CountsLines(cfg: Config, env: Services, lines: seq<HvdcLine>) {
    cfg.busMap == CountAll(map[], VscRegulatedBuses(env, lines))
  }

  /** The map says MULTIPLES exactly for a bus that two converters regulate. */
  lemma MultipleMeansTwo(cfg: Config, env: Services, lines: seq<HvdcLine>, b: Id)
    requires CountsLines(cfg, env, lines)
    ensures cfg.Multiple(b) <==> Regulating(env, lines, b) >= 2
  {
    CountAllCounts(VscRegulatedBuses(env, lines));
  }

  /** The converters that count at a position. */
  function Consulted(l: HvdcLine, position: Position): seq<Converter> {
    match position
    case FIRST_IN_MAIN_COMPONENT => [l.converter1]
    case SECOND_IN_MAIN_COMPONENT => [l.converter2]
    case BOTH_IN_MAIN_COMPONENT => [l.converter1, l.converter2]
  }

  /** Some converter is on a bus that several converters regulate. */
  ghost predicate OnSharedBus(env: Services, lines: seq<HvdcLine>, l: HvdcLine, position: Position) {
    exists c :: c in Consulted(l, position) && Regulating(env, lines, c.busId) >= 2
  }

  /** Some converter regulates its bus together with others. */
  ghost predicate RegulatesSharedBus(env: Services, lines: seq<HvdcLine>, l: HvdcLine, position: Position) {
    exists c :: c in Consulted(l, position) && Regulating(env, lines, env.regulatedBus(c.id)) >= 2
  }

  /** The converters involved in a multiple regulation, with the buses that they
      regulate; those of a line count together. */
  ghost function InvolvedPairs(env: Services, lines: seq<HvdcLine>, l: HvdcLine, position: Position): seq<VSCBusPair> {
    var cs := Consulted(l, position);
    if RegulatesSharedBus(env, lines, l, position) then
      seq(|cs|, i requires 0 <= i < |cs| => VSCBusPair(env.regulatedBus(cs[i].id), cs[i].id))
    else []
  }

  /** What the code finds: the converters with the buses they are on. */
  lemma PairsFound(cfg: Config, env: Services, lines: seq<HvdcLine>, l: HvdcLine, position: Position)
    requires CountsLines(cfg, env, lines)
    ensures var cs := Consulted(l, position);
            GetBusRegulatedByMultipleVSC(cfg, l, position)
            == if OnSharedBus(env, lines, l, position) then seq(|cs|, i requires 0 <= i < |cs| => PairOf(cs[i])) else []
  {
    MultipleMeansTwo(cfg, env, lines, l.converter1.busId);
    MultipleMeansTwo(cfg, env, lines, l.converter2.busId);
    OnSharedBusAt(env, lines, l, position);
  }

  lemma OnSharedBusAt(env: Services, lines: seq<HvdcLine>, l: HvdcLine, position: Position)
    ensures OnSharedBus(env, lines, l, position)
       <==> match position
            case FIRST_IN_MAIN_COMPONENT => Regulating(env, lines, l.converter1.busId) >= 2
            case SECOND_IN_MAIN_COMPONENT => Regulating(env, lines, l.converter2.busId) >= 2
            case BOTH_IN_MAIN_COMPONENT =>
              Regulating(env, lines, l.converter1.busId) >= 2 || Regulating(env, lines, l.converter2.busId) >= 2
  {
    var cs := Consulted(l, position);
    assert cs[0] in cs && cs[|cs| - 1] in cs;
  }

  /** The converters that count at a position regulate the buses they are on. */
  predicate Local(env: Services, l: HvdcLine, position: Position) {
    forall c <- Consulted(l, position) :: env.regulatedBus(c.id) == c.busId
  }

  lemma LocalPairs(cfg: Config, env: Services, lines: seq<HvdcLine>, l: HvdcLine, position: Position)
    requires CountsLines(cfg, env, lines) && Local(env, l, position)
    ensures GetBusRegulatedByMultipleVSC(cfg, l, position) == InvolvedPairs(env, lines, l, position)
  {
    PairsFound(cfg, env, lines, l, position);
    var cs := Consulted(l, position);
    assert OnSharedBus(env, lines, l, position) <==> RegulatesSharedBus(env, lines, l, position);
    forall i | 0 <= i < |cs| ensures PairOf(cs[i]) == VSCBusPair(env.regulatedBus(cs[i].id), cs[i].id) {
      assert cs[i] in cs;
    }
  }

  lemma EqualPairsAreLocal(env: Services, l: HvdcLine, position: Position, pairs: seq<VSCBusPair>)
    requires var cs := Consulted(l, position);
             && pairs == seq(|cs|, i requires 0 <= i < |cs| => PairOf(cs[i]))
             && pairs == seq(|cs|, i requires 0 <= i < |cs| => VSCBusPair(env.regulatedBus(cs[i].id), cs[i].id))
    ensures Local(env, l, position)
  {
    var cs := Consulted(l, position);
    forall c <- cs ensures env.regulatedBus(c.id) == c.busId {
      var i :| 0 <= i < |cs| && cs[i] == c;
      assert pairs[i] == PairOf(c) && pairs[i] == VSCBusPair(env.regulatedBus(c.id), c.id);
    }
  }

  /** The code finds the pairs involved exactly if the converters that count
      regulate the buses they are on, or there is nothing shared on either. */
  lemma PairsAreInvolved(cfg: Config, env: Services, lines: seq<HvdcLine>, l: HvdcLine, position: Position)
    requires CountsLines(cfg, env, lines)
    ensures GetBusRegulatedByMultipleVSC(cfg, l, position) == InvolvedPairs(env, lines, l, position)
       <==> || (forall c <- Consulted(l, position) :: env.regulatedBus(c.id) == c.busId)
            || (forall c <- Consulted(l, position) ::
                  Regulating(env, lines, c.busId) < 2 && Regulating(env, lines, env.regulatedBus(c.id)) < 2)
  {
    var found, involved := GetBusRegulatedByMultipleVSC(cfg, l, position), InvolvedPairs(env, lines, l, position);
    if Local(env, l, position) {
      LocalPairs(cfg, env, lines, l, position);
    } else {
      PairsFound(cfg, env, lines, l, position);
      if OnSharedBus(env, lines, l, position) && RegulatesSharedBus(env, lines, l, position) && found == involved {
        EqualPairsAreLocal(env, l, position, found);
      }
    }
  }

  lemma ProportionalIfPairs(cfg: Config, l: HvdcLine, position: Position)
    ensures Placed(cfg, l, position).HasPQPropModel()
       <==> l.converterType == VSC && GetBusRegulatedByMultipleVSC(cfg, l, position) != []
  {
  }

  /** Exactly when a placed line has a proportional model. */
  lemma ProportionalExactly(cfg: Config, env: Services, lines: seq<HvdcLine>, l: HvdcLine, position: Position)
    requires CountsLines(cfg, env, lines)
    ensures Placed(cfg, l, position).HasPQPropModel() <==> l.converterType == VSC && OnSharedBus(env, lines, l, position)
  {
    ProportionalIfPairs(cfg, l, position);
    PairsFound(cfg, env, lines, l, position);
  }

  /** Every VSC converter regulates the bus it is on. */
  predicate RegulatesLocally(env: Services, lines: seq<HvdcLine>) {
    forall l <- lines :: l.converterType == VSC ==>
      env.regulatedBus(l.converter1.id) == l.converter1.busId && env.regulatedBus(l.converter2.id) == l.converter2.busId
  }

  /** In a network whose converters regulate their own buses all is well. */
  lemma LocalRegulationIsFound(cfg: Config, env: Services, lines: seq<HvdcLine>, l: HvdcLine, position: Position)
    requires CountsLines(cfg, env, lines) && RegulatesLocally(env, lines) && l in lines && l.converterType == VSC
    ensures GetBusRegulatedByMultipleVSC(cfg, l, position) == InvolvedPairs(env, lines, l, position)
    ensures Placed(cfg, l, position).HasPQPropModel() <==> RegulatesSharedBus(env, lines, l, position)
  {
    LocalPairs(cfg, env, lines, l, position);
    ProportionalExactly(cfg, env, lines, l, position);
  }

  // ---------------------------------------------------------------------------
  // A network in which it is not

  lemma RegulatedByTwoLines(env: Services, l1: HvdcLine, l2: HvdcLine)
    requires l1.converterType == VSC && l2.converterType == VSC
    ensures VscRegulatedBuses(env, [l1, l2])
         == [env.regulatedBus(l1.converter1.id), env.regulatedBus(l1.converter2.id),
             env.regulatedBus(l2.converter1.id), env.regulatedBus(l2.converter2.id)]
  {
    assert [l1, l2][..1] == [l1] && [l1][..0] == [];
    assert VscRegulatedBuses(env, [l1]) == VscBusesOf(env, l1);
  }

  /** Two converters regulate one bus from elsewhere, and none regulates the buses
      of the first line from elsewhere: then no position of it shows the sharing. */
  lemma SharedBusIsMissed(cfg: Config, env: Services, l1: HvdcLine, l2: HvdcLine, position: Position)
    requires CountsLines(cfg, env, [l1, l2]) && l1.converterType == VSC && l2.converterType == VSC
    requires env.regulatedBus(l1.converter1.id) == env.regulatedBus(l2.converter1.id)
    requires env.regulatedBus(l1.converter2.id) == l1.converter2.busId
    requires l1.converter1.busId != l1.converter2.busId
    requires forall c <- [l1.converter1, l2.converter1, l2.converter2] ::
               env.regulatedBus(c.id) != l1.converter1.busId && env.regulatedBus(c.id) != l1.converter2.busId
    ensures Regulating(env, [l1, l2], env.regulatedBus(l1.converter1.id)) >= 2
    ensures GetBusRegulatedByMultipleVSC(cfg, l1, position) == []
  {
    RegulatedByTwoLines(env, l1, l2);
    var b1, b2 := l1.converter1.busId, l1.converter2.busId;
    assert forall c <- [l1.converter1, l2.converter1, l2.converter2] :: env.regulatedBus(c.id) != b1;
    assert l1.converter1 in [l1.converter1, l2.converter1, l2.converter2];
    assert l2.converter1 in [l1.converter1, l2.converter1, l2.converter2];
    assert l2.converter2 in [l1.converter1, l2.converter1, l2.converter2];
    MultipleMeansTwo(cfg, env, [l1, l2], b1);
    MultipleMeansTwo(cfg, env, [l1, l2], b2);
  }

  function ExampleLine(id: Id, first: Id, bus1: Id, second: Id, bus2: Id): HvdcLine {
    HvdcLine(id, VSC, VSCConverter(first, bus1, true, 1.0, -1.0, []), VSCConverter(second, bus2, true, 1.0, -1.0, []),
             None, 1.0)
  }

  /** An input file of this kind: C1 on A and C3 on D regulate R; C2 on B and C4 on
      E regulate their own buses. */
  lemma RemoteRegulation(env: Services) returns (data: NetworkData)
    requires env.regulatedBus("1") == env.regulatedBus("3") == "R"
    requires env.regulatedBus("2") == "B" && env.regulatedBus("4") == "E"
    ensures WellFormed(data) && |ConnectedHvdc(data.hvdcLines)| == 2
    ensures var lines := ConnectedHvdc(data.hvdcLines);
            var cfg := Config(false, CountAll(map[], VscRegulatedBuses(env, lines)));
            && Regulating(env, lines, env.regulatedBus(lines[0].converter1.id)) >= 2
            && RegulatesSharedBus(env, lines, lines[0], FIRST_IN_MAIN_COMPONENT)
            && forall position :: GetBusRegulatedByMultipleVSC(cfg, lines[0], position) == []
  {
    var l1, l2 := ExampleLine("X", "1", "A", "2", "B"), ExampleLine("Y", "3", "D", "4", "E");
    var vl := VoltageLevelData("V", 1.0, ["A", "B", "D", "E", "R"], [], [], []);
    data := NetworkData([vl], [], [], [], [HvdcData(l1, true, true), HvdcData(l2, true, true)]);
    ExampleIsWellFormed(data, vl, l1, l2);
    var cfg := Config(false, CountAll(map[], VscRegulatedBuses(env, [l1, l2])));
    forall position ensures GetBusRegulatedByMultipleVSC(cfg, l1, position) == [] {
      SharedBusIsMissed(cfg, env, l1, l2, position);
    }
    SharedBusIsMissed(cfg, env, l1, l2, FIRST_IN_MAIN_COMPONENT);
    assert l1.converter1 in Consulted(l1, FIRST_IN_MAIN_COMPONENT);
  }

  lemma ExampleIsWellFormed(data: NetworkData, vl: VoltageLevelData, l1: HvdcLine, l2: HvdcLine)
    requires vl == VoltageLevelData("V", 1.0, ["A", "B", "D", "E", "R"], [], [], [])
    requires l1 == ExampleLine("X", "1", "A", "2", "B") && l2 == ExampleLine("Y", "3", "D", "4", "E")
    requires data == NetworkData([vl], [], [], [], [HvdcData(l1, true, true), HvdcData(l2, true, true)])
    ensures WellFormed(data) && ConnectedHvdc(data.hvdcLines) == [l1, l2]
  {
    assert data.voltageLevels[..0] == [] && KnownBuses([]) == {};
    assert KnownBuses(data.voltageLevels) == Elements(vl.buses);
    assert "A" in vl.buses && "B" in vl.buses && "D" in vl.buses && "E" in vl.buses;
    var ds := data.hvdcLines;
    assert ds[..1] == [HvdcData(l1, true, true)] && ds[..1][..0] == [];
    assert ConnectedHvdc(ds[..1]) == [l1];
  }
}
