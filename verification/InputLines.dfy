/**
 The HVDC lines of the network and the models they get, in terms of the input: a
 definition for each line with an end in the main component, whose model follows
 from its kind, its ends in the component, its droop and the regulated buses.
 */
module InputLines {
  import opened Wrappers
  import opened Reachability
  import opened Network
  import opened InputLaws
  import opened Hvdc
  import opened HvdcLaws
  import opened VscBuses
  import opened ContextProcess
  import opened Pipeline
  import opened NetworkFiles
  import opened Dyd

  // ---------------------------------------------------------------------------
  // Who regulates a bus

  function End(l: HvdcLine, first: bool): Converter {
    if first then l.converter1 else l.converter2
  }

  /** The first or the second converter of the i-th line is VSC and regulates the bus. */
  predicate EndRegulates(env: Services, lines: seq<HvdcLine>, i: nat, first: bool, bus: Id) {
    i < |lines| && lines[i].converterType == VSC && env.regulatedBus(End(lines[i], first).id) == bus
  }

  ghost predicate SomeEndRegulates(env: Services, lines: seq<HvdcLine>, bus: Id) {
    exists i: nat, first: bool :: EndRegulates(env, lines, i, first, bus)
  }

  ghost predicate TwoEndsRegulate(env: Services, lines: seq<HvdcLine>, bus: Id) {
    exists i: nat, a: bool, j: nat, b: bool ::
      (i != j || a != b) && EndRegulates(env, lines, i, a, bus) && EndRegulates(env, lines, j, b, bus)
  }

  lemma RegulatingLast(env: Services, lines: seq<HvdcLine>, bus: Id)
    requires lines != []
    ensures var n := |lines| - 1;
            Regulating(env, lines, bus) == Regulating(env, lines[..n], bus)
              + (if EndRegulates(env, lines, n, true, bus) then 1 else 0)
              + (if EndRegulates(env, lines, n, false, bus) then 1 else 0)
  {
    var n := |lines| - 1;
    var before, l := VscRegulatedBuses(env, lines[..n]), lines[n];
    var b1, b2 := env.regulatedBus(l.converter1.id), env.regulatedBus(l.converter2.id);
    assert multiset(before + VscBusesOf(env, l)) == multiset(before) + multiset(VscBusesOf(env, l));
    assert [b1, b2] == [b1] + [b2];
  }

  lemma {:induction false} RegulatingCounts(env: Services, lines: seq<HvdcLine>, bus: Id)
    ensures Regulating(env, lines, bus) >= 1 <==> SomeEndRegulates(env, lines, bus)
    ensures Regulating(env, lines, bus) >= 2 <==> TwoEndsRegulate(env, lines, bus)
    decreases |lines|
  {
    if lines != [] {
      var n := |lines| - 1;
      RegulatingCounts(env, lines[..n], bus);
      RegulatingLast(env, lines, bus);
      EndsOfPrefix(env, lines, bus);
    }
  }

  /** The ends of the last line, and those of the lines before. */
  lemma EndsOfPrefix(env: Services, lines: seq<HvdcLine>, bus: Id)
    requires lines != []
    ensures var n, one := |lines| - 1, EndRegulates(env, lines, |lines| - 1, true, bus);
            var two := EndRegulates(env, lines, n, false, bus);
            && (SomeEndRegulates(env, lines, bus) <==> one || two || SomeEndRegulates(env, lines[..n], bus))
            && (TwoEndsRegulate(env, lines, bus) <==>
                  || (one && two)
                  || ((one || two) && SomeEndRegulates(env, lines[..n], bus))
                  || TwoEndsRegulate(env, lines[..n], bus))
  {
    var n := |lines| - 1;
    assert forall i: nat, a: bool :: i < n ==>
        (EndRegulates(env, lines, i, a, bus) <==> EndRegulates(env, lines[..n], i, a, bus));
    if TwoEndsRegulate(env, lines[..n], bus) {
      var i: nat, a: bool, j: nat, b: bool :| (i != j || a != b) && EndRegulates(env, lines[..n], i, a, bus)
                                              && EndRegulates(env, lines[..n], j, b, bus);
      assert EndRegulates(env, lines, i, a, bus) && EndRegulates(env, lines, j, b, bus);
    }
    if i: nat, a: bool :| EndRegulates(env, lines[..n], i, a, bus) {
      assert EndRegulates(env, lines, i, a, bus);
    }
  }

  // ---------------------------------------------------------------------------
  // What decides a model

  predicate IsPTanPhi(model: HVDCModel) {
    || model == HvdcPTanPhi || model == HvdcPTanPhiDangling || model == HvdcPTanPhiDiagramPQ
    || model == HvdcPTanPhiDanglingDiagramPQ
  }

  predicate IsPV(model: HVDCModel) {
    || model == HvdcPV || model == HvdcPVDangling || model == HvdcPVDiagramPQ || model == HvdcPVDanglingDiagramPQ
    || model == HvdcPVEmulation || model == HvdcPVDiagramPQEmulation
  }

  /** The family, and whether the model is an emulation, dangling, with a diagram. */
  predicate ModelFits(h: HVDCDefinition, lcc: bool, shared: bool, emulation: bool, dangling: bool, diagram: bool) {
    && (IsPTanPhi(h.model) <==> lcc)
    && (h.HasPQPropModel() <==> !lcc && shared)
    && (IsPV(h.model) <==> !lcc && !shared)
    && (h.HasEmulationModel() <==> emulation)
    && (h.HasDanglingModel() <==> dangling)
    && (h.HasDiagramModel() <==> diagram)
  }

  /** These facts leave one model. */
  lemma FactsDetermineModel(h: HVDCDefinition, k: HVDCDefinition, lcc: bool, shared: bool, emulation: bool,
                            dangling: bool, diagram: bool)
    requires ModelFits(h, lcc, shared, emulation, dangling, diagram)
    requires ModelFits(k, lcc, shared, emulation, dangling, diagram)
    ensures h.model == k.model
  {
  }

  /** A converter that counts is on a bus that two converters of VSC lines regulate. */
  ghost predicate OnBusOfTwo(env: Services, lines: seq<HvdcLine>, l: HvdcLine, in1: bool, in2: bool) {
    || (in1 && TwoEndsRegulate(env, lines, l.converter1.busId))
    || (in2 && TwoEndsRegulate(env, lines, l.converter2.busId))
  }

  /** The model of a line with the first, the second or both ends in the component. */
  ghost predicate ModelIs(inp: Inputs, lines: seq<HvdcLine>, l: HvdcLine, in1: bool, in2: bool, h: HVDCDefinition) {
    ModelFits(h, l.converterType == LCC, OnBusOfTwo(inp.env, lines, l, in1, in2),
              l.converterType == VSC && l.droop.Some? && in1 && in2, !(in1 && in2), !inp.infiniteReactiveLimits)
  }

  lemma ModelOfPosition(cfg: Config, l: HvdcLine, in1: bool, in2: bool, shared: bool)
    requires in1 || in2
    requires Placed(cfg, l, PositionOf(in1, in2)).HasPQPropModel() <==> l.converterType == VSC && shared
    ensures ModelFits(Placed(cfg, l, PositionOf(in1, in2)), l.converterType == LCC, shared,
                      l.converterType == VSC && l.droop.Some? && in1 && in2, !(in1 && in2), !cfg.infiniteReactiveLimits)
  {
  }

  lemma OnSharedIsOfTwo(env: Services, lines: seq<HvdcLine>, l: HvdcLine, in1: bool, in2: bool)
    requires in1 || in2
    ensures OnSharedBus(env, lines, l, PositionOf(in1, in2)) <==> OnBusOfTwo(env, lines, l, in1, in2)
  {
    OnSharedBusAt(env, lines, l, PositionOf(in1, in2));
    RegulatingCounts(env, lines, l.converter1.busId);
    RegulatingCounts(env, lines, l.converter2.busId);
  }

  /** At any position, whatever the order of the walk. */
  lemma PlacedModelIs(inp: Inputs, lines: seq<HvdcLine>, l: HvdcLine, in1: bool, in2: bool)
    requires CountsLines(inp.HvdcConfig(), inp.env, lines) && (in1 || in2)
    ensures ModelIs(inp, lines, l, in1, in2, Placed(inp.HvdcConfig(), l, PositionOf(in1, in2)))
  {
    ProportionalExactly(inp.HvdcConfig(), inp.env, lines, l, PositionOf(in1, in2));
    OnSharedIsOfTwo(inp.env, lines, l, in1, in2);
    ModelOfPosition(inp.HvdcConfig(), l, in1, in2, OnBusOfTwo(inp.env, lines, l, in1, in2));
  }

  // ---------------------------------------------------------------------------
  // What a definition says of its line

  /** The definition of a VSC converter, whose active power is bounded by that of the
      line in both directions. */
  predicate IsVSCOf(v: Option<VSCDefinition>, l: HvdcLine, c: Converter) {
    match c
    case LCCConverter(_, _, _) => v == None
    case VSCConverter(id, _, _, qMax, qMin, points) =>
      && v.Some? && v.value.id == id && v.value.qmax == qMax && v.value.qmin == qMin && v.value.points == points
      && v.value.pmax == l.pMax && v.value.pmin == -l.pMax
  }

  predicate IsRegulationOf(r: Option<bool>, c: Converter) {
    if c.VSCConverter? then r == Some(c.voltageRegulationOn) else r == None
  }

  predicate ConvertersFit(l: HvdcLine, h: HVDCDefinition) {
    && h.converter1Id == l.converter1.id && h.converter1BusId == l.converter1.busId
    && h.converter2Id == l.converter2.id && h.converter2BusId == l.converter2.busId
    && IsRegulationOf(h.converter1VoltageRegulationOn, l.converter1)
    && IsRegulationOf(h.converter2VoltageRegulationOn, l.converter2)
    && IsVSCOf(h.vscDefinition1, l, l.converter1) && IsVSCOf(h.vscDefinition2, l, l.converter2)
    && h.powerFactors.0 == (if l.converter1.LCCConverter? then l.converter1.powerFactor else 0.0)
    && h.powerFactors.1 == (if l.converter2.LCCConverter? then l.converter2.powerFactor else 0.0)
  }

  predicate PositionFits(h: HVDCDefinition, in1: bool, in2: bool) {
    && (h.position == BOTH_IN_MAIN_COMPONENT <==> in1 && in2)
    && (h.position == FIRST_IN_MAIN_COMPONENT <==> in1 && !in2)
    && (h.position == SECOND_IN_MAIN_COMPONENT <==> !in1 && in2)
  }

  /** The definition is that of the line, in a network with this main component. */
  ghost predicate DefinesLine(inp: Inputs, data: NetworkData, main: seq<Id>, l: HvdcLine, h: HVDCDefinition) {
    var in1, in2 := l.converter1.busId in main, l.converter2.busId in main;
    && h.id == l.id && h.converterType == l.converterType && h.droop == l.droop && h.pMax == l.pMax
    && ConvertersFit(l, h) && PositionFits(h, in1, in2)
    && ModelIs(inp, ConnectedHvdc(data.hvdcLines), l, in1, in2, h)
  }

  lemma PlacedDefines(inp: Inputs, data: NetworkData, main: seq<Id>, l: HvdcLine)
    requires BuiltFrom(inp, data) && (l.converter1.busId in main || l.converter2.busId in main)
    ensures DefinesLine(inp, data, main, l, Placed(inp.HvdcConfig(), l, PositionAmong(main, l)))
  {
    PlacedModelIs(inp, ConnectedHvdc(data.hvdcLines), l, l.converter1.busId in main, l.converter2.busId in main);
  }

  /** A connected line of the input, with an end in the main component. */
  ghost predicate HasDefinition(inp: Inputs, data: NetworkData, l: HvdcLine)
    requires inp.Valid()
  {
    && (exists d :: d in data.hvdcLines && LineIs(d, l))
    && (l.converter1.busId in MainOf(inp) || l.converter2.busId in MainOf(inp))
  }

  lemma DefinitionOfHanded(inp: Inputs, data: NetworkData, m: map<Id, Id>, d: Definition, l: HvdcLine)
    returns (h: HVDCDefinition)
    requires BuiltFrom(inp, data) && inp.Valid() && HandsOver(inp, m, d) && HasDefinition(inp, data, l)
    ensures h in d.hvdcLines && h.id == l.id && DefinesLine(inp, data, MainOf(inp), l, h)
  {
    ConnectedLinesMembers(data.hvdcLines, l);
    HvdcLinesOfTheNetwork(inp, data, l);
    PlacedDefines(inp, data, MainOf(inp), l);
    h := WalkedOn(inp, MainOf(inp)).hvdcLines[l.id];
  }

  lemma LineOfHanded(inp: Inputs, data: NetworkData, m: map<Id, Id>, d: Definition, h: HVDCDefinition)
    returns (l: HvdcLine)
    requires BuiltFrom(inp, data) && inp.Valid() && HandsOver(inp, m, d) && h in d.hvdcLines
    ensures HasDefinition(inp, data, l) && DefinesLine(inp, data, MainOf(inp), l, h)
  {
    l := HandedLine(inp, data, m, d, h);
    ConnectedLinesMembers(data.hvdcLines, l);
    PlacedDefines(inp, data, MainOf(inp), l);
  }

  /** End to end: the definitions handed to the writers are exactly those of the
      connected lines of the input with an end in the main component, one for each.
      The model is PTanPhi exactly if the line is LCC; else PQProp exactly if an end in
      the component is on a bus that two converters of VSC lines regulate, and PV
      otherwise; it emulates exactly if the line is VSC, has a droop and both ends
      in the component; it dangles exactly if one end is outside; it has a diagram
      exactly if limits are finite. */
  lemma LinesOfInput(inp: Inputs, data: NetworkData, m: map<Id, Id>, d: Definition)
    requires BuiltFrom(inp, data) && inp.Valid() && HandsOver(inp, m, d)
    ensures forall h <- d.hvdcLines ::
              exists l :: HasDefinition(inp, data, l) && DefinesLine(inp, data, MainOf(inp), l, h)
    ensures forall l :: HasDefinition(inp, data, l) ==>
              exists h :: h in d.hvdcLines && DefinesLine(inp, data, MainOf(inp), l, h)
  {
    forall h <- d.hvdcLines
      ensures exists l :: HasDefinition(inp, data, l) && DefinesLine(inp, data, MainOf(inp), l, h)
    {
      var l := LineOfHanded(inp, data, m, d, h);
    }
    forall l | HasDefinition(inp, data, l)
      ensures exists h :: h in d.hvdcLines && DefinesLine(inp, data, MainOf(inp), l, h)
    {
      var h := DefinitionOfHanded(inp, data, m, d, l);
    }
  }
}
