/**
 The built network in terms of the input file: what each node has, element by
 element, without the functions that build it.
 */
module InputLaws {
  import opened Reachability
  import opened Network
  import opened NetworkLaws
  import HvdcLaws

  // ---------------------------------------------------------------------------
  // Buses and levels

  lemma {:induction false} AllBusesMembers(levels: seq<VoltageLevelData>, b: Bus)
    ensures b in AllBuses(levels) <==> b.level in levels && b.id in b.level.buses
    decreases |levels|
  {
    if levels != [] {
      var n := |levels| - 1;
      AllBusesMembers(levels[..n], b);
      assert levels == levels[..n] + [levels[n]];
      BusesOfMembers(levels[n], b);
    }
  }

  lemma BusesOfMembers(vl: VoltageLevelData, b: Bus)
    ensures b in BusesOf(vl) <==> b.level == vl && b.id in vl.buses
  {
    if b.level == vl && b.id in vl.buses {
      var i :| 0 <= i < |vl.buses| && vl.buses[i] == b.id;
      assert BusesOf(vl)[i] == b;
    }
  }

  /** Every node is a bus of some level. */
  lemma LevelOfNode(env: Services, data: NetworkData, id: Id) returns (vl: VoltageLevelData)
    requires WellFormed(data) && id in BuildNodes(env, data)
    ensures vl in data.voltageLevels && id in vl.buses
  {
    var b := BusOfNode(env, data, id);
    AllBusesMembers(data.voltageLevels, b);
    vl := b.level;
  }

  /** A bus is in one level only, and a level has an id of its own. */
  lemma LevelsAreTold(levels: seq<VoltageLevelData>, v: VoltageLevelData, w: VoltageLevelData)
    requires LevelsWellFormed(levels) && v in levels && w in levels
    ensures v.id == w.id ==> v == w
    ensures (exists id :: id in v.buses && id in w.buses) ==> v == w
  {
    var i, j :| 0 <= i < |levels| && levels[i] == v && 0 <= j < |levels| && levels[j] == w;
  }

  lemma {:induction false} NodesOfLevel(levels: seq<VoltageLevelData>, vl: VoltageLevelData)
    requires LevelsWellFormed(levels) && vl in levels
    ensures vl.id in LevelNodes(levels) && LevelNodes(levels)[vl.id] == vl.buses
    decreases |levels|
  {
    var n := |levels| - 1;
    if vl != levels[n] {
      assert vl in levels[..n];
      NodesOfLevel(levels[..n], vl);
      var i :| 0 <= i < n && levels[i] == vl;
    }
  }

  // ---------------------------------------------------------------------------
  // Lines, transformers and neighbours

  predicate Ends(a: Id, b: Id, u: Id, v: Id) {
    (u == a && v == b) || (u == b && v == a)
  }

  ghost predicate ClosedSwitch(data: NetworkData, u: Id, v: Id) {
    exists vl, sw :: vl in data.voltageLevels && sw in vl.switches && !sw.isOpen && Ends(sw.bus1, sw.bus2, u, v)
  }

  predicate BothConnected(l: BranchData) {
    l.connected1 && l.connected2
  }

  ghost predicate BranchBetween(branches: seq<BranchData>, u: Id, v: Id) {
    exists l :: l in branches && BothConnected(l) && Ends(l.bus1, l.bus2, u, v)
  }

  predicate AllConnected(t: ThreeWindingData) {
    t.connected1 && t.connected2 && t.connected3
  }

  ghost predicate StarBetween(tfos: seq<ThreeWindingData>, u: Id, v: Id) {
    exists t :: t in tfos && AllConnected(t) && (Ends(t.bus1, t.bus2, u, v) || Ends(t.bus1, t.bus3, u, v)
                                                 || Ends(t.bus2, t.bus3, u, v))
  }

  /** Some element of the input connects the two buses. */
  ghost predicate Wired(data: NetworkData, u: Id, v: Id) {
    || ClosedSwitch(data, u, v)
    || BranchBetween(data.lines, u, v)
    || BranchBetween(data.tfos, u, v)
    || StarBetween(data.threeWindings, u, v)
  }

  ghost predicate LineAt(data: NetworkData, name: Id, u: Id) {
    exists l :: l in data.lines && BothConnected(l) && l.id == name && (l.bus1 == u || l.bus2 == u)
  }

  ghost predicate TfoAt(data: NetworkData, name: Id, u: Id) {
    || (exists l :: l in data.tfos && BothConnected(l) && l.id == name && (l.bus1 == u || l.bus2 == u))
    || (exists t :: t in data.threeWindings && AllConnected(t) && t.id == name
                    && (t.bus1 == u || t.bus2 == u || t.bus3 == u))
  }

  predicate SwitchIs(sw: SwitchData, x: Connection) {
    !sw.isOpen && x == Link(Switch, sw.id, sw.bus1, sw.bus2)
  }

  ghost predicate SwitchOf(vl: VoltageLevelData, x: Connection) {
    exists sw :: sw in vl.switches && SwitchIs(sw, x)
  }

  lemma {:induction false} SwitchesMembers(switches: seq<SwitchData>, x: Connection)
    ensures x in ClosedSwitches(switches) <==> exists sw :: sw in switches && SwitchIs(sw, x)
    decreases |switches|
  {
    if switches != [] {
      var n := |switches| - 1;
      SwitchesMembers(switches[..n], x);
      assert switches == switches[..n] + [switches[n]] && switches[n] in switches;
      if x in ClosedSwitches(switches) && x !in ClosedSwitches(switches[..n]) {
        assert SwitchIs(switches[n], x);
      }
      if sw :| sw in switches && SwitchIs(sw, x) {
        assert sw in switches[..n] || sw == switches[n];
      }
    }
  }

  lemma {:induction false} AllSwitchesMembers(levels: seq<VoltageLevelData>, x: Connection)
    ensures x in AllSwitches(levels) <==> exists vl :: vl in levels && SwitchOf(vl, x)
    decreases |levels|
  {
    if levels != [] {
      var n := |levels| - 1;
      AllSwitchesMembers(levels[..n], x);
      SwitchesMembers(levels[n].switches, x);
      assert levels == levels[..n] + [levels[n]] && levels[n] in levels;
      assert x in ClosedSwitches(levels[n].switches) <==> SwitchOf(levels[n], x);
    }
  }

  predicate BranchIs(kind: LinkKind, l: BranchData, x: Connection) {
    BothConnected(l) && x == Link(kind, l.id, l.bus1, l.bus2)
  }

  lemma {:induction false} BranchesMembers(kind: LinkKind, branches: seq<BranchData>, x: Connection)
    ensures x in ConnectedBranches(kind, branches) <==> exists l :: l in branches && BranchIs(kind, l, x)
    decreases |branches|
  {
    if branches != [] {
      var n := |branches| - 1;
      BranchesMembers(kind, branches[..n], x);
      assert branches == branches[..n] + [branches[n]];
      assert branches[n] in branches;
    }
  }

  predicate StarIs(t: ThreeWindingData, x: Connection) {
    AllConnected(t) && x == Star(t.id, t.bus1, t.bus2, t.bus3)
  }

  lemma {:induction false} StarsMembers(tfos: seq<ThreeWindingData>, x: Connection)
    ensures x in ConnectedStars(tfos) <==> exists t :: t in tfos && StarIs(t, x)
    decreases |tfos|
  {
    if tfos != [] {
      var n := |tfos| - 1;
      StarsMembers(tfos[..n], x);
      assert tfos == tfos[..n] + [tfos[n]];
      assert tfos[n] in tfos;
    }
  }

  predicate JoinsNodes(x: Connection, u: Id, v: Id) {
    Ends(x.a, x.b, u, v) || (x.Star? && (Ends(x.a, x.c, u, v) || Ends(x.b, x.c, u, v)))
  }

  predicate LineOn(x: Connection, u: Id, name: Id) {
    x.Link? && x.kind == Line && x.id == name && (x.a == u || x.b == u)
  }

  predicate TfoOn(x: Connection, u: Id, name: Id) {
    x.id == name && (x.a == u || x.b == u || (x.Star? && x.c == u)) && (x.Link? ==> x.kind == Tfo)
  }

  lemma SomeOf<T>(xs: seq<T>, p: T -> bool)
    requires xs != []
    ensures (exists x :: x in xs && p(x)) <==> (exists x :: x in xs[..|xs| - 1] && p(x)) || p(xs[|xs| - 1])
  {
    var n := |xs| - 1;
    assert xs == xs[..n] + [xs[n]] && xs[n] in xs;
    if x :| x in xs && p(x) {
      assert x in xs[..n] || x == xs[n];
    }
  }

  lemma EndsMembers(x: Connection, u: Id, v: Id)
    ensures v in EndsAt(x, u) <==> JoinsNodes(x, u, v)
  {
  }

  lemma {:induction false} NeighboursMembers(xs: seq<Connection>, u: Id, v: Id)
    ensures v in NeighboursAt(xs, u) <==> exists x :: x in xs && JoinsNodes(x, u, v)
    decreases |xs|
  {
    if xs != [] {
      var n := |xs| - 1;
      NeighboursMembers(xs[..n], u, v);
      EndsMembers(xs[n], u, v);
      SomeOf(xs, x => JoinsNodes(x, u, v));
    }
  }

  lemma LineEndsMembers(x: Connection, u: Id, name: Id)
    ensures name in LineEndsAt(x, u) <==> LineOn(x, u, name)
  {
  }

  lemma {:induction false} LinesMembers(xs: seq<Connection>, u: Id, name: Id)
    ensures name in LinesAt(xs, u) <==> exists x :: x in xs && LineOn(x, u, name)
    decreases |xs|
  {
    if xs != [] {
      var n := |xs| - 1;
      LinesMembers(xs[..n], u, name);
      LineEndsMembers(xs[n], u, name);
      SomeOf(xs, x => LineOn(x, u, name));
    }
  }

  lemma TfoEndsMembers(x: Connection, u: Id, name: Id)
    ensures name in TfoEndsAt(x, u) <==> TfoOn(x, u, name)
  {
  }

  lemma {:induction false} TfosMembers(xs: seq<Connection>, u: Id, name: Id)
    ensures name in TfosAt(xs, u) <==> exists x :: x in xs && TfoOn(x, u, name)
    decreases |xs|
  {
    if xs != [] {
      var n := |xs| - 1;
      TfosMembers(xs[..n], u, name);
      TfoEndsMembers(xs[n], u, name);
      SomeOf(xs, x => TfoOn(x, u, name));
    }
  }

  /** The element of the input behind a connection. */
  ghost predicate ConnectionOf(data: NetworkData, x: Connection) {
    || (exists vl :: vl in data.voltageLevels && SwitchOf(vl, x))
    || (exists l :: l in data.lines && BranchIs(Line, l, x))
    || (exists l :: l in data.tfos && BranchIs(Tfo, l, x))
    || (exists t :: t in data.threeWindings && StarIs(t, x))
  }

  lemma ConnectionsMembers(data: NetworkData, x: Connection)
    ensures x in Connections(data) <==> ConnectionOf(data, x)
  {
    AllSwitchesMembers(data.voltageLevels, x);
    BranchesMembers(Line, data.lines, x);
    BranchesMembers(Tfo, data.tfos, x);
    StarsMembers(data.threeWindings, x);
  }

  lemma WireBehind(data: NetworkData, x: Connection, u: Id, v: Id)
    requires ConnectionOf(data, x) && JoinsNodes(x, u, v)
    ensures Wired(data, u, v)
  {
    if x.Star? {
      var t :| t in data.threeWindings && StarIs(t, x);
    } else if x.kind == Switch {
      var vl :| vl in data.voltageLevels && SwitchOf(vl, x);
      var sw :| sw in vl.switches && SwitchIs(sw, x);
    } else if x.kind == Line {
      var l :| l in data.lines && BranchIs(Line, l, x);
    } else {
      var l :| l in data.tfos && BranchIs(Tfo, l, x);
    }
  }

  /** Two buses of the input are neighbours exactly if an element connects them. */
  lemma NeighboursAreWired(data: NetworkData, u: Id, v: Id)
    ensures v in NeighboursAt(Connections(data), u) <==> Wired(data, u, v)
  {
    NeighboursMembers(Connections(data), u, v);
    if v in NeighboursAt(Connections(data), u) {
      var x :| x in Connections(data) && JoinsNodes(x, u, v);
      ConnectionsMembers(data, x);
      WireBehind(data, x, u, v);
    }
    if Wired(data, u, v) {
      var x := WireOf(data, u, v);
    }
  }

  lemma WireOf(data: NetworkData, u: Id, v: Id) returns (x: Connection)
    requires Wired(data, u, v)
    ensures x in Connections(data) && JoinsNodes(x, u, v)
  {
    if ClosedSwitch(data, u, v) {
      var vl, sw :| vl in data.voltageLevels && sw in vl.switches && !sw.isOpen && Ends(sw.bus1, sw.bus2, u, v);
      x := Link(Switch, sw.id, sw.bus1, sw.bus2);
      assert SwitchIs(sw, x) && SwitchOf(vl, x);
      ConnectionsMembers(data, x);
    } else if BranchBetween(data.lines, u, v) {
      var l :| l in data.lines && BothConnected(l) && Ends(l.bus1, l.bus2, u, v);
      x := Link(Line, l.id, l.bus1, l.bus2);
      BranchIsConnection(data, Line, l);
    } else if BranchBetween(data.tfos, u, v) {
      var l :| l in data.tfos && BothConnected(l) && Ends(l.bus1, l.bus2, u, v);
      x := Link(Tfo, l.id, l.bus1, l.bus2);
      BranchIsConnection(data, Tfo, l);
    } else {
      var t :| t in data.threeWindings && AllConnected(t)
               && (Ends(t.bus1, t.bus2, u, v) || Ends(t.bus1, t.bus3, u, v) || Ends(t.bus2, t.bus3, u, v));
      x := Star(t.id, t.bus1, t.bus2, t.bus3);
      StarIsConnection(data, t);
    }
  }

  lemma LinesAreThere(data: NetworkData, u: Id, name: Id)
    ensures name in LinesAt(Connections(data), u) <==> LineAt(data, name, u)
  {
    LinesMembers(Connections(data), u, name);
    if name in LinesAt(Connections(data), u) {
      var x :| x in Connections(data) && LineOn(x, u, name);
      ConnectionsMembers(data, x);
      LineBehind(data, x, u, name);
    }
    if LineAt(data, name, u) {
      var l :| l in data.lines && BothConnected(l) && l.id == name && (l.bus1 == u || l.bus2 == u);
      BranchIsConnection(data, Line, l);
    }
  }

  lemma LineBehind(data: NetworkData, x: Connection, u: Id, name: Id)
    requires ConnectionOf(data, x) && LineOn(x, u, name)
    ensures LineAt(data, name, u)
  {
    var l :| l in data.lines && BranchIs(Line, l, x);
  }

  lemma BranchIsConnection(data: NetworkData, kind: LinkKind, l: BranchData)
    requires BothConnected(l) && ((kind == Line && l in data.lines) || (kind == Tfo && l in data.tfos))
    ensures Link(kind, l.id, l.bus1, l.bus2) in Connections(data)
  {
    assert BranchIs(kind, l, Link(kind, l.id, l.bus1, l.bus2));
    ConnectionsMembers(data, Link(kind, l.id, l.bus1, l.bus2));
  }

  lemma StarIsConnection(data: NetworkData, t: ThreeWindingData)
    requires AllConnected(t) && t in data.threeWindings
    ensures Star(t.id, t.bus1, t.bus2, t.bus3) in Connections(data)
  {
    assert StarIs(t, Star(t.id, t.bus1, t.bus2, t.bus3));
    ConnectionsMembers(data, Star(t.id, t.bus1, t.bus2, t.bus3));
  }

  lemma TfoBehind(data: NetworkData, x: Connection, u: Id, name: Id)
    requires ConnectionOf(data, x) && TfoOn(x, u, name)
    ensures TfoAt(data, name, u)
  {
    if x.Star? {
      var t :| t in data.threeWindings && StarIs(t, x);
    } else {
      var l :| l in data.tfos && BranchIs(Tfo, l, x);
    }
  }

  lemma TfosAreThere(data: NetworkData, u: Id, name: Id)
    ensures name in TfosAt(Connections(data), u) <==> TfoAt(data, name, u)
  {
    TfosMembers(Connections(data), u, name);
    if name in TfosAt(Connections(data), u) {
      var x :| x in Connections(data) && TfoOn(x, u, name);
      ConnectionsMembers(data, x);
      TfoBehind(data, x, u, name);
    }
    if TfoAt(data, name, u) {
      ThereAsTfo(data, name, u);
    }
  }

  lemma ThereAsTfo(data: NetworkData, name: Id, u: Id)
    requires TfoAt(data, name, u)
    ensures exists x :: x in Connections(data) && TfoOn(x, u, name)
  {
    if l :| l in data.tfos && BothConnected(l) && l.id == name && (l.bus1 == u || l.bus2 == u) {
      BranchIsConnection(data, Tfo, l);
      assert TfoOn(Link(Tfo, l.id, l.bus1, l.bus2), u, name);
    } else {
      var t :| t in data.threeWindings && AllConnected(t) && t.id == name
               && (t.bus1 == u || t.bus2 == u || t.bus3 == u);
      StarIsConnection(data, t);
      assert TfoOn(Star(t.id, t.bus1, t.bus2, t.bus3), u, name);
    }
  }

  // ---------------------------------------------------------------------------
  // Shunts, generators and converters

  ghost predicate ShuntAt(vl: VoltageLevelData, name: Id, u: Id) {
    exists x :: x in vl.shunts && x.id == name && x.bus == u
  }

  lemma {:induction false} ShuntsAtMembers(shunts: seq<ShuntData>, n: Id, s: Id)
    ensures s in ShuntsAt(shunts, n) <==> exists x :: x in shunts && x.id == s && x.bus == n
    decreases |shunts|
  {
    if shunts != [] {
      var k := |shunts| - 1;
      ShuntsAtMembers(shunts[..k], n, s);
      assert shunts == shunts[..k] + [shunts[k]];
    }
  }

  /** The power a generator is to deliver, with the sign of its limits: the file
      counts what it takes from the network. */
  function Setpoint(x: GeneratorData): real {
    -x.targetP
  }

  /** Within the limits, which may be missed by a rounding error. */
  predicate InRange(env: Services, x: GeneratorData) {
    && (x.pmin < Setpoint(x) || env.doubleEquals(Setpoint(x), x.pmin))
    && (Setpoint(x) < x.pmax || env.doubleEquals(Setpoint(x), x.pmax))
  }

  /** The generator of the network behind one of the input. */
  predicate IsGeneratorOf(env: Services, x: GeneratorData, g: Generator) {
    && g.id == x.id && g.connectedBusId == x.bus && g.regulatedBusId == env.regulatedBus(x.id)
    && g.points == x.points && g.qmin == x.qmin && g.qmax == x.qmax && g.pmin == x.pmin && g.pmax == x.pmax
    && g.targetP == x.targetP
  }

  /** A generator is in the network if it is connected, regulates the voltage, and
      its setpoint is in range. */
  predicate Keeps(env: Services, x: GeneratorData, g: Generator) {
    x.connected && x.voltageRegulationOn && InRange(env, x) && IsGeneratorOf(env, x, g)
  }

  ghost predicate KeptOf(env: Services, vl: VoltageLevelData, g: Generator) {
    exists x :: x in vl.generators && Keeps(env, x, g)
  }

  lemma {:induction false} KeptMembers(env: Services, gens: seq<GeneratorData>, g: Generator)
    ensures g in KeptGenerators(env, gens) <==> exists x :: x in gens && Keeps(env, x, g)
    decreases |gens|
  {
    if gens != [] {
      var n := |gens| - 1;
      KeptMembers(env, gens[..n], g);
      assert gens == gens[..n] + [gens[n]];
      assert g in Only(IsKept(env, gens[n]), [GeneratorOf(env, gens[n])]) <==> Keeps(env, gens[n], g);
    }
  }

  /** The generators of the network are those of the input that are kept. */
  lemma {:induction false} GeneratorsAreKept(env: Services, levels: seq<VoltageLevelData>, g: Generator)
    ensures g in AllGenerators(env, levels) <==> exists vl :: vl in levels && KeptOf(env, vl, g)
    decreases |levels|
  {
    if levels != [] {
      var n := |levels| - 1;
      GeneratorsAreKept(env, levels[..n], g);
      KeptMembers(env, levels[n].generators, g);
      assert levels == levels[..n] + [levels[n]] && levels[n] in levels;
      assert g in KeptGenerators(env, levels[n].generators) <==> KeptOf(env, levels[n], g);
    }
  }

  lemma {:induction false} GeneratorsAtBus(gens: seq<Generator>, u: Id, g: Generator)
    ensures g in GeneratorsAt(gens, u) <==> g in gens && g.connectedBusId == u
    decreases |gens|
  {
    if gens != [] {
      var n := |gens| - 1;
      GeneratorsAtBus(gens[..n], u, g);
      assert gens == gens[..n] + [gens[n]];
    }
  }

  /** Without rounding, a generator is kept exactly if its setpoint is within both
      limits, bounds included. */
  lemma KeptWithinLimits(env: Services, x: GeneratorData)
    requires forall a, b :: env.doubleEquals(a, b) <==> a == b
    ensures IsKept(env, x) <==> x.connected && x.voltageRegulationOn && x.pmin <= -x.targetP <= x.pmax
  {
  }

  predicate LineIs(d: HvdcData, l: HvdcLine) {
    d.connected1 && d.connected2 && d.line == l
  }

  ghost predicate ConverterAt(data: NetworkData, s: Station, u: Id) {
    && (exists d :: d in data.hvdcLines && LineIs(d, s.line))
    && (s.converter == s.line.converter1 || s.converter == s.line.converter2)
    && s.converter.busId == u
  }

  lemma {:induction false} ConnectedLinesMembers(lines: seq<HvdcData>, l: HvdcLine)
    ensures l in ConnectedHvdc(lines) <==> exists d :: d in lines && LineIs(d, l)
    decreases |lines|
  {
    if lines != [] {
      var n := |lines| - 1;
      ConnectedLinesMembers(lines[..n], l);
      assert lines == lines[..n] + [lines[n]] && lines[n] in lines;
      if l in ConnectedHvdc(lines) && l !in ConnectedHvdc(lines[..n]) {
        assert LineIs(lines[n], l);
      }
      if d :| d in lines && LineIs(d, l) {
        assert d in lines[..n] || d == lines[n];
      }
    }
  }

  lemma ConvertersAreThere(data: NetworkData, u: Id, s: Station)
    ensures s in StationsAt(StationsOf(ConnectedHvdc(data.hvdcLines)), u) <==> ConverterAt(data, s, u)
  {
    var lines := ConnectedHvdc(data.hvdcLines);
    HvdcLaws.StationsAtFilters(StationsOf(lines), u);
    HvdcLaws.StationsOfMembers(lines, s);
    ConnectedLinesMembers(data.hvdcLines, s.line);
  }

  // ---------------------------------------------------------------------------
  // Main result

  /** What a node has, in terms of the input. */
  ghost predicate NodeIs(env: Services, data: NetworkData, vl: VoltageLevelData, n: NodeRecord) {
    && n.voltageLevel == vl.id && n.nominalVoltage == vl.vNom
    && (forall v :: v in n.neighbours <==> Wired(data, n.id, v))
    && (forall name :: name in n.lines <==> LineAt(data, name, n.id))
    && (forall name :: name in n.tfos <==> TfoAt(data, name, n.id))
    && (forall name :: name in n.shunts <==> ShuntAt(vl, name, n.id))
    && (forall g :: g in n.generators <==> KeptOf(env, vl, g) && g.connectedBusId == n.id)
    && (forall s :: s in n.converters <==> ConverterAt(data, s, n.id))
  }

  /** A kept generator on a bus is one of the level of the bus. */
  lemma KeptOnItsLevel(env: Services, data: NetworkData, vl: VoltageLevelData, id: Id, g: Generator)
    requires WellFormed(data) && vl in data.voltageLevels && id in vl.buses
    ensures g in GeneratorsAt(AllGenerators(env, data.voltageLevels), id) <==> KeptOf(env, vl, g) && g.connectedBusId == id
  {
    GeneratorsAtBus(AllGenerators(env, data.voltageLevels), id, g);
    GeneratorsAreKept(env, data.voltageLevels, g);
    if g in AllGenerators(env, data.voltageLevels) && g.connectedBusId == id {
      var wl :| wl in data.voltageLevels && KeptOf(env, wl, g);
      var x :| x in wl.generators && Keeps(env, x, g);
      assert LevelWellFormed(wl) && x.bus in wl.buses;
      LevelsAreTold(data.voltageLevels, vl, wl);
    }
  }

  /** Every bus of a level has a node, with exactly what the input connects to it. */
  lemma NodesOfInput(env: Services, data: NetworkData, vl: VoltageLevelData, id: Id)
    requires WellFormed(data) && vl in data.voltageLevels && id in vl.buses
    ensures id in BuildNodes(env, data) && BuildNodes(env, data)[id].id == id
    ensures NodeIs(env, data, vl, BuildNodes(env, data)[id])
  {
    BuildDescribes(env, data);
    AllBusesMembers(data.voltageLevels, Bus(vl, id));
    forall v ensures v in NeighboursAt(Connections(data), id) <==> Wired(data, id, v) {
      NeighboursAreWired(data, id, v);
    }
    forall x ensures x in LinesAt(Connections(data), id) <==> LineAt(data, x, id)
             ensures x in TfosAt(Connections(data), id) <==> TfoAt(data, x, id)
             ensures x in ShuntsAt(vl.shunts, id) <==> ShuntAt(vl, x, id)
    {
      LinesAreThere(data, id, x);
      TfosAreThere(data, id, x);
      ShuntsAtMembers(vl.shunts, id, x);
    }
    forall g ensures g in GeneratorsAt(AllGenerators(env, data.voltageLevels), id)
                <==> KeptOf(env, vl, g) && g.connectedBusId == id
    {
      KeptOnItsLevel(env, data, vl, id, g);
    }
    forall s ensures s in StationsAt(StationsOf(ConnectedHvdc(data.hvdcLines)), id) <==> ConverterAt(data, s, id) {
      ConvertersAreThere(data, id, s);
    }
  }
}
