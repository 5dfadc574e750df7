/**
 End to end, from the input file to the two output files: where terminal 1 of every
 HVDC line is wired, when its model is proportional, and that shunts are numbered
 as they are counted.
 */
module NetworkFiles {
  import opened Wrappers
  import opened Reachability
  import opened Network
  import opened NetworkLaws
  import opened InputLaws
  import opened Hvdc
  import opened HvdcLaws
  import opened VscBuses
  import opened DynModels
  import opened DynModelLaws
  import opened CountSettings
  import opened Dyd
  import Par
  import opened ConnectorLaws
  import opened Shunts
  import opened ShuntCounts
  import opened ContextProcess
  import opened Pipeline

  // ---------------------------------------------------------------------------
  // HVDC lines

  lemma HandedLine(inp: Inputs, data: NetworkData, m: map<Id, Id>, d: Definition, h: HVDCDefinition) returns (l: HvdcLine)
    requires BuiltFrom(inp, data) && inp.Valid() && HandsOver(inp, m, d) && h in d.hvdcLines
    ensures l in ConnectedHvdc(data.hvdcLines) && h == Placed(inp.HvdcConfig(), l, PositionAmong(MainOf(inp), l))
    ensures h.id == l.id
    ensures l.converter1.busId in MainOf(inp) || l.converter2.busId in MainOf(inp)
  {
    var main, lines := MainOf(inp), ConnectedHvdc(data.hvdcLines);
    var stations := StationsOn(inp.Records(main));
    MainStationsOnBuses(inp, data, main);
    MetStations(inp.Records(main), lines);
    var id :| id in WalkedOn(inp, main).hvdcLines && WalkedOn(inp, main).hvdcLines[id] == h;
    OnlyLinesMet(inp.HvdcConfig(), stations, id);
    var s :| s in stations && s.line.id == id;
    l := s.line;
    HvdcLinesOfTheNetwork(inp, data, l);
  }

  lemma NotTerminal(b: Id)
    ensures b + "_U_value" != "hvdc_terminal1" && b + "_phi" != "hvdc_terminal1" && "vrremote_NQ" != "hvdc_terminal1"
  {
    var s, t := b + "_U_value", b + "_phi";
    assert s[|s| - 1] == 'e' && t[|t| - 1] == 'i';
    assert "hvdc_terminal1"[13] == '1' && "vrremote_NQ"[0] == 'v';
  }

  lemma OnlyLinesHaveTerminals(d: Definition, c: Connect)
    requires c in FileConnects(d) && c.var2 == "hvdc_terminal1"
    ensures c in FlatMap(WriteHvdcLineConnect, d.hvdcLines)
  {
    NotTerminal(d.slackNode);
    if c in FlatMap(WriteVRRemoteConnect, d.busesWithDynamicModel) {
      InFlatMap(WriteVRRemoteConnect, d.busesWithDynamicModel, c);
      var b :| b in d.busesWithDynamicModel && c in WriteVRRemoteConnect(b);
      NotTerminal(b);
    } else if c in FlatMap(WriteVRRemoteConnect, d.vscBuses) {
      InFlatMap(WriteVRRemoteConnect, d.vscBuses, c);
      var b :| b in d.vscBuses && c in WriteVRRemoteConnect(b);
      NotTerminal(b);
    } else if c in FlatMap(WriteGenConnect, d.generators) {
      InFlatMap(WriteGenConnect, d.generators, c);
      var g :| g in d.generators && c in WriteGenConnect(g);
      NotTerminal(g.regulatedBusId);
    }
  }

  /** The connection is that of a bus of the main component. */
  ghost predicate WiresMainBus(main: seq<Id>, c: Connect) {
    c.model1 == NETWORK && exists bus :: bus in main && c.var1 == bus + "_ACPIN"
  }

  lemma PlacedTerminal1(cfg: Config, main: seq<Id>, l: HvdcLine, c: Connect)
    requires l.converter1.busId in main || l.converter2.busId in main
    requires c in WriteHvdcLineConnect(Placed(cfg, l, PositionAmong(main, l))) && c.var2 == "hvdc_terminal1"
    ensures WiresMainBus(main, c)
  {
    assert "hvdc_terminal1"[13] == '1' && "hvdc_terminal2"[13] == '2' && "vrremote_NQ"[0] == 'v';
    var bus := if PositionAmong(main, l) == SECOND_IN_MAIN_COMPONENT then l.converter2.busId else l.converter1.busId;
    assert c == Connect(NETWORK, bus + "_ACPIN", l.id, "hvdc_terminal1");
  }

  /** In the DYD file of a network, every terminal 1 is wired to a bus of the main
      component. */
  lemma Terminal1sInMain(inp: Inputs, data: NetworkData, m: map<Id, Id>, d: Definition, c: Connect)
    requires BuiltFrom(inp, data) && inp.Valid() && HandsOver(inp, m, d)
    requires c in FileConnects(d) && c.var2 == "hvdc_terminal1"
    ensures WiresMainBus(MainOf(inp), c)
  {
    OnlyLinesHaveTerminals(d, c);
    InFlatMap(WriteHvdcLineConnect, d.hvdcLines, c);
    var h :| h in d.hvdcLines && c in WriteHvdcLineConnect(h);
    var l := HandedLine(inp, data, m, d, h);
    PlacedTerminal1(inp.HvdcConfig(), MainOf(inp), l, c);
  }

  /** In the DYD file of a network, a line has a proportional model exactly if it is a
      VSC line with a converter, in the main component, on a bus that at least two
      converters of VSC lines regulate. */
  lemma ProportionalLines(inp: Inputs, data: NetworkData, l: HvdcLine)
    requires BuiltFrom(inp, data) && inp.Valid() && l in ConnectedHvdc(data.hvdcLines)
    requires l.id in WalkedOn(inp, MainOf(inp)).hvdcLines
    ensures WalkedOn(inp, MainOf(inp)).hvdcLines[l.id].HasPQPropModel()
       <==> l.converterType == VSC
            && OnSharedBus(inp.env, ConnectedHvdc(data.hvdcLines), l, PositionAmong(MainOf(inp), l))
  {
    HvdcLinesOfTheNetwork(inp, data, l);
    ProportionalExactly(inp.HvdcConfig(), inp.env, ConnectedHvdc(data.hvdcLines), l, PositionAmong(MainOf(inp), l));
  }

  // ---------------------------------------------------------------------------
  // Shunts of a level

  function ShuntIds(shunts: seq<ShuntData>): seq<Id> {
    seq(|shunts|, i requires 0 <= i < |shunts| => shunts[i].id)
  }

  /** Within a voltage level, shunts have ids of their own. */
  ghost predicate UniqueShunts(levels: seq<VoltageLevelData>) {
    forall vl <- levels :: NoDuplicates(ShuntIds(vl.shunts))
  }

  lemma {:induction false} ShuntsAtDistinct(shunts: seq<ShuntData>, n: Id)
    requires NoDuplicates(ShuntIds(shunts))
    ensures NoDuplicates(ShuntsAt(shunts, n))
    decreases |shunts|
  {
    if shunts != [] {
      var k := |shunts| - 1;
      assert forall i :: 0 <= i < k ==> ShuntIds(shunts[..k])[i] == ShuntIds(shunts)[i];
      ShuntsAtDistinct(shunts[..k], n);
      ShuntsAtMembers(shunts[..k], n, shunts[k].id);
      forall x <- shunts[..k] ensures x.id != shunts[k].id {
        var i :| 0 <= i < k && shunts[i] == x;
        assert ShuntIds(shunts)[i] != ShuntIds(shunts)[k];
      }
      NoDuplicatesJoin(ShuntsAt(shunts[..k], n), Only(shunts[k].bus == n, [shunts[k].id]));
    }
  }

  lemma ShuntsOfTwoBuses(shunts: seq<ShuntData>, m: Id, n: Id, s: Id)
    requires NoDuplicates(ShuntIds(shunts)) && s in ShuntsAt(shunts, m) && s in ShuntsAt(shunts, n)
    ensures m == n
  {
    ShuntsAtMembers(shunts, m, s);
    ShuntsAtMembers(shunts, n, s);
    var x :| x in shunts && x.id == s && x.bus == m;
    var y :| y in shunts && y.id == s && y.bus == n;
    var i, j :| 0 <= i < |shunts| && shunts[i] == x && 0 <= j < |shunts| && shunts[j] == y;
    assert ShuntIds(shunts)[i] == ShuntIds(shunts)[j];
  }

  /** The level of a node of a built network, and its shunts. */
  lemma ShuntsOfNode(inp: Inputs, data: NetworkData, id: Id) returns (vl: VoltageLevelData)
    requires BuiltFrom(inp, data) && id in inp.nodes
    ensures vl in data.voltageLevels && inp.nodes[id].voltageLevel == vl.id
    ensures inp.nodes[id].shunts == ShuntsAt(vl.shunts, id)
  {
    var b := BusOfNode(inp.env, data, id);
    vl := b.level;
    AllBusesMembers(data.voltageLevels, b);
  }

  /** A shunt of a level is on one node only. */
  lemma ShuntOnOneNode(inp: Inputs, data: NetworkData, u: Id, v: Id, s: Id)
    requires BuiltFrom(inp, data) && UniqueShunts(data.voltageLevels) && u in inp.nodes && v in inp.nodes
    requires inp.nodes[u].voltageLevel == inp.nodes[v].voltageLevel && s in inp.nodes[u].shunts && s in inp.nodes[v].shunts
    ensures u == v
  {
    var vl := ShuntsOfNode(inp, data, u);
    var wl := ShuntsOfNode(inp, data, v);
    LevelsAreTold(data.voltageLevels, vl, wl);
    ShuntsOfTwoBuses(vl.shunts, u, v, s);
  }

  /** Walking the nodes of a built network, each shunt of a level is met once. */
  lemma {:induction false} LevelShuntsDistinct(inp: Inputs, data: NetworkData, ids: seq<Id>, level: Id)
    requires BuiltFrom(inp, data) && UniqueShunts(data.voltageLevels)
    requires NoDuplicates(ids) && forall id <- ids :: id in inp.nodes
    ensures NoDuplicates(LevelShunts(inp.Records(ids), level))
    decreases |ids|
  {
    if ids != [] {
      var k := |ids| - 1;
      var before, id := inp.Records(ids[..k]), ids[k];
      assert inp.Records(ids)[..k] == before && id in ids;
      LevelShuntsDistinct(inp, data, ids[..k], level);
      NodeShuntsDistinct(inp, data, id);
      var more := Only(inp.nodes[id].voltageLevel == level, inp.nodes[id].shunts);
      forall s <- more ensures s !in LevelShunts(before, level) {
        NewShunt(inp, data, ids[..k], id, s);
      }
      NoDuplicatesJoin(LevelShunts(before, level), more);
    }
  }

  lemma NodeShuntsDistinct(inp: Inputs, data: NetworkData, id: Id)
    requires BuiltFrom(inp, data) && UniqueShunts(data.voltageLevels) && id in inp.nodes
    ensures NoDuplicates(inp.nodes[id].shunts)
  {
    var vl := ShuntsOfNode(inp, data, id);
    ShuntsAtDistinct(vl.shunts, id);
  }

  lemma NewShunt(inp: Inputs, data: NetworkData, ids: seq<Id>, id: Id, s: Id)
    requires BuiltFrom(inp, data) && UniqueShunts(data.voltageLevels)
    requires (forall u <- ids :: u in inp.nodes) && id in inp.nodes && id !in ids && s in inp.nodes[id].shunts
    ensures s !in LevelShunts(inp.Records(ids), inp.nodes[id].voltageLevel)
  {
    var records := inp.Records(ids);
    LevelShuntsMembers(records, inp.nodes[id].voltageLevel, s);
    forall n <- records | n.voltageLevel == inp.nodes[id].voltageLevel ensures s !in n.shunts {
      var i :| 0 <= i < |ids| && records[i] == n;
      assert ids[i] in ids;
      if s in n.shunts {
        ShuntOnOneNode(inp, data, ids[i], id, s);
      }
    }
  }

  // ---------------------------------------------------------------------------
  // Indexes and counts in the files

  /** A macro connect of the file numbers a connection of the model with i. */
  ghost predicate FileHasIndex(connects: seq<MacroConnectOut>, model: Id, macro: Id, i: nat) {
    exists c :: c in connects && c.model1 == model && c.connector == macro && c.index1 == Some(i)
  }

  /** A set of the file holds the parameter. */
  ghost predicate FileHasCount(f: Par.File, id: Id, p: Parameter) {
    exists s :: s in f.sets && s.id == id && p in s.counts
  }

  lemma FileIndexes(d: Definition, m: DynamicModelDefinition, macro: Id, i: nat)
    requires m in d.dynamicModels && forall x <- d.dynamicModels :: x.id == m.id ==> x == m
    ensures FileHasIndex(FileMacroConnects(d), m.id, macro, i) <==> HasIndex(m, macro, i)
  {
    if HasIndex(m, macro, i) {
      var k: nat :| k < |m.nodeConnections| && MacroConnectAt(m, k).connector == macro && MacroConnectAt(m, k).index1 == Some(i);
      ModelConnectInFile(d, m, k);
    }
    if FileHasIndex(FileMacroConnects(d), m.id, macro, i) {
      var c :| c in FileMacroConnects(d) && c.model1 == m.id && c.connector == macro && c.index1 == Some(i);
      FileMacroConnectsMembers(d, c);
      var x :| x in d.dynamicModels && c in MacroConnectsOf(x);
      var k: nat :| k < |x.nodeConnections| && MacroConnectAt(x, k) == c;
    }
  }

  lemma {:induction false} ParameterIsHeld(multiples: seq<MultipleAssociation>, nbShunts: map<Id, nat>, counts: seq<Count>,
                                           c: Count)
    requires c in counts
    ensures forall p <- ParameterOf(multiples, nbShunts, c) :: p in ParametersOf(multiples, nbShunts, counts)
    decreases |counts|
  {
    var n := |counts| - 1;
    if counts[n] != c {
      ParameterIsHeld(multiples, nbShunts, counts[..n], c);
    }
  }

  lemma {:induction false} SettingIsHeld(d: Definition, f: Par.File, settings: seq<Setting>, s: Setting)
    requires s in settings && Par.HasModel(d.dynamicModels, s.id)
    ensures Par.SetOfSetting(d, s) in Par.WithSettings(d, f, settings).sets
    decreases |settings|
  {
    var n := |settings| - 1;
    if settings[n] != s {
      SettingIsHeld(d, f, settings[..n], s);
    }
  }

  lemma FileCounts(d: Definition, s: Setting, c: Count, p: Parameter)
    requires s in d.settings && Par.HasModel(d.dynamicModels, s.id) && c in s.counts
    requires p in ParameterOf(d.doc.multipleAssociations, d.nbShunts, c)
    ensures FileHasCount(Par.Written(d), s.id, p)
  {
    var f1 := Par.WithGenerators(d, Par.LOADS_ONLY, d.generators);
    var f2 := Par.WithHvdcLines(Par.WithSVarCs(f1, d.svarcs), d.hvdcLines);
    var f3 := Par.WithVRRemotes(Par.WithVRRemotes(f2, d.busesWithDynamicModel), d.vscBuses);
    SettingIsHeld(d, f3, d.settings, s);
    ParameterIsHeld(d.doc.multipleAssociations, d.nbShunts, s.counts, c);
  }

  /** What the context hands to the writers of its dynamic models. */
  ghost predicate HandsOverModels(inp: Inputs, models: DynModels.Models, used: set<Id>, nbShunts: map<Id, nat>,
                                  d: Definition)
  {
    && ModelsProcessed(inp, models, used, nbShunts)
    && (forall m :: m in d.dynamicModels <==> exists id :: id in models && models[id] == m)
    && NoDuplicates(AutomatonIds(d.dynamicModels))
    && Elements(d.usedMacroConnections) == used && d.nbShunts == nbShunts && d.doc == inp.doc
  }

  lemma HandedModel(inp: Inputs, models: DynModels.Models, used: set<Id>, nbShunts: map<Id, nat>, d: Definition,
                    m: DynamicModelDefinition)
    requires HandsOverModels(inp, models, used, nbShunts, d) && m in d.dynamicModels
    ensures m.id in models && models[m.id] == m
    ensures var walked := WalkedModels(inp.doc, inp.libraryExists, inp.Records(inp.order), inp.levelNodes);
            m.id in walked && walked[m.id] == m
  {
    var id :| id in models && models[id] == m;
    ModelHeader(inp.doc, inp.libraryExists, inp.Records(inp.order), inp.levelNodes, id);
  }

  /** Every connection of a model handed over goes through a tagged macro. */
  lemma HandedModelsUseTagged(inp: Inputs, models: DynModels.Models, used: set<Id>, nbShunts: map<Id, nat>, d: Definition)
    requires HandsOverModels(inp, models, used, nbShunts, d)
    ensures UsesTagged(d)
  {
    forall m, c | m in d.dynamicModels && c in m.nodeConnections ensures c.id in d.usedMacroConnections {
      HandedModel(inp, models, used, nbShunts, d, m);
      ConnectionsUseTaggedMacros(inp.doc, inp.libraryExists, inp.Records(inp.order), inp.levelNodes, m.id, c);
      assert c.id in Elements(d.usedMacroConnections);
    }
  }

  /** A count of the settings of a model, for the association through which its
      automaton asks for shunts. */
  ghost predicate CountsAssociation(inp: Inputs, d: Definition, m: DynamicModelDefinition, macro: Id, level: Id, s: Setting,
                                    c: Count)
  {
    && m in d.dynamicModels && s in d.settings && s.id == m.id && c in s.counts
    && AsksForShunts(inp.doc, inp.libraryExists, m.id, macro, level)
    && FindMultiple(inp.doc.multipleAssociations, c.id) == Some(MultipleAssociation(c.id, level))
    && EndsAgree(inp.doc.multipleAssociations, c.id)
  }

  /** The DYD file numbers the connections of the model from 0 to n - 1, and the PAR
      file holds the count n, if the level is in the network. */
  ghost predicate NumberedAsCounted(connects: seq<MacroConnectOut>, f: Par.File, nbShunts: map<Id, nat>,
                                    m: DynamicModelDefinition, macro: Id, level: Id, c: Count)
  {
    var n := NbShunts(nbShunts, level);
    && (forall i: nat :: FileHasIndex(connects, m.id, macro, i) <==> i < n)
    && (level in nbShunts ==> FileHasCount(f, m.id, Parameter(c.name, n)))
  }

  /** End to end: in the files of a network, shunts are numbered as counted. */
  lemma ShuntsNumberedAsCounted(inp: Inputs, data: NetworkData, models: DynModels.Models, used: set<Id>,
                                d: Definition, m: DynamicModelDefinition, macro: Id, level: Id, s: Setting, c: Count)
    requires BuiltFrom(inp, data) && inp.Valid() && UniqueShunts(data.voltageLevels)
    requires HandsOverModels(inp, models, used, d.nbShunts, d) && CountsAssociation(inp, d, m, macro, level, s, c)
    ensures NumberedAsCounted(FileMacroConnects(d), Par.Written(d), d.nbShunts, m, macro, level, c)
  {
    var nodes := inp.Records(inp.order);
    OrderIsKnown(inp);
    LevelShuntsDistinct(inp, data, inp.order, level);
    HandedModel(inp, models, used, d.nbShunts, d, m);
    IndexesMatchCounts(inp.doc, inp.libraryExists, nodes, inp.levelNodes, d.nbShunts, m.id, macro, level, c);
    var n := NbShunts(d.nbShunts, level);
    assert IndexesAre(m, macro, n);
    forall x <- d.dynamicModels ensures x.id == m.id ==> x == m {
      HandedModel(inp, models, used, d.nbShunts, d, x);
    }
    forall i: nat ensures FileHasIndex(FileMacroConnects(d), m.id, macro, i) <==> i < n {
      FileIndexes(d, m, macro, i);
    }
    if level in d.nbShunts {
      FileCounts(d, s, c, Parameter(c.name, n));
    }
  }
}
