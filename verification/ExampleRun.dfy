/**
 The run on the example: process succeeds; both files repeat the ids of bus B; the
 shunt of the second automaton is numbered but not counted, and its connector is
 missing; the first automaton, connected to all it asks for, is dropped.
 */
module ExampleRun {
  import opened Wrappers
  import opened Reachability
  import opened Network
  import opened Generators
  import opened Hvdc
  import opened HvdcLaws
  import opened HvdcOutputLaws
  import opened VscBuses
  import opened MacroConnections
  import opened DynModels
  import opened DynModelLaws
  import opened CountSettings
  import opened Dyd
  import Par
  import opened ConnectorLaws
  import opened Shunts
  import opened ShuntCounts
  import opened UniqueIds
  import opened ContextProcess
  import opened Pipeline
  import opened NetworkFiles
  import opened Export
  import opened ExampleNetwork

  // ---------------------------------------------------------------------------
  // The main component

  lemma BothConnected(g: Graph)
    requires g.Keys == {"B", "C"} && g["B"] == ["C", "C"] && g["C"] == ["B", "B"]
    ensures forall u <- g, v <- g :: v in Component(g, u)
  {
    assert "C" in g["B"] && "B" in g["C"];
    ReachesItself(g, g.Keys, "B");
    ReachesItself(g, g.Keys, "C");
    ReachesByEdge(g, g.Keys, "B", "C", "C");
    ReachesByEdge(g, g.Keys, "C", "B", "B");
  }

  lemma BothInMain(inp: Inputs)
    requires IsExample(inp)
    ensures "B" in MainOf(inp) && "C" in MainOf(inp)
  {
    ExampleGraph(inp);
    MainIsComponent(inp);
    BothInComponent(GraphOf(inp.nodes), MainOf(inp));
  }

  lemma ExampleGraph(inp: Inputs)
    requires IsExample(inp)
    ensures var g := GraphOf(inp.nodes);
            g.Keys == {"B", "C"} && g["B"] == ["C", "C"] && g["C"] == ["B", "B"]
  {
  }

  lemma MainIsComponent(inp: Inputs)
    requires inp.Valid()
    ensures exists u :: u in GraphOf(inp.nodes) && Elements(MainOf(inp)) == Component(GraphOf(inp.nodes), u)
  {
    MainOfIsLargest(inp);
  }

  lemma BothInComponent(g: Graph, main: seq<Id>)
    requires g.Keys == {"B", "C"} && g["B"] == ["C", "C"] && g["C"] == ["B", "B"]
    requires exists u :: u in g && Elements(main) == Component(g, u)
    ensures "B" in main && "C" in main
  {
    BothConnected(g);
    var u :| u in g && Elements(main) == Component(g, u);
    assert "B" in Component(g, u) && "C" in Component(g, u);
    assert "B" in Elements(main) && "C" in Elements(main);
  }

  // ---------------------------------------------------------------------------
  // Bus B is in both maps

  ghost predicate IsFirst(d: GeneratorDefinition) {
    d.model == PROP_SIGNALN && d.regulatedBusId == "B" && d.targetP == 0.0
  }

  lemma FirstDefinition(ctx: Generators.Context, n: NodeRecord)
    requires NodeB(n) && Usable(ctx, n) && ctx.infiniteReactiveLimits
    requires "B" in ctx.busMap && ctx.busMap["B"] == MULTIPLES
    ensures IsEmitted(ctx, n, n.generators[0]) && IsFirst(Generators.DefinitionOf(ctx, n, n.generators[0]))
  {
  }

  lemma RecordInMain(inp: Inputs, ids: seq<Id>, id: Id)
    requires Known(inp, ids) && id in ids
    ensures inp.nodes[id] in inp.Records(ids)
  {
    var i :| 0 <= i < |ids| && ids[i] == id;
    assert inp.Records(ids)[i] == inp.nodes[id];
  }

  /** The first generator is emitted with a proportional model. */
  lemma FirstIsEmitted(inp: Inputs)
    requires IsExample(inp)
    ensures exists d :: d in EmittedOn(inp, MainOf(inp)) && IsFirst(d)
  {
    var main, ctx, n := MainOf(inp), inp.GeneratorContext(), inp.nodes["B"];
    BothInMain(inp);
    RecordsAreValid(inp, main);
    RecordInMain(inp, main, "B");
    FirstDefinition(ctx, n);
    EmittedHolds(ctx, inp.Records(main), n, 0);
  }

  lemma TwoConvertersRegulateB()
    ensures Regulating(ExampleServices(), [TheLine()], "B") == 2
  {
    assert [TheLine()][..0] == [];
    assert VscRegulatedBuses(ExampleServices(), [TheLine()]) == ["B", "B"];
  }

  lemma LineIsProportional(cfg: Config, position: Position)
    requires CountsLines(cfg, ExampleServices(), [TheLine()]) && position != SECOND_IN_MAIN_COMPONENT
    ensures ConnectsNQ(Placed(cfg, TheLine(), position), "B")
  {
    TwoConvertersRegulateB();
    MultipleMeansTwo(cfg, ExampleServices(), [TheLine()], "B");
    NQBusesAreShared(cfg, TheLine(), position);
    var pairs := ComputeModel(cfg, TheLine(), position).vscBusIdsMultipleRegulated;
    assert pairs[0] == VSCBusPair("B", "3") && pairs[0] in pairs;
    NQConnections(Placed(cfg, TheLine(), position), "B");
  }

  lemma LineRegulatesB(inp: Inputs)
    requires IsExample(inp) && BuiltFrom(inp, ExampleData())
    ensures "B" in WalkedOn(inp, MainOf(inp)).vscBuses
  {
    var main, lines := MainOf(inp), ConnectedHvdc(ExampleData().hvdcLines);
    ExampleNetwork.ExampleIsWellFormed();
    BothInMain(inp);
    MainStationsOnBuses(inp, ExampleData(), main);
    assert TheLine() in lines;
    HvdcLinesOfTheNetwork(inp, ExampleData(), TheLine());
    LineIsProportional(inp.HvdcConfig(), PositionAmong(main, TheLine()));
    VscBusesAreConnected(inp.HvdcConfig(), inp.Records(main), lines, "B");
    assert SomeLineConnects(inp.HvdcConfig(), inp.Records(main), lines, "B");
  }

  /** In whatever is handed over to the writers, bus B is in both maps. */
  lemma BInBothMaps(inp: Inputs, m: map<Id, Id>, d: Definition)
    requires IsExample(inp) && BuiltFrom(inp, ExampleData()) && HandsOver(inp, m, d)
    ensures "B" in d.busesWithDynamicModel && "B" in d.vscBuses
  {
    FirstIsEmitted(inp);
    LineRegulatesB(inp);
    var g :| g in d.generators && IsFirst(g);
    assert "B" in m && "B" in Elements(d.busesWithDynamicModel) && "B" in Elements(d.vscBuses);
  }

  // ---------------------------------------------------------------------------
  // The direct scan

  lemma ExampleRecords(inp: Inputs)
    requires IsExample(inp)
    ensures inp.Records(inp.order) == [inp.nodes["B"], inp.nodes["C"]]
  {
  }

  lemma Resolutions()
    ensures var doc := ExampleDocument();
            && Resolve(doc, MacroConnect("M", "a")) == Some(NamedLine("1L"))
            && Resolve(doc, MacroConnect("M1", "b")) == Some(NamedLine("L"))
            && Resolve(doc, MacroConnect("N", "c")) == Some(ShuntLevel("W"))
  {
    var singles, multiples := ExampleDocument().singleAssociations, ExampleDocument().multipleAssociations;
    assert singles[..1] == [singles[0]] && singles[..1][..0] == [];
    assert "a"[0] == 'a' && "b"[0] == 'b' && "c"[0] == 'c';
    assert FindSingle(singles[..1], "a") == Some(singles[0]) && FindSingle(singles[..1], "c") == None;
    assert FindMultiple(multiples, "c") == Some(multiples[1]);
  }

  /** What the automatons of the example ask for. */
  lemma Requests(id: Id, macro: Id, t: Target)
    ensures Requested(ExampleDocument(), AnyLibrary, Ref(id, macro), t)
       <==> || (id == "A" && macro == "M" && t == NamedLine("1L"))
            || (id == "A" && macro == "M1" && t == NamedLine("L"))
            || (id == "D" && macro == "N" && t == ShuntLevel("W"))
  {
    var doc := ExampleDocument();
    Resolutions();
    if Requested(doc, AnyLibrary, Ref(id, macro), t) {
      var a, m :| RequestedBy(doc, AnyLibrary, Ref(id, macro), t, a, m);
    }
    assert doc.dynamicAutomatons[0] == Colliding() && doc.dynamicAutomatons[1] == Counting();
    assert Colliding().macroConnects[0] == MacroConnect("M", "a") && Colliding().macroConnects[1] == MacroConnect("M1", "b");
    assert Counting().macroConnects[0] == MacroConnect("N", "c");
    if id == "A" && macro == "M" && t == NamedLine("1L") {
      assert RequestedBy(doc, AnyLibrary, Ref(id, macro), t, Colliding(), MacroConnect("M", "a"));
    }
    if id == "A" && macro == "M1" && t == NamedLine("L") {
      assert RequestedBy(doc, AnyLibrary, Ref(id, macro), t, Colliding(), MacroConnect("M1", "b"));
    }
    if id == "D" && macro == "N" && t == ShuntLevel("W") {
      assert RequestedBy(doc, AnyLibrary, Ref(id, macro), t, Counting(), MacroConnect("N", "c"));
    }
  }

  // ---------------------------------------------------------------------------
  // The first automaton is dropped

  function ThroughM(): MacroConnection {
    MacroConnection("M", LINE, "1L")
  }

  function ThroughM1(): MacroConnection {
    MacroConnection("M1", LINE, "L")
  }

  lemma SameKey()
    ensures Key(ThroughM()) == Key(ThroughM1()) && ThroughM() != ThroughM1()
  {
    assert Key(ThroughM()) == "M11L" == Key(ThroughM1());
    assert |"M"| != |"M1"|;
  }

  ghost predicate WantedInExample(inp: Inputs, id: Id, c: MacroConnection) {
    Wanted(inp.doc, inp.libraryExists, inp.Records(inp.order), inp.levelNodes, id, c)
  }

  /** The direct scan gives the first automaton both connections, and no other. */
  lemma ScanOfColliding(inp: Inputs, c: MacroConnection)
    requires IsExample(inp)
    ensures WantedInExample(inp, "A", c) <==> c == ThroughM() || c == ThroughM1()
  {
    var nodes := inp.Records(inp.order);
    ExampleRecords(inp);
    Requests("A", "M", NamedLine("1L"));
    Requests("A", "M1", NamedLine("L"));
    assert nodes[0] == inp.nodes["B"] && inp.nodes["B"].lines[0] == "1L" && inp.nodes["B"].lines[1] == "L";
    assert OfferedBy(nodes[0], inp.levelNodes, NamedLine("1L"), LINE, "1L");
    assert OfferedBy(nodes[0], inp.levelNodes, NamedLine("L"), LINE, "L");
    assert Offered(nodes, inp.levelNodes, NamedLine("1L"), LINE, "1L");
    assert Offered(nodes, inp.levelNodes, NamedLine("L"), LINE, "L");
    if WantedInExample(inp, "A", c) {
      var t :| Requested(inp.doc, inp.libraryExists, Ref("A", c.id), t)
               && Offered(nodes, inp.levelNodes, t, c.elementType, c.connectedElementId);
      Requests("A", c.id, t);
    }
  }

  lemma BothWanted(inp: Inputs)
    requires IsExample(inp)
    ensures WantedThrough(inp, "A", "M") && WantedThrough(inp, "A", "M1")
  {
    ScanOfColliding(inp, ThroughM());
    ScanOfColliding(inp, ThroughM1());
    WantedIsThrough(inp, ThroughM());
    WantedIsThrough(inp, ThroughM1());
  }

  lemma CollidingIsWalked(inp: Inputs)
    requires WantedThrough(inp, "A", "M")
    ensures "A" in ModelsOf(inp)
  {
    WalkedIfWanted(inp, "A");
  }

  lemma WantedIsThrough(inp: Inputs, c: MacroConnection)
    requires WantedInExample(inp, "A", c)
    ensures WantedThrough(inp, "A", c.id)
  {
  }

  lemma AutomatonsOfExample(inp: Inputs)
    requires IsExample(inp)
    ensures Colliding() in inp.doc.dynamicAutomatons && Counting() in inp.doc.dynamicAutomatons
    ensures Colliding().id == "A" && Counting().id == "D"
  {
    assert inp.doc.dynamicAutomatons[0] == Colliding() && inp.doc.dynamicAutomatons[1] == Counting();
  }

  /** So both its macro connections have a connection, but the model is not left. */
  lemma CollidingIsDropped(inp: Inputs, models: DynModels.Models, used: set<Id>, nbShunts: map<Id, nat>)
    requires IsExample(inp) && ModelsProcessed(inp, models, used, nbShunts)
    ensures WantedThrough(inp, "A", "M") && WantedThrough(inp, "A", "M1") && "A" !in models
  {
    BothWanted(inp);
    CollidingIsWalked(inp);
    LosesOne(inp);
    AutomatonsOfExample(inp);
    DroppedUnlessFull(inp, models, used, nbShunts, Colliding());
  }

  lemma DroppedUnlessFull(inp: Inputs, models: DynModels.Models, used: set<Id>, nbShunts: map<Id, nat>,
                          a: DynamicAutomaton)
    requires ModelsProcessed(inp, models, used, nbShunts) && a in inp.doc.dynamicAutomatons && a.id in ModelsOf(inp)
    requires !FullyConnected(a, ModelsOf(inp)[a.id].nodeConnections)
    ensures a.id !in models
  {
  }

  lemma LosesOne(inp: Inputs)
    requires IsExample(inp) && "A" in ModelsOf(inp)
    ensures !FullyConnected(Colliding(), ModelsOf(inp)["A"].nodeConnections)
  {
    var conns := ModelsOf(inp)["A"].nodeConnections;
    WalkIsDirectScan(inp.doc, inp.libraryExists, inp.Records(inp.order), inp.levelNodes, "A");
    if FullyConnected(Colliding(), conns) {
      assert Colliding().macroConnects[0].macroConnection == "M" && Colliding().macroConnects[1].macroConnection == "M1";
      assert Colliding().macroConnects[0] in Colliding().macroConnects;
      assert Colliding().macroConnects[1] in Colliding().macroConnects;
      var c :| c in conns && c.id == "M";
      var d :| d in conns && d.id == "M1";
      OnlyThrough(inp, c);
      OnlyThrough(inp, d);
      SameKey();
      OneOfKey(conns, c, d);
    }
  }

  lemma OnlyThrough(inp: Inputs, c: MacroConnection)
    requires IsExample(inp) && WantedInExample(inp, "A", c)
    ensures (c.id == "M" ==> c == ThroughM()) && (c.id == "M1" ==> c == ThroughM1())
  {
    ScanOfColliding(inp, c);
    assert |"M"| != |"M1"|;
  }

  lemma OneOfKey(conns: seq<MacroConnection>, c: MacroConnection, d: MacroConnection)
    requires Ordered(conns) && c in conns && d in conns && c != d
    ensures Key(c) != Key(d)
  {
    if Key(c) == Key(d) {
      SameKeySame(conns, c, d);
    }
  }

  // ---------------------------------------------------------------------------
  // The shunt of the second automaton

  lemma CountingAsks()
    ensures AsksForShunts(ExampleDocument(), AnyLibrary, "D", "N", "W")
  {
    forall t ensures Requested(ExampleDocument(), AnyLibrary, Ref("D", "N"), t) <==> t == ShuntLevel("W") {
      Requests("D", "N", t);
    }
    assert forall macro <- MacroIdsOf(ExampleDocument(), "D") :: macro == "N";
  }

  lemma {:induction false} TwoNodeShunts(nodes: seq<NodeRecord>)
    requires |nodes| == 2 && NodeB(nodes[0]) && NodeC(nodes[1])
    ensures LevelShunts(nodes, "W") == ["S"] && LevelShunts(nodes, "V") == []
  {
    assert nodes[..1] == [nodes[0]] && nodes[..1][..0] == [];
    assert "V"[0] == 'V' && "W"[0] == 'W';
    assert LevelShunts(nodes[..1], "W") == [] && LevelShunts(nodes[..1], "V") == [];
  }

  lemma ShuntsOfExample(inp: Inputs, nbShunts: map<Id, nat>)
    requires IsExample(inp) && Counts(nbShunts, inp.Records(inp.order))
    ensures NoDuplicates(LevelShunts(inp.Records(inp.order), "W")) && NbShunts(nbShunts, "W") == 1
    ensures "V" in nbShunts && nbShunts["V"] == 0
  {
    var nodes := inp.Records(inp.order);
    ExampleRecords(inp);
    TwoNodeShunts(nodes);
    assert nodes[0] in nodes;
  }

  lemma WrittenCount(nbShunts: map<Id, nat>)
    requires "V" in nbShunts && nbShunts["V"] == 0
    ensures ParameterOf(ExampleDocument().multipleAssociations, nbShunts, Count("n", "c")) == [Parameter("n", 0)]
  {
    var multiples := ExampleDocument().multipleAssociations;
    assert multiples[..1] == [multiples[0]] && multiples[..1][..0] == [];
    assert FirstMultiple(multiples[..1], "c") == Some(multiples[0]);
  }

  lemma CountingIsWalked(inp: Inputs, nbShunts: map<Id, nat>)
    requires IsExample(inp) && Counts(nbShunts, inp.Records(inp.order))
    ensures "D" in ModelsOf(inp) && IndexesAre(ModelsOf(inp)["D"], "N", 1)
  {
    var nodes := inp.Records(inp.order);
    ExampleRecords(inp);
    CountingAsks();
    ShuntsOfExample(inp, nbShunts);
    assert nodes[1] in nodes && nodes[1].shunts[0] == "S";
    ShuntIsConnected(inp.doc, inp.libraryExists, nodes, inp.levelNodes, "D", "N", "W", nodes[1], "S");
    IndexesFollowShunts(inp.doc, inp.libraryExists, nodes, inp.levelNodes, nbShunts, "D", "N", "W");
  }

  lemma NumberedIsThrough(m: DynamicModelDefinition, macro: Id)
    requires IndexesAre(m, macro, 1)
    ensures HasThrough(m.nodeConnections, macro)
  {
    assert HasIndex(m, macro, 0);
    var k: nat :| k < |m.nodeConnections| && MacroConnectAt(m, k).connector == macro;
    assert m.nodeConnections[k] in m.nodeConnections;
  }

  lemma KeptIfFull(inp: Inputs, models: DynModels.Models, used: set<Id>, nbShunts: map<Id, nat>, id: Id)
    requires ModelsProcessed(inp, models, used, nbShunts) && id in ModelsOf(inp)
    requires forall a <- inp.doc.dynamicAutomatons :: a.id == id ==> FullyConnected(a, ModelsOf(inp)[id].nodeConnections)
    ensures id in models && models[id] == ModelsOf(inp)[id]
  {
  }

  lemma CountingIsFull(conns: seq<MacroConnection>)
    requires HasThrough(conns, "N")
    ensures forall a <- ExampleDocument().dynamicAutomatons :: a.id == "D" ==> FullyConnected(a, conns)
  {
    assert Counting().macroConnects[0].macroConnection == "N";
    assert Colliding().id == "A" && "A"[0] == 'A' && "D"[0] == 'D';
  }

  /** The model is left, with its connection numbered zero; its count is zero too. */
  lemma CountingIsLeft(inp: Inputs, models: DynModels.Models, used: set<Id>, nbShunts: map<Id, nat>)
    requires IsExample(inp) && ModelsProcessed(inp, models, used, nbShunts)
    ensures "D" in models && models["D"].id == "D" && IndexesAre(models["D"], "N", 1)
    ensures ParameterOf(inp.doc.multipleAssociations, nbShunts, Count("n", "c")) == [Parameter("n", 0)]
  {
    CountingIsWalked(inp, nbShunts);
    NumberedIsThrough(ModelsOf(inp)["D"], "N");
    CountingIsFull(ModelsOf(inp)["D"].nodeConnections);
    KeptIfFull(inp, models, used, nbShunts, "D");
    ModelHeader(inp.doc, inp.libraryExists, inp.Records(inp.order), inp.levelNodes, "D");
    ShuntsOfExample(inp, nbShunts);
    WrittenCount(nbShunts);
  }

  function CountOfExample(): Setting {
    Setting("D", [Count("n", "c")])
  }

  /** In the files one shunt is numbered and none counted, and a connector is missing. */
  ghost predicate Disagree(connects: seq<MacroConnectOut>, connectors: seq<MacroConnector>, f: Par.File) {
    && FileHasIndex(connects, "D", "N", 0) && FileHasCount(f, "D", Parameter("n", 0))
    && exists c :: c in connects && !HasConnector(connectors, c.connector)
  }

  lemma CountingInFiles(d: Definition, m: DynamicModelDefinition)
    requires m in d.dynamicModels && m.id == "D" && d.doc == ExampleDocument() && CountOfExample() in d.settings
    requires forall x <- d.dynamicModels :: x.id == m.id ==> x == m
    requires IndexesAre(m, "N", 1)
    requires ParameterOf(d.doc.multipleAssociations, d.nbShunts, Count("n", "c")) == [Parameter("n", 0)]
    ensures Disagree(FileMacroConnects(d), FileMacroConnectors(d), Par.Written(d))
  {
    assert HasIndex(m, "N", 0);
    FileIndexes(d, m, "N", 0);
    assert CountOfExample().counts[0] == Count("n", "c");
    assert Parameter("n", 0) in [Parameter("n", 0)];
    FileCounts(d, CountOfExample(), Count("n", "c"), Parameter("n", 0));
    FileConnectors(d, "N");
    assert |"N"| == 1;
  }

  lemma HandedIsModel(inp: Inputs, models: DynModels.Models, used: set<Id>, d: Definition)
    requires HandsOverModels(inp, models, used, d.nbShunts, d)
    ensures forall x <- d.dynamicModels :: x.id in models && models[x.id] == x
    ensures forall id <- models :: models[id] in d.dynamicModels
  {
    forall x <- d.dynamicModels ensures x.id in models && models[x.id] == x {
      HandedModel(inp, models, used, d.nbShunts, d, x);
    }
  }

  lemma NotHanded(models: DynModels.Models, d: Definition, id: Id)
    requires (forall x <- d.dynamicModels :: x.id in models && models[x.id] == x) && id !in models
    ensures id !in AutomatonIds(d.dynamicModels)
  {
    forall i | 0 <= i < |d.dynamicModels| ensures AutomatonIds(d.dynamicModels)[i] != id {
      assert d.dynamicModels[i] in d.dynamicModels;
    }
  }

  lemma HandedCounting(inp: Inputs, models: DynModels.Models, used: set<Id>, d: Definition)
    requires IsExample(inp) && HandsOverModels(inp, models, used, d.nbShunts, d) && CountOfExample() in d.settings
    ensures Disagree(FileMacroConnects(d), FileMacroConnectors(d), Par.Written(d))
  {
    CountingIsLeft(inp, models, used, d.nbShunts);
    HandedIsModel(inp, models, used, d);
    CountingInFiles(d, models["D"]);
  }

  lemma CollidingNotHanded(inp: Inputs, models: DynModels.Models, used: set<Id>, d: Definition)
    requires IsExample(inp) && HandsOverModels(inp, models, used, d.nbShunts, d)
    ensures "A" !in AutomatonIds(d.dynamicModels)
  {
    CollidingIsDropped(inp, models, used, d.nbShunts);
    HandedIsModel(inp, models, used, d);
    NotHanded(models, d, "A");
  }

  // ---------------------------------------------------------------------------
  // The run

  lemma ExampleSucceeds(inp: Inputs, main: seq<Id>, slack: Option<NodeRecord>)
    requires IsExample(inp) && SlackProcessed(inp, main, ALGORITHM, slack)
    ensures slack.value.id in main && EmittedOn(inp, main) != []
  {
    FirstIsEmitted(inp);
  }

  lemma ExampleRepeats(inp: Inputs, d: Definition)
    requires IsExample(inp) && BuiltFrom(inp, ExampleData()) && HandsOverAll(inp, d)
    ensures !NoDuplicates(ModelIds(FileModels(d))) && !NoDuplicates(SetIds(Par.Written(d).sets))
  {
    var m :| HandsOver(inp, m, d);
    BInBothMaps(inp, m, d);
    SharedBusRepeats(d, "B");
  }

  lemma ExampleDisagrees(inp: Inputs, d: Definition)
    requires IsExample(inp) && HandsOverAll(inp, d) && CountOfExample() in d.settings
    ensures Disagree(FileMacroConnects(d), FileMacroConnectors(d), Par.Written(d))
    ensures "A" !in AutomatonIds(d.dynamicModels)
  {
    var models, used :| HandsOverModels(inp, models, used, d.nbShunts, d);
    HandedCounting(inp, models, used, d);
    CollidingNotHanded(inp, models, used, d);
  }

  /** Launches the example: it succeeds. */
  method LaunchExample() returns (context: ContextProcess.Context)
    ensures context.inp == ExampleInputs() && IsExample(context.inp) && BuiltFrom(context.inp, ExampleData())
    ensures Processed(context)
  {
    ExampleIsBuilt();
    ExampleIsExample();
    var ok;
    context, ok := Launch(ExampleServices(), ExampleData(), ExampleChoices(), ["B", "C"]);
    ExampleSucceeds(context.inp, context.mainConnexNodes, context.slackNode);
  }

  /** Runs the example to its two files. */
  method RunExample(s: Surroundings)
    returns (d: Definition, dyd: DynamicModelsCollection, par: Par.ParametersSetCollection)
    requires CountOfExample() in s.settings
    ensures !NoDuplicates(ModelIds(dyd.models)) && !NoDuplicates(SetIds(par.View().sets))
    ensures "A" !in AutomatonIds(d.dynamicModels)
    ensures Disagree(dyd.macroConnects, dyd.macroConnectors, par.View())
  {
    var context := LaunchExample();
    d, dyd, par := ExportOutputs(context, ExampleData(), s);
    ExampleRepeats(context.inp, d);
    ExampleDisagrees(context.inp, d);
  }
}
