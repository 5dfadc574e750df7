/**
 An input in which the known failures show: two buses with two lines between them;
 on bus B two generators with zero target and one end of a VSC line, all of which
 regulate B; a shunt on bus C; and a document whose first automaton uses macro ids
 that collide, and whose second one an association id that is repeated.
 */
module ExampleNetwork {
  import opened Wrappers
  import opened Reachability
  import opened Network
  import opened NetworkLaws
  import opened VscBuses
  import opened DynModels
  import opened ContextProcess
  import opened Pipeline

  predicate Same(x: real, y: real) {
    x == y
  }

  predicate Zero(x: real) {
    x == 0.0
  }

  function RegulatesB(id: Id): Id {
    "B"
  }

  function NoSwitches(bus: Id, level: Id): seq<Id> {
    []
  }

  function ExampleServices(): Services {
    Services(Same, Zero, RegulatesB, NoSwitches)
  }

  function Regulating0(id: Id): GeneratorData {
    GeneratorData(id, "B", true, true, [], -1.0, 1.0, -1.0, 1.0, 0.0)
  }

  function LevelOfB(): VoltageLevelData {
    VoltageLevelData("V", 1.0, ["B"], [], [Regulating0("1"), Regulating0("2")], [])
  }

  function LevelOfC(): VoltageLevelData {
    VoltageLevelData("W", 1.0, ["C"], [ShuntData("S", "C")], [], [])
  }

  function TheLine(): HvdcLine {
    ExampleLine("X", "3", "B", "4", "C")
  }

  function ExampleLines(): seq<BranchData> {
    [BranchData("1L", "B", "C", true, true), BranchData("L", "B", "C", true, true)]
  }

  function ExampleData(): NetworkData {
    NetworkData([LevelOfB(), LevelOfC()], ExampleLines(), [], [], [HvdcData(TheLine(), true, true)])
  }

  function Colliding(): DynamicAutomaton {
    DynamicAutomaton("A", "lib", [MacroConnect("M", "a"), MacroConnect("M1", "b")])
  }

  function Counting(): DynamicAutomaton {
    DynamicAutomaton("D", "lib", [MacroConnect("N", "c")])
  }

  function ExampleDocument(): AssemblingDocument {
    AssemblingDocument(
      [], [Colliding(), Counting()],
      [SingleAssociation("a", None, Some("1L"), None), SingleAssociation("b", None, Some("L"), None)],
      [MultipleAssociation("c", "V"), MultipleAssociation("c", "W")])
  }

  predicate AnyLibrary(lib: string) {
    true
  }

  function ExampleChoices(): Choices {
    Choices(None, true, true, ExampleDocument(), AnyLibrary)
  }

  function ExampleInputs(): Inputs {
    InputsOf(ExampleServices(), ExampleData(), ExampleChoices(), ["B", "C"])
  }

  // ---------------------------------------------------------------------------
  // The network

  lemma Levels()
    ensures var levels := ExampleData().voltageLevels;
            && levels[..1] == [LevelOfB()] && levels[..1][..0] == []
            && KnownBuses(levels) == {"B", "C"}
            && LevelNodes(levels) == map["V" := ["B"], "W" := ["C"]]
            && AllBuses(levels) == [Bus(LevelOfB(), "B"), Bus(LevelOfC(), "C")]
            && AllSwitches(levels) == []
  {
    var levels := ExampleData().voltageLevels;
    assert levels[..1] == [LevelOfB()] && levels[..1][..0] == [];
    assert KnownBuses(levels[..1]) == Elements(LevelOfB().buses) == {"B"};
    assert Elements(LevelOfC().buses) == {"C"};
    assert LevelNodes(levels[..1]) == map["V" := ["B"]];
    assert AllBuses(levels[..1]) == [Bus(LevelOfB(), "B")];
    assert BusesOf(LevelOfC()) == [Bus(LevelOfC(), "C")];
    assert AllSwitches(levels[..1]) == [];
  }

  lemma Links()
    ensures Connections(ExampleData()) == [Link(Line, "1L", "B", "C"), Link(Line, "L", "B", "C")]
  {
    Levels();
    var lines := ExampleLines();
    assert lines[..1] == [lines[0]] && lines[..1][..0] == [];
    assert ConnectedBranches(Line, lines[..1]) == [Link(Line, "1L", "B", "C")];
    assert ConnectedBranches(Line, lines) == [Link(Line, "1L", "B", "C"), Link(Line, "L", "B", "C")];
    assert ConnectedBranches(Tfo, []) == [] && ConnectedStars([]) == [];
  }

  function FirstGenerator(): Generator {
    GeneratorOf(ExampleServices(), Regulating0("1"))
  }

  function SecondGenerator(): Generator {
    GeneratorOf(ExampleServices(), Regulating0("2"))
  }

  lemma BothAreKept()
    ensures KeptGenerators(ExampleServices(), LevelOfB().generators) == [FirstGenerator(), SecondGenerator()]
  {
    var env, data := ExampleServices(), LevelOfB().generators;
    assert data[..1] == [data[0]] && data[..1][..0] == [];
    assert IsKept(env, data[0]) && IsKept(env, data[1]);
    assert KeptGenerators(env, data[..1]) == [FirstGenerator()];
  }

  lemma TwoAt(g: Generator, h: Generator, n: Id)
    requires g.connectedBusId == h.connectedBusId == n
    ensures GeneratorsAt([g, h], n) == [g, h]
  {
    assert [g, h][..1] == [g] && [g][..0] == [];
    assert GeneratorsAt([g], n) == [g];
  }

  lemma KeptOnB()
    ensures var gens := AllGenerators(ExampleServices(), ExampleData().voltageLevels);
            gens == [FirstGenerator(), SecondGenerator()] && GeneratorsAt(gens, "B") == gens
  {
    Levels();
    BothAreKept();
    var env, levels := ExampleServices(), ExampleData().voltageLevels;
    assert AllGenerators(env, levels[..1]) == [FirstGenerator(), SecondGenerator()];
    assert KeptGenerators(env, LevelOfC().generators) == [];
    TwoAt(FirstGenerator(), SecondGenerator(), "B");
  }

  lemma ExampleIsWellFormed()
    ensures WellFormed(ExampleData()) && ConnectedHvdc(ExampleData().hvdcLines) == [TheLine()]
  {
    Levels();
    assert "B" in LevelOfB().buses;
    assert LevelWellFormed(LevelOfB()) && LevelWellFormed(LevelOfC());
    assert LevelsWellFormed(ExampleData().voltageLevels);
    var ds := ExampleData().hvdcLines;
    assert ds[..0] == [];
    assert TheLine().Valid() && HvdcWellFormed({"B", "C"}, ds[0]);
    assert forall l <- ExampleLines() :: BranchWellFormed({"B", "C"}, l);
  }

  lemma ExampleNodes()
    ensures var nodes := BuildNodes(ExampleServices(), ExampleData());
            && nodes.Keys == {"B", "C"}
            && nodes["B"].id == "B" && nodes["B"].voltageLevel == "V" && nodes["B"].shunts == []
            && nodes["C"].id == "C" && nodes["C"].voltageLevel == "W" && nodes["C"].shunts == ["S"]
            && nodes["B"].lines == ["1L", "L"] && nodes["C"].lines == ["1L", "L"]
            && nodes["B"].neighbours == ["C", "C"] && nodes["C"].neighbours == ["B", "B"]
            && nodes["B"].generators == AllGenerators(ExampleServices(), ExampleData().voltageLevels)
  {
    ExampleIsWellFormed();
    Levels();
    Links();
    KeptOnB();
    BuildDescribes(ExampleServices(), ExampleData());
    var b := BusOfNode(ExampleServices(), ExampleData(), "B");
    var c := BusOfNode(ExampleServices(), ExampleData(), "C");
    EndsOfLinks(Connections(ExampleData()));
    ShuntsOfLevels();
  }

  lemma EndsOfLinks(xs: seq<Connection>)
    requires xs == [Link(Line, "1L", "B", "C"), Link(Line, "L", "B", "C")]
    ensures LinesAt(xs, "B") == ["1L", "L"] && LinesAt(xs, "C") == ["1L", "L"]
    ensures NeighboursAt(xs, "B") == ["C", "C"] && NeighboursAt(xs, "C") == ["B", "B"]
  {
    assert xs[..1] == [xs[0]] && xs[..1][..0] == [];
    assert "B" != "C" by {
      assert "B"[0] == 'B';
    }
    assert LinesAt(xs[..1], "B") == ["1L"] && LinesAt(xs[..1], "C") == ["1L"];
    assert NeighboursAt(xs[..1], "B") == ["C"] && NeighboursAt(xs[..1], "C") == ["B"];
  }

  lemma ShuntsOfLevels()
    ensures ShuntsAt(LevelOfB().shunts, "B") == [] && ShuntsAt(LevelOfC().shunts, "C") == ["S"]
  {
    assert LevelOfC().shunts[..0] == [];
  }

  /** The example is a network that process works on. */
  lemma ExampleIsBuilt()
    ensures BuiltFrom(ExampleInputs(), ExampleData()) && ExampleInputs().Valid()
  {
    ExampleIsWellFormed();
    Levels();
    OrderOfBuses();
    InputsAreBuilt(ExampleServices(), ExampleData(), ExampleChoices(), ["B", "C"]);
    BuiltInputsAreValid(ExampleInputs(), ExampleData());
  }

  lemma OrderOfBuses()
    ensures NoDuplicates(["B", "C"]) && Elements(["B", "C"]) == {"B", "C"}
  {
    assert "B"[0] == 'B' && "C"[0] == 'C';
    assert ["B", "C"][0] == "B" && ["B", "C"][1] == "C";
  }

  // ---------------------------------------------------------------------------
  // What the run needs to know of it

  ghost predicate NodeB(n: NodeRecord) {
    && n.id == "B" && n.voltageLevel == "V" && n.shunts == [] && n.lines == ["1L", "L"] && n.neighbours == ["C", "C"]
    && n.generators == [FirstGenerator(), SecondGenerator()]
  }

  ghost predicate NodeC(n: NodeRecord) {
    && n.id == "C" && n.voltageLevel == "W" && n.shunts == ["S"] && n.lines == ["1L", "L"] && n.neighbours == ["B", "B"]
  }

  ghost predicate IsExample(inp: Inputs) {
    && inp.Valid()
    && inp.nodes.Keys == {"B", "C"} && NodeB(inp.nodes["B"]) && NodeC(inp.nodes["C"]) && inp.order == ["B", "C"]
    && inp.env == ExampleServices() && inp.infiniteReactiveLimits
    && inp.doc == ExampleDocument() && inp.libraryExists == AnyLibrary
    && "B" in inp.generatorBuses && inp.generatorBuses["B"] == MULTIPLES
    && inp.vscBuses == CountAll(map[], VscRegulatedBuses(ExampleServices(), [TheLine()]))
  }

  lemma SeveralRegulateB()
    ensures var m := CountAll(map[], RegulatedBuses(AllGenerators(ExampleServices(), ExampleData().voltageLevels)));
            "B" in m && m["B"] == MULTIPLES
  {
    KeptOnB();
    TwoRegulate(FirstGenerator(), SecondGenerator(), "B");
  }

  lemma TwoRegulate(g: Generator, h: Generator, b: Id)
    requires g.regulatedBusId == h.regulatedBusId == b
    ensures var m := CountAll(map[], RegulatedBuses([g, h]));
            b in m && m[b] == MULTIPLES
  {
    assert RegulatedBuses([g, h]) == [b, b];
    CountedTwice(b);
  }

  lemma CountedTwice(b: Id)
    ensures var m := CountAll(map[], [b, b]);
            b in m && m[b] == MULTIPLES
  {
    assert [b, b][..1] == [b] && [b][..0] == [];
    assert CountAll(map[], [b]) == map[b := ONE];
  }

  lemma ExampleIsExample()
    ensures IsExample(ExampleInputs())
  {
    ExampleIsBuilt();
    ExampleNodes();
    KeptOnB();
    ExampleIsWellFormed();
    SeveralRegulateB();
  }
}
