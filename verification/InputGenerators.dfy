/**
 The generators of the network and the models they get, in terms of the input: a
 definition is emitted exactly for the kept generators of the main component whose
 diagram is unneeded or valid, and its model follows from who regulates which bus.
 */
module InputGenerators {
  import opened Reachability
  import opened Network
  import opened NetworkLaws
  import opened InputLaws
  import opened Generators
  import opened ContextProcess
  import opened Pipeline

  // ---------------------------------------------------------------------------
  // What decides a model

  /** Another generator regulates the same bus. */
  ghost predicate RegulatesWithOthers(gens: seq<Generator>, i: nat)
    requires i < |gens|
  {
    exists j: nat :: j < |gens| && j != i && gens[j].regulatedBusId == gens[i].regulatedBusId
  }

  /** No other generator is on the same bus. */
  ghost predicate AloneOnBus(gens: seq<Generator>, i: nat)
    requires i < |gens|
  {
    forall j: nat :: j < |gens| && j != i ==> gens[j].connectedBusId != gens[i].connectedBusId
  }

  ghost predicate SomeOnBus(gens: seq<Generator>, bus: Id) {
    exists j: nat :: j < |gens| && gens[j].connectedBusId == bus
  }

  /** A bus that switches connect to the one of the generator has a generator. */
  ghost predicate BesideOthers(env: Services, levels: seq<VoltageLevelData>, gens: seq<Generator>, i: nat)
    requires i < |gens|
  {
    exists vl, bus :: vl in levels && gens[i].connectedBusId in vl.buses
                      && bus in env.busesConnectedBySwitch(gens[i].connectedBusId, vl.id) && SomeOnBus(gens, bus)
  }

  /** The generator shares the regulation of its bus with others, or is assumed to. */
  ghost predicate Shares(env: Services, levels: seq<VoltageLevelData>, gens: seq<Generator>, i: nat)
    requires i < |gens|
  {
    RegulatesWithOthers(gens, i) || (AloneOnBus(gens, i) && BesideOthers(env, levels, gens, i))
  }

  predicate IsRemote(model: ModelType) {
    model == REMOTE_SIGNALN || model == REMOTE_DIAGRAM_PQ_SIGNALN
  }

  predicate IsLocal(model: ModelType) {
    model == SIGNALN || model == DIAGRAM_PQ_SIGNALN
  }

  /** The model is proportional, remote or local, with or without a diagram. */
  predicate ModelFits(d: GeneratorDefinition, shares: bool, remote: bool, diagram: bool) {
    && (d.IsProp() <==> shares)
    && (IsRemote(d.model) <==> !shares && remote)
    && (IsLocal(d.model) <==> !shares && !remote)
    && (d.IsUsingDiagram() <==> diagram)
  }

  /** These facts leave one model. */
  lemma FactsDetermineModel(d: GeneratorDefinition, e: GeneratorDefinition, shares: bool, remote: bool, diagram: bool)
    requires ModelFits(d, shares, remote, diagram) && ModelFits(e, shares, remote, diagram)
    ensures d.model == e.model
  {
  }

  /** The definition is that of the i-th generator. */
  ghost predicate Defines(inp: Inputs, data: NetworkData, i: nat, d: GeneratorDefinition)
    requires i < |AllGenerators(inp.env, data.voltageLevels)|
  {
    var gens := AllGenerators(inp.env, data.voltageLevels);
    var g := gens[i];
    && d.id == g.id && d.nodeId == g.connectedBusId && d.regulatedBusId == g.regulatedBusId
    && d.points == g.points && d.qmin == g.qmin && d.qmax == g.qmax && d.pmin == g.pmin && d.pmax == g.pmax
    && d.targetP == g.targetP
    && ModelFits(d, Shares(inp.env, data.voltageLevels, gens, i), g.regulatedBusId != g.connectedBusId,
                 !inp.infiniteReactiveLimits)
  }

  // ---------------------------------------------------------------------------
  // Lists and counts

  lemma {:induction false} CountsTwice<T>(s: seq<T>, i: nat)
    requires i < |s|
    ensures multiset(s)[s[i]] >= 1
    ensures multiset(s)[s[i]] >= 2 <==> exists j: nat :: j < |s| && j != i && s[j] == s[i]
  {
    var rest := s[..i] + s[i + 1..];
    assert s == s[..i] + [s[i]] + s[i + 1..];
    assert multiset(s) == multiset(rest) + multiset{s[i]};
    if s[i] in rest {
      var k: nat :| k < |rest| && rest[k] == s[i];
      var j := if k < i then k else k + 1;
      assert s[j] == s[i];
    }
    if j: nat :| j < |s| && j != i && s[j] == s[i] {
      assert rest[if j < i then j else j - 1] == s[i];
    }
  }

  lemma {:induction false} NoneAt(gens: seq<Generator>, bus: Id)
    ensures GeneratorsAt(gens, bus) != [] <==> SomeOnBus(gens, bus)
    decreases |gens|
  {
    if gens != [] {
      var n := |gens| - 1;
      NoneAt(gens[..n], bus);
      if j: nat :| j < |gens| && gens[j].connectedBusId == bus {
        assert j < n ==> gens[..n][j].connectedBusId == bus;
      }
    }
  }

  lemma {:induction false} OneAt(gens: seq<Generator>, i: nat)
    requires i < |gens|
    ensures |GeneratorsAt(gens, gens[i].connectedBusId)| == 1 <==> AloneOnBus(gens, i)
    decreases |gens|
  {
    var n, bus := |gens| - 1, gens[i].connectedBusId;
    NoneAt(gens[..n], bus);
    if i < n {
      OneAt(gens[..n], i);
      assert AloneOnBus(gens, i) <==> AloneOnBus(gens[..n], i) && gens[n].connectedBusId != bus by {
        assert forall j: nat :: j < n ==> gens[..n][j] == gens[j];
      }
      assert GeneratorsAt(gens[..n], bus) != [] by {
        assert gens[..n][i].connectedBusId == bus;
      }
    } else {
      assert SomeOnBus(gens[..n], bus) <==> !AloneOnBus(gens, i) by {
        assert forall j: nat :: j < n ==> gens[..n][j] == gens[j];
      }
    }
  }

  // ---------------------------------------------------------------------------
  // What the walk emits

  ghost predicate Emits(ctx: Generators.Context, node: NodeRecord, g: Generator, d: GeneratorDefinition) {
    && ServiceAnswers(ctx, node) && g.regulatedBusId in ctx.busMap
    && IsEmitted(ctx, node, g) && d == Generators.DefinitionOf(ctx, node, g)
  }

  lemma {:induction false} EmittedUpToMembers(ctx: Generators.Context, node: NodeRecord, k: nat, d: GeneratorDefinition)
    requires Usable(ctx, node) && k <= |node.generators|
    ensures d in EmittedUpTo(ctx, node, k) <==> exists i: nat :: i < k && Emits(ctx, node, node.generators[i], d)
  {
    if k > 0 {
      EmittedUpToMembers(ctx, node, k - 1, d);
      LastEmits(ctx, node, k, d);
    }
  }

  lemma LastEmits(ctx: Generators.Context, node: NodeRecord, k: nat, d: GeneratorDefinition)
    requires Usable(ctx, node) && 0 < k <= |node.generators|
    ensures d in EmittedUpTo(ctx, node, k)
       <==> d in EmittedUpTo(ctx, node, k - 1) || Emits(ctx, node, node.generators[k - 1], d)
  {
    assert node.generators[k - 1] in node.generators;
  }

  ghost predicate EmittedAt(ctx: Generators.Context, node: NodeRecord, d: GeneratorDefinition)
    requires Usable(ctx, node)
  {
    exists g :: g in node.generators && Emits(ctx, node, g, d)
  }

  lemma NodeEmits(ctx: Generators.Context, node: NodeRecord, d: GeneratorDefinition)
    requires Usable(ctx, node)
    ensures d in EmittedUpTo(ctx, node, |node.generators|) <==> EmittedAt(ctx, node, d)
  {
    EmittedUpToMembers(ctx, node, |node.generators|, d);
    if EmittedAt(ctx, node, d) {
      var g :| g in node.generators && Emits(ctx, node, g, d);
      var i :| 0 <= i < |node.generators| && node.generators[i] == g;
    }
  }

  lemma {:induction false} EmittedMembers(ctx: Generators.Context, nodes: seq<NodeRecord>, d: GeneratorDefinition)
    requires forall n <- nodes :: Usable(ctx, n)
    ensures d in Emitted(ctx, nodes) <==> exists n :: n in nodes && EmittedAt(ctx, n, d)
    decreases |nodes|
  {
    if nodes != [] {
      var k := |nodes| - 1;
      assert nodes == nodes[..k] + [nodes[k]] && nodes[k] in nodes;
      EmittedMembers(ctx, nodes[..k], d);
      NodeEmits(ctx, nodes[k], d);
      if n :| n in nodes && EmittedAt(ctx, n, d) {
        assert n in nodes[..k] || n == nodes[k];
      }
    }
  }

  // ---------------------------------------------------------------------------
  // The models

  /** A node of a built network and the i-th kept generator, on it. */
  ghost predicate Hosts(inp: Inputs, data: NetworkData, node: NodeRecord, i: nat) {
    var gens := AllGenerators(inp.env, data.voltageLevels);
    && node.id in inp.nodes && inp.nodes[node.id] == node
    && i < |gens| && gens[i].connectedBusId == node.id && gens[i] in node.generators
  }

  lemma NodeGenerators(inp: Inputs, data: NetworkData, id: Id)
    requires BuiltFrom(inp, data) && id in inp.nodes
    ensures inp.nodes[id].id == id
    ensures inp.nodes[id].generators == GeneratorsAt(AllGenerators(inp.env, data.voltageLevels), id)
  {
    var b := BusOfNode(inp.env, data, id);
  }

  lemma RegulationIsShared(inp: Inputs, data: NetworkData, i: nat)
    requires BuiltFrom(inp, data) && i < |AllGenerators(inp.env, data.voltageLevels)|
    ensures var gens := AllGenerators(inp.env, data.voltageLevels);
            && gens[i].regulatedBusId in inp.generatorBuses
            && (inp.generatorBuses[gens[i].regulatedBusId] == MULTIPLES <==> RegulatesWithOthers(gens, i))
  {
    var gens := AllGenerators(inp.env, data.voltageLevels);
    var buses := RegulatedBuses(gens);
    KeptGeneratorsAreCounted(inp.env, data, gens[i]);
    CountsTwice(buses, i);
    assert RegulatesWithOthers(gens, i) <==> exists j: nat :: j < |buses| && j != i && buses[j] == buses[i] by {
      assert forall j: nat :: j < |buses| ==> buses[j] == gens[j].regulatedBusId;
    }
  }

  lemma BesideIsBySwitches(inp: Inputs, data: NetworkData, node: NodeRecord, i: nat)
    requires BuiltFrom(inp, data) && inp.Valid() && Hosts(inp, data, node, i)
    ensures OtherGeneratorBySwitches(inp.GeneratorContext(), node)
       <==> BesideOthers(inp.env, data.voltageLevels, AllGenerators(inp.env, data.voltageLevels), i)
  {
    var gens, levels := AllGenerators(inp.env, data.voltageLevels), data.voltageLevels;
    var vl := LevelOfNode(inp.env, data, node.id);
    NodesOfInput(inp.env, data, vl, node.id);
    forall bus | bus in inp.env.busesConnectedBySwitch(node.id, node.voltageLevel)
      ensures bus in inp.nodes && (inp.nodes[bus].generators != [] <==> SomeOnBus(gens, bus))
    {
      assert inp.NodeValid(inp.nodes[node.id]);
      NodeGenerators(inp, data, bus);
      NoneAt(gens, bus);
    }
    forall wl <- levels ensures node.id in wl.buses ==> wl == vl {
      LevelsAreTold(levels, vl, wl);
    }
  }

  /** The model, from what decides it. */
  lemma ModelFrom(ctx: Generators.Context, node: NodeRecord, g: Generator, others: bool, alone: bool, beside: bool)
    requires ServiceAnswers(ctx, node) && g.regulatedBusId in ctx.busMap
    requires ctx.busMap[g.regulatedBusId] == MULTIPLES <==> others
    requires |node.generators| == 1 <==> alone
    requires OtherGeneratorBySwitches(ctx, node) <==> beside
    ensures ModelFits(Generators.DefinitionOf(ctx, node, g), others || (alone && beside),
                      g.regulatedBusId != g.connectedBusId, !ctx.infiniteReactiveLimits)
  {
  }

  lemma HostIsUsable(inp: Inputs, data: NetworkData, node: NodeRecord, i: nat)
    requires BuiltFrom(inp, data) && inp.Valid() && Hosts(inp, data, node, i)
    ensures Usable(inp.GeneratorContext(), node)
    ensures |node.generators| == 1 <==> AloneOnBus(AllGenerators(inp.env, data.voltageLevels), i)
  {
    assert inp.NodeValid(inp.nodes[node.id]);
    NodeGenerators(inp, data, node.id);
    OneAt(AllGenerators(inp.env, data.voltageLevels), i);
  }

  lemma ModelOfFits(inp: Inputs, data: NetworkData, node: NodeRecord, i: nat)
    requires BuiltFrom(inp, data) && inp.Valid() && Hosts(inp, data, node, i)
    ensures Usable(inp.GeneratorContext(), node)
    ensures Defines(inp, data, i, Generators.DefinitionOf(inp.GeneratorContext(), node,
                                                          AllGenerators(inp.env, data.voltageLevels)[i]))
  {
    var gens := AllGenerators(inp.env, data.voltageLevels);
    HostIsUsable(inp, data, node, i);
    RegulationIsShared(inp, data, i);
    BesideIsBySwitches(inp, data, node, i);
    ModelFrom(inp.GeneratorContext(), node, gens[i], RegulatesWithOthers(gens, i), AloneOnBus(gens, i),
              BesideOthers(inp.env, data.voltageLevels, gens, i));
  }

  /** The i-th kept generator gets a definition. */
  ghost predicate GetsDefinition(inp: Inputs, data: NetworkData, i: nat)
    requires inp.Valid() && i < |AllGenerators(inp.env, data.voltageLevels)|
  {
    var g := AllGenerators(inp.env, data.voltageLevels)[i];
    g.connectedBusId in MainOf(inp) && (inp.infiniteReactiveLimits || DiagramValid(inp.env, g))
  }

  lemma SameDefinition(inp: Inputs, data: NetworkData, i: nat, d: GeneratorDefinition, e: GeneratorDefinition)
    requires i < |AllGenerators(inp.env, data.voltageLevels)| && Defines(inp, data, i, d) && Defines(inp, data, i, e)
    ensures d == e
  {
    var gens := AllGenerators(inp.env, data.voltageLevels);
    FactsDetermineModel(d, e, Shares(inp.env, data.voltageLevels, gens, i),
                        gens[i].regulatedBusId != gens[i].connectedBusId, !inp.infiniteReactiveLimits);
  }

  /** The record of a bus of the component, and a generator on it. */
  lemma HostOf(inp: Inputs, data: NetworkData, i: nat) returns (node: NodeRecord)
    requires BuiltFrom(inp, data) && inp.Valid() && i < |AllGenerators(inp.env, data.voltageLevels)|
    requires AllGenerators(inp.env, data.voltageLevels)[i].connectedBusId in MainOf(inp)
    ensures node in inp.Records(MainOf(inp)) && Hosts(inp, data, node, i)
  {
    var gens, main := AllGenerators(inp.env, data.voltageLevels), MainOf(inp);
    var bus := gens[i].connectedBusId;
    node := inp.nodes[bus];
    NodeGenerators(inp, data, bus);
    GeneratorsAtBus(gens, bus, gens[i]);
    var k :| 0 <= k < |main| && main[k] == bus;
    assert inp.Records(main)[k] == node;
  }

  lemma RecordOfMain(inp: Inputs, node: NodeRecord)
    requires inp.Valid() && node in inp.Records(MainOf(inp))
    ensures node.id in MainOf(inp) && node.id in inp.nodes && inp.nodes[node.id] == node
  {
    var main := MainOf(inp);
    var k :| 0 <= k < |main| && inp.Records(main)[k] == node;
    assert main[k] in main;
  }

  lemma GeneratorOfRecord(inp: Inputs, data: NetworkData, node: NodeRecord, g: Generator) returns (i: nat)
    requires BuiltFrom(inp, data) && inp.Valid() && node in inp.Records(MainOf(inp)) && g in node.generators
    ensures Hosts(inp, data, node, i) && AllGenerators(inp.env, data.voltageLevels)[i] == g && node.id in MainOf(inp)
  {
    var gens := AllGenerators(inp.env, data.voltageLevels);
    RecordOfMain(inp, node);
    NodeGenerators(inp, data, node.id);
    GeneratorsAtBus(gens, node.id, g);
    i :| 0 <= i < |gens| && gens[i] == g;
  }

  lemma EmittedIsDefined(inp: Inputs, data: NetworkData, d: GeneratorDefinition) returns (i: nat)
    requires BuiltFrom(inp, data) && inp.Valid() && d in EmittedOn(inp, MainOf(inp))
    ensures i < |AllGenerators(inp.env, data.voltageLevels)| && GetsDefinition(inp, data, i) && Defines(inp, data, i, d)
  {
    var ctx, nodes := inp.GeneratorContext(), inp.Records(MainOf(inp));
    RecordsAreValid(inp, MainOf(inp));
    EmittedMembers(ctx, nodes, d);
    var node :| node in nodes && EmittedAt(ctx, node, d);
    var g :| g in node.generators && Emits(ctx, node, g, d);
    i := GeneratorOfRecord(inp, data, node, g);
    ModelOfFits(inp, data, node, i);
  }

  lemma DefinedIsEmitted(inp: Inputs, data: NetworkData, i: nat, d: GeneratorDefinition)
    requires BuiltFrom(inp, data) && inp.Valid() && i < |AllGenerators(inp.env, data.voltageLevels)|
    requires GetsDefinition(inp, data, i) && Defines(inp, data, i, d)
    ensures d in EmittedOn(inp, MainOf(inp))
  {
    var ctx, nodes := inp.GeneratorContext(), inp.Records(MainOf(inp));
    RecordsAreValid(inp, MainOf(inp));
    var node := HostOf(inp, data, i);
    var g := AllGenerators(inp.env, data.voltageLevels)[i];
    ModelOfFits(inp, data, node, i);
    SameDefinition(inp, data, i, d, Generators.DefinitionOf(ctx, node, g));
    assert Emits(ctx, node, g, d);
    EmittedMembers(ctx, nodes, d);
  }

  /** Each of them is emitted. */
  lemma DefinitionOfGenerator(inp: Inputs, data: NetworkData, i: nat) returns (d: GeneratorDefinition)
    requires BuiltFrom(inp, data) && inp.Valid() && i < |AllGenerators(inp.env, data.voltageLevels)|
    requires GetsDefinition(inp, data, i)
    ensures d in EmittedOn(inp, MainOf(inp)) && Defines(inp, data, i, d)
  {
    RecordsAreValid(inp, MainOf(inp));
    var node := HostOf(inp, data, i);
    ModelOfFits(inp, data, node, i);
    d := Generators.DefinitionOf(inp.GeneratorContext(), node, AllGenerators(inp.env, data.voltageLevels)[i]);
    DefinedIsEmitted(inp, data, i, d);
  }

  /** End to end: the definitions emitted are exactly those of the kept generators on
      the buses of the main component whose diagram is unneeded or valid. Each is
      proportional exactly if another kept generator regulates its bus, or it is
      alone on its own and a bus beside has a generator; else remote exactly if it
      regulates another bus than its own; and uses a diagram exactly if limits are
      finite. */
  lemma DefinitionsOfInput(inp: Inputs, data: NetworkData, d: GeneratorDefinition)
    requires BuiltFrom(inp, data) && inp.Valid()
    ensures d in EmittedOn(inp, MainOf(inp))
       <==> exists i: nat :: i < |AllGenerators(inp.env, data.voltageLevels)| && GetsDefinition(inp, data, i)
                             && Defines(inp, data, i, d)
  {
    if d in EmittedOn(inp, MainOf(inp)) {
      var i := EmittedIsDefined(inp, data, d);
    }
    if i: nat :| i < |AllGenerators(inp.env, data.voltageLevels)| && GetsDefinition(inp, data, i)
                 && Defines(inp, data, i, d) {
      DefinedIsEmitted(inp, data, i, d);
    }
  }
}
