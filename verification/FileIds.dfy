/**
 Unique ids, end to end: if the elements of the input have ids of their own, the
 models of the DYD file have unique ids exactly if no bus is in both bus maps, and
 the sets of the PAR file if moreover the generators have.
 */
module FileIds {
  import opened Reachability
  import opened Network
  import opened Generators
  import opened Hvdc
  import HvdcLaws
  import NetworkLaws
  import opened DynModels
  import opened DynModelLaws
  import opened CountSettings
  import opened Dyd
  import Par
  import opened UniqueIds
  import opened ContextProcess
  import opened Pipeline
  import opened NetworkFiles

  // ---------------------------------------------------------------------------
  // Ids of the input

  function InputGeneratorIds(levels: seq<VoltageLevelData>): seq<Id> {
    if levels == [] then []
    else InputGeneratorIds(levels[..|levels| - 1]) + DataIds(levels[|levels| - 1].generators)
  }

  function DataIds(gens: seq<GeneratorData>): seq<Id> {
    seq(|gens|, i requires 0 <= i < |gens| => gens[i].id)
  }

  function InputLineIds(lines: seq<HvdcData>): seq<Id> {
    seq(|lines|, i requires 0 <= i < |lines| => lines[i].line.id)
  }

  /** Ids the writers make up themselves. */
  predicate Reserved(id: Id) {
    id == SIGNALN_MODEL || NQ_PREFIX <= id
  }

  /** Loads, generators, HVDC lines, compensators and automatons have ids of their
      own. */
  ghost predicate DistinctElements(data: NetworkData, doc: AssemblingDocument, loads: seq<Id>, svarcs: seq<Id>) {
    var own := loads + InputGeneratorIds(data.voltageLevels) + InputLineIds(data.hvdcLines) + svarcs;
    && NoDuplicates(own)
    && (forall id <- own :: !Reserved(id))
    && (forall a <- doc.dynamicAutomatons :: a.id !in own && !Reserved(a.id))
  }

  // ---------------------------------------------------------------------------
  // Generators

  function IdsOfGenerators(gens: seq<Generator>): seq<Id> {
    seq(|gens|, i requires 0 <= i < |gens| => gens[i].id)
  }

  lemma OneMoreDistinct(ids: seq<Id>, condition: bool, id: Id)
    requires NoDuplicates(ids) && (condition ==> id !in ids)
    ensures NoDuplicates(ids + Only(condition, [id]))
  {
    NoDuplicatesJoin(ids, Only(condition, [id]));
  }

  lemma {:induction false} KeptIds(env: Services, gens: seq<GeneratorData>)
    requires NoDuplicates(DataIds(gens))
    ensures NoDuplicates(IdsOfGenerators(KeptGenerators(env, gens)))
    ensures forall id <- IdsOfGenerators(KeptGenerators(env, gens)) :: id in DataIds(gens)
    decreases |gens|
  {
    if gens != [] {
      var n := |gens| - 1;
      assert DataIds(gens) == DataIds(gens[..n]) + [gens[n].id];
      NoDuplicatesConcat(DataIds(gens[..n]), [gens[n].id]);
      KeptIds(env, gens[..n]);
      var before := KeptGenerators(env, gens[..n]);
      OneMoreDistinct(IdsOfGenerators(before), IsKept(env, gens[n]), gens[n].id);
      assert IdsOfGenerators(KeptGenerators(env, gens))
          == IdsOfGenerators(before) + Only(IsKept(env, gens[n]), [gens[n].id]);
    }
  }

  lemma {:induction false} AllIds(env: Services, levels: seq<VoltageLevelData>)
    requires NoDuplicates(InputGeneratorIds(levels))
    ensures NoDuplicates(IdsOfGenerators(AllGenerators(env, levels)))
    ensures forall id <- IdsOfGenerators(AllGenerators(env, levels)) :: id in InputGeneratorIds(levels)
    decreases |levels|
  {
    if levels != [] {
      var n := |levels| - 1;
      NoDuplicatesConcat(InputGeneratorIds(levels[..n]), DataIds(levels[n].generators));
      AllIds(env, levels[..n]);
      KeptIds(env, levels[n].generators);
      var before, kept := AllGenerators(env, levels[..n]), KeptGenerators(env, levels[n].generators);
      NoDuplicatesJoin(IdsOfGenerators(before), IdsOfGenerators(kept));
      assert IdsOfGenerators(AllGenerators(env, levels)) == IdsOfGenerators(before) + IdsOfGenerators(kept);
    }
  }

  lemma {:induction false} IdsAt(gens: seq<Generator>, n: Id)
    requires NoDuplicates(IdsOfGenerators(gens))
    ensures NoDuplicates(IdsOfGenerators(GeneratorsAt(gens, n)))
    ensures forall id <- IdsOfGenerators(GeneratorsAt(gens, n)) :: id in IdsOfGenerators(gens)
    decreases |gens|
  {
    if gens != [] {
      var k := |gens| - 1;
      assert IdsOfGenerators(gens) == IdsOfGenerators(gens[..k]) + [gens[k].id];
      NoDuplicatesConcat(IdsOfGenerators(gens[..k]), [gens[k].id]);
      IdsAt(gens[..k], n);
      var before := GeneratorsAt(gens[..k], n);
      OneMoreDistinct(IdsOfGenerators(before), gens[k].connectedBusId == n, gens[k].id);
      assert IdsOfGenerators(GeneratorsAt(gens, n))
          == IdsOfGenerators(before) + Only(gens[k].connectedBusId == n, [gens[k].id]);
    }
  }

  /** Generators at two nodes with one id are one, so the nodes are. */
  lemma IdAtOneNode(gens: seq<Generator>, m: Id, n: Id, id: Id)
    requires NoDuplicates(IdsOfGenerators(gens))
    requires id in IdsOfGenerators(GeneratorsAt(gens, m)) && id in IdsOfGenerators(GeneratorsAt(gens, n))
    ensures m == n
  {
    GeneratorsAtMembers(gens, m);
    GeneratorsAtMembers(gens, n);
    var i :| 0 <= i < |GeneratorsAt(gens, m)| && GeneratorsAt(gens, m)[i].id == id;
    var j :| 0 <= j < |GeneratorsAt(gens, n)| && GeneratorsAt(gens, n)[j].id == id;
    var g, h := GeneratorsAt(gens, m)[i], GeneratorsAt(gens, n)[j];
    var k, l :| 0 <= k < |gens| && gens[k] == g && 0 <= l < |gens| && gens[l] == h;
    assert IdsOfGenerators(gens)[k] == IdsOfGenerators(gens)[l];
  }

  lemma {:induction false} EmittedUpToIds(ctx: Generators.Context, node: NodeRecord, k: nat)
    requires Usable(ctx, node) && k <= |node.generators| && NoDuplicates(IdsOfGenerators(node.generators))
    ensures NoDuplicates(GeneratorIds(EmittedUpTo(ctx, node, k)))
    ensures forall id <- GeneratorIds(EmittedUpTo(ctx, node, k)) :: id in IdsOfGenerators(node.generators[..k])
  {
    if k > 0 {
      var g, ids := node.generators[k - 1], IdsOfGenerators(node.generators);
      EmittedUpToIds(ctx, node, k - 1);
      var before := EmittedUpTo(ctx, node, k - 1);
      assert IdsOfGenerators(node.generators[..k]) == IdsOfGenerators(node.generators[..k - 1]) + [g.id];
      assert forall i :: 0 <= i < k - 1 ==> ids[i] == node.generators[i].id && ids[i] != ids[k - 1];
      OneMoreDistinct(GeneratorIds(before), IsEmitted(ctx, node, g), g.id);
      assert GeneratorIds(EmittedUpTo(ctx, node, k)) == GeneratorIds(before) + Only(IsEmitted(ctx, node, g), [g.id]);
    }
  }

  /** The node has the generators of its bus. */
  ghost predicate HostsOf(gens: seq<Generator>, node: NodeRecord) {
    node.generators == GeneratorsAt(gens, node.id)
  }

  lemma {:induction false} EmittedIds(ctx: Generators.Context, nodes: seq<NodeRecord>, gens: seq<Generator>)
    requires NoDuplicates(IdsOfGenerators(gens)) && NoDuplicates(HvdcLaws.IdsOf(nodes))
    requires forall n <- nodes :: Usable(ctx, n) && HostsOf(gens, n)
    ensures NoDuplicates(GeneratorIds(Emitted(ctx, nodes)))
    ensures forall id <- GeneratorIds(Emitted(ctx, nodes)) ::
              exists n :: n in nodes && id in IdsOfGenerators(GeneratorsAt(gens, n.id))
    decreases |nodes|
  {
    if nodes != [] {
      var k := |nodes| - 1;
      var node, before := nodes[k], Emitted(ctx, nodes[..k]);
      assert HvdcLaws.IdsOf(nodes) == HvdcLaws.IdsOf(nodes[..k]) + [node.id] && node in nodes;
      NoDuplicatesConcat(HvdcLaws.IdsOf(nodes[..k]), [node.id]);
      EmittedIds(ctx, nodes[..k], gens);
      IdsAt(gens, node.id);
      EmittedUpToIds(ctx, node, |node.generators|);
      assert node.generators[..|node.generators|] == node.generators;
      var more := EmittedUpTo(ctx, node, |node.generators|);
      forall id <- GeneratorIds(more) ensures id !in GeneratorIds(before) {
        NotEmittedBefore(nodes[..k], gens, node, GeneratorIds(before), id);
      }
      NoDuplicatesJoin(GeneratorIds(before), GeneratorIds(more));
      assert GeneratorIds(Emitted(ctx, nodes)) == GeneratorIds(before) + GeneratorIds(more);
      assert forall n <- nodes[..k] :: n in nodes;
    }
  }

  lemma NotEmittedBefore(nodes: seq<NodeRecord>, gens: seq<Generator>, node: NodeRecord, emitted: seq<Id>, id: Id)
    requires NoDuplicates(IdsOfGenerators(gens)) && node.id !in HvdcLaws.IdsOf(nodes)
    requires forall x <- emitted :: exists n :: n in nodes && x in IdsOfGenerators(GeneratorsAt(gens, n.id))
    requires id in IdsOfGenerators(GeneratorsAt(gens, node.id))
    ensures id !in emitted
  {
    forall n <- nodes ensures id !in IdsOfGenerators(GeneratorsAt(gens, n.id)) {
      var i :| 0 <= i < |nodes| && nodes[i] == n;
      assert HvdcLaws.IdsOf(nodes)[i] == n.id && n.id != node.id;
      if id in IdsOfGenerators(GeneratorsAt(gens, n.id)) {
        IdAtOneNode(gens, n.id, node.id, id);
      }
    }
  }

  lemma MainHosts(inp: Inputs, data: NetworkData, ids: seq<Id>)
    requires BuiltFrom(inp, data) && NoDuplicates(ids) && forall u <- ids :: u in inp.nodes
    ensures NoDuplicates(HvdcLaws.IdsOf(inp.Records(ids)))
    ensures forall n <- inp.Records(ids) :: HostsOf(AllGenerators(inp.env, data.voltageLevels), n)
  {
    MainStationsOnBuses(inp, data, ids);
    forall n <- inp.Records(ids) ensures HostsOf(AllGenerators(inp.env, data.voltageLevels), n) {
      var i :| 0 <= i < |ids| && inp.Records(ids)[i] == n;
      assert ids[i] in ids;
      var b := NetworkLaws.BusOfNode(inp.env, data, ids[i]);
    }
  }

  /** The generators of the file have ids of their own, if those of the input have. */
  lemma GeneratorsOfFile(inp: Inputs, data: NetworkData)
    requires BuiltFrom(inp, data) && inp.Valid() && NoDuplicates(InputGeneratorIds(data.voltageLevels))
    ensures NoDuplicates(GeneratorIds(EmittedOn(inp, MainOf(inp))))
    ensures forall id <- GeneratorIds(EmittedOn(inp, MainOf(inp))) :: id in InputGeneratorIds(data.voltageLevels)
  {
    var main, gens := MainOf(inp), AllGenerators(inp.env, data.voltageLevels);
    AllIds(inp.env, data.voltageLevels);
    MainHosts(inp, data, main);
    RecordsAreValid(inp, main);
    EmittedIds(inp.GeneratorContext(), inp.Records(main), gens);
    forall id <- GeneratorIds(EmittedOn(inp, main)) ensures id in InputGeneratorIds(data.voltageLevels) {
      var n :| n in inp.Records(main) && id in IdsOfGenerators(GeneratorsAt(gens, n.id));
      IdsAt(gens, n.id);
    }
  }

  // ---------------------------------------------------------------------------
  // Lines and automatons

  lemma {:induction false} ConnectedIsInput(lines: seq<HvdcData>, l: HvdcLine)
    requires l in ConnectedHvdc(lines)
    ensures l.id in InputLineIds(lines)
    decreases |lines|
  {
    var n := |lines| - 1;
    assert InputLineIds(lines) == InputLineIds(lines[..n]) + [lines[n].line.id];
    if l in ConnectedHvdc(lines[..n]) {
      ConnectedIsInput(lines[..n], l);
    }
  }

  lemma LineIdsMembers(lines: seq<HVDCDefinition>, id: Id) returns (h: HVDCDefinition)
    requires id in LineIds(lines)
    ensures h in lines && h.id == id
  {
    var i :| 0 <= i < |lines| && LineIds(lines)[i] == id;
    h := lines[i];
  }

  lemma LinesOfFile(inp: Inputs, data: NetworkData, m: map<Id, Id>, d: Definition, id: Id)
    requires BuiltFrom(inp, data) && inp.Valid() && HandsOver(inp, m, d) && id in LineIds(d.hvdcLines)
    ensures id in InputLineIds(data.hvdcLines)
  {
    var h := LineIdsMembers(d.hvdcLines, id);
    var l := HandedLine(inp, data, m, d, h);
    ConnectedIsInput(data.hvdcLines, l);
  }

  lemma AutomatonsOfFile(inp: Inputs, models: DynModels.Models, used: set<Id>, d: Definition, id: Id)
    requires HandsOverModels(inp, models, used, d.nbShunts, d) && id in AutomatonIds(d.dynamicModels)
    ensures exists a :: a in inp.doc.dynamicAutomatons && a.id == id
  {
    var i :| 0 <= i < |d.dynamicModels| && AutomatonIds(d.dynamicModels)[i] == id;
    HandedModel(inp, models, used, d.nbShunts, d, d.dynamicModels[i]);
    AutomatonOfWalked(inp.doc, inp.libraryExists, inp.Records(inp.order), inp.levelNodes, id);
  }

  // ---------------------------------------------------------------------------
  // The files

  lemma FourParts(a: seq<Id>, b: seq<Id>, c: seq<Id>, d: seq<Id>)
    requires NoDuplicates(a + b + c + d)
    ensures NoDuplicates(a) && NoDuplicates(b) && NoDuplicates(c) && NoDuplicates(d)
    ensures Disjoint(a, b) && Disjoint(a, c) && Disjoint(a, d) && Disjoint(b, c) && Disjoint(b, d) && Disjoint(c, d)
  {
    NoDuplicatesConcat(a + b + c, d);
    NoDuplicatesConcat(a + b, c);
    NoDuplicatesConcat(a, b);
    DisjointConcat(a + b, c, d);
    DisjointConcat(a, b, d);
    DisjointConcat(a, b, c);
  }

  lemma InParts(a: seq<Id>, b: seq<Id>, c: seq<Id>, d: seq<Id>, x: Id)
    ensures x in a + b + c + d <==> x in a || x in b || x in c || x in d
  {
  }

  /** The ids handed over, each where it comes from. */
  ghost predicate FromInput(data: NetworkData, doc: AssemblingDocument, d: Definition) {
    && NoDuplicates(GeneratorIds(d.generators))
    && (forall id <- GeneratorIds(d.generators) :: id in InputGeneratorIds(data.voltageLevels))
    && NoDuplicates(LineIds(d.hvdcLines))
    && (forall id <- LineIds(d.hvdcLines) :: id in InputLineIds(data.hvdcLines))
    && NoDuplicates(AutomatonIds(d.dynamicModels))
    && (forall id <- AutomatonIds(d.dynamicModels) :: exists a :: a in doc.dynamicAutomatons && a.id == id)
  }

  lemma HandedFromInput(inp: Inputs, data: NetworkData, m: map<Id, Id>, models: DynModels.Models, used: set<Id>,
                        d: Definition)
    requires BuiltFrom(inp, data) && inp.Valid() && NoDuplicates(InputGeneratorIds(data.voltageLevels))
    requires HandsOver(inp, m, d) && HandsOverModels(inp, models, used, d.nbShunts, d)
    ensures FromInput(data, inp.doc, d)
  {
    GeneratorsOfFile(inp, data);
    forall id <- LineIds(d.hvdcLines) ensures id in InputLineIds(data.hvdcLines) {
      LinesOfFile(inp, data, m, d, id);
    }
    forall id <- AutomatonIds(d.dynamicModels) ensures exists a :: a in inp.doc.dynamicAutomatons && a.id == id {
      AutomatonsOfFile(inp, models, used, d, id);
    }
  }

  lemma NotReserved(ids: seq<Id>, buses: seq<Id>, others: seq<Id>)
    requires forall id <- ids :: id == SIGNALN_MODEL || !Reserved(id)
    ensures Disjoint(ids, NQIds(buses) + NQIds(others))
  {
    forall x <- NQIds(buses) + NQIds(others) ensures x !in ids {
      if x in NQIds(buses) {
        NQIdsOnly(buses, x);
      } else {
        NQIdsOnly(others, x);
      }
      assert NQ_PREFIX <= x && |SIGNALN_MODEL| < |NQ_PREFIX|;
    }
  }

  /** The elements handed over have ids of their own. */
  lemma OwnIdsDistinct(data: NetworkData, doc: AssemblingDocument, d: Definition)
    requires DistinctElements(data, doc, d.loads, d.svarcs) && FromInput(data, doc, d)
    ensures NoDuplicates(OwnModelIds(d))
    ensures forall id <- OwnModelIds(d) :: id == SIGNALN_MODEL || !Reserved(id)
  {
    var gens, lines, autos := GeneratorIds(d.generators), LineIds(d.hvdcLines), AutomatonIds(d.dynamicModels);
    var g, l := InputGeneratorIds(data.voltageLevels), InputLineIds(data.hvdcLines);
    FourParts(d.loads, g, l, d.svarcs);
    forall x ensures x in d.loads + g + l + d.svarcs <==> x in d.loads || x in g || x in l || x in d.svarcs {
      InParts(d.loads, g, l, d.svarcs, x);
    }
    SixParts(d.loads, gens, lines, autos, d.svarcs);
  }

  lemma SixParts(loads: seq<Id>, gens: seq<Id>, lines: seq<Id>, autos: seq<Id>, svarcs: seq<Id>)
    requires NoDuplicates(loads) && NoDuplicates(gens) && NoDuplicates(lines) && NoDuplicates(autos)
    requires NoDuplicates(svarcs)
    requires Disjoint(loads, gens) && Disjoint(loads, lines) && Disjoint(loads, autos) && Disjoint(loads, svarcs)
    requires Disjoint(gens, lines) && Disjoint(gens, autos) && Disjoint(gens, svarcs)
    requires Disjoint(lines, autos) && Disjoint(lines, svarcs) && Disjoint(autos, svarcs)
    requires forall s <- [loads, gens, lines, autos, svarcs] :: SIGNALN_MODEL !in s
    ensures NoDuplicates(loads + [SIGNALN_MODEL] + gens + lines + (autos + svarcs))
  {
    assert forall s <- [loads, gens, lines, autos, svarcs] :: SIGNALN_MODEL !in s;
    assert [loads, gens, lines, autos, svarcs][0] == loads && [loads, gens, lines, autos, svarcs][1] == gens;
    assert [loads, gens, lines, autos, svarcs][2] == lines;
    NoDuplicatesConcat(loads, [SIGNALN_MODEL]);
    NoDuplicatesConcat(loads + [SIGNALN_MODEL], gens);
    NoDuplicatesConcat(loads + [SIGNALN_MODEL] + gens, lines);
    NoDuplicatesConcat(autos, svarcs);
    NoDuplicatesConcat(loads + [SIGNALN_MODEL] + gens + lines, autos + svarcs);
    assert [loads, gens, lines, autos, svarcs][3] == autos && [loads, gens, lines, autos, svarcs][4] == svarcs;
  }

  /** The model ids of the DYD file are unique exactly if no bus is in both maps. */
  lemma ModelIdsOfNetwork(data: NetworkData, doc: AssemblingDocument, d: Definition)
    requires DistinctElements(data, doc, d.loads, d.svarcs) && FromInput(data, doc, d)
    requires NoDuplicates(d.busesWithDynamicModel) && NoDuplicates(d.vscBuses)
    ensures NoDuplicates(ModelIds(FileModels(d))) <==> Disjoint(d.busesWithDynamicModel, d.vscBuses)
  {
    ModelIdsUnique(d);
    OwnIdsDistinct(data, doc, d);
    NotReserved(OwnModelIds(d), d.busesWithDynamicModel, d.vscBuses);
  }

  function SettingIds(settings: seq<Setting>): seq<Id> {
    seq(|settings|, i requires 0 <= i < |settings| => settings[i].id)
  }

  lemma {:induction false} DescribedIdsDistinct(d: Definition, settings: seq<Setting>)
    requires NoDuplicates(SettingIds(settings))
    ensures NoDuplicates(DescribedIds(d, settings))
    ensures forall id <- DescribedIds(d, settings) :: id in SettingIds(settings) && id in AutomatonIds(d.dynamicModels)
    decreases |settings|
  {
    if settings != [] {
      var n := |settings| - 1;
      var s := settings[n];
      assert SettingIds(settings) == SettingIds(settings[..n]) + [s.id];
      NoDuplicatesConcat(SettingIds(settings[..n]), [s.id]);
      DescribedIdsDistinct(d, settings[..n]);
      OneMoreDistinct(DescribedIds(d, settings[..n]), Par.HasModel(d.dynamicModels, s.id), s.id);
      if Par.HasModel(d.dynamicModels, s.id) {
        var m :| m in d.dynamicModels && m.id == s.id;
        var i :| 0 <= i < |d.dynamicModels| && d.dynamicModels[i] == m;
        assert AutomatonIds(d.dynamicModels)[i] == s.id;
      }
    }
  }

  /** No compensator, line or described model is named like a set of a generator. */
  ghost predicate ElementsAreApart(d: Definition) {
    forall id <- ElementSetIds(d) :: !IsGeneratorSet(d, id)
  }

  lemma ElementSetIdsDistinct(data: NetworkData, doc: AssemblingDocument, d: Definition)
    requires DistinctElements(data, doc, d.loads, d.svarcs) && FromInput(data, doc, d)
    requires NoDuplicates(SettingIds(d.settings))
    ensures NoDuplicates(ElementSetIds(d)) && forall id <- ElementSetIds(d) :: !Reserved(id)
  {
    var lines, described := LineIds(d.hvdcLines), DescribedIds(d, d.settings);
    var g, l := InputGeneratorIds(data.voltageLevels), InputLineIds(data.hvdcLines);
    FourParts(d.loads, g, l, d.svarcs);
    forall x ensures x in d.loads + g + l + d.svarcs <==> x in d.loads || x in g || x in l || x in d.svarcs {
      InParts(d.loads, g, l, d.svarcs, x);
    }
    DescribedIdsDistinct(d, d.settings);
    NoDuplicatesConcat(d.svarcs, lines);
    NoDuplicatesConcat(d.svarcs + lines, described);
  }

  /** The set ids of the PAR file are unique exactly if moreover the hashes are and no
      element is named like a set of a generator. */
  lemma SetIdsOfNetwork(data: NetworkData, doc: AssemblingDocument, d: Definition)
    requires DistinctElements(data, doc, d.loads, d.svarcs) && FromInput(data, doc, d)
    requires HashesAreNumbers(d) && NoDuplicates(SettingIds(d.settings))
    requires NoDuplicates(d.busesWithDynamicModel) && NoDuplicates(d.vscBuses)
    ensures NoDuplicates(SetIds(Par.Written(d).sets))
       <==> && NoDuplicates(DiagramHashes(d, d.generators)) && ElementsAreApart(d)
            && Disjoint(d.busesWithDynamicModel, d.vscBuses)
  {
    SetIdsUnique(d);
    ElementSetIdsDistinct(data, doc, d);
    NotReserved(ElementSetIds(d), d.busesWithDynamicModel, d.vscBuses);
  }

  /** What the two files promise of their ids. */
  ghost predicate IdsUnique(inp: Inputs, data: NetworkData, d: Definition, models: seq<Model>, f: Par.File) {
    DistinctElements(data, inp.doc, d.loads, d.svarcs) ==>
      && (NoDuplicates(ModelIds(models)) <==> Disjoint(d.busesWithDynamicModel, d.vscBuses))
      && (HashesAreNumbers(d) && NoDuplicates(SettingIds(d.settings)) ==>
            (NoDuplicates(SetIds(f.sets))
             <==> && NoDuplicates(DiagramHashes(d, d.generators)) && ElementsAreApart(d)
                  && Disjoint(d.busesWithDynamicModel, d.vscBuses)))
  }

  /** End to end. */
  lemma IdsOfFiles(inp: Inputs, data: NetworkData, m: map<Id, Id>, models: DynModels.Models, used: set<Id>,
                   d: Definition)
    requires BuiltFrom(inp, data) && inp.Valid()
    requires HandsOver(inp, m, d) && HandsOverModels(inp, models, used, d.nbShunts, d)
    ensures IdsUnique(inp, data, d, FileModels(d), Par.Written(d))
  {
    if DistinctElements(data, inp.doc, d.loads, d.svarcs) {
      FourParts(d.loads, InputGeneratorIds(data.voltageLevels), InputLineIds(data.hvdcLines), d.svarcs);
      HandedFromInput(inp, data, m, models, used, d);
      ModelIdsOfNetwork(data, inp.doc, d);
      if HashesAreNumbers(d) && NoDuplicates(SettingIds(d.settings)) {
        SetIdsOfNetwork(data, inp.doc, d);
      }
    }
  }
}
