/**
 When the ids of the two files are unique: a bus that both generators and VSC
 converters regulate is the one case in which distinct elements give equal ids.
 */
module UniqueIds {
  import opened Reachability
  import opened Network
  import opened Generators
  import opened Hvdc
  import opened HvdcOutputLaws
  import opened CountSettings
  import opened Dyd
  import opened Par
  import opened WriterLaws

  // ---------------------------------------------------------------------------
  // Sequences without duplicates

  ghost predicate Disjoint<T>(s: seq<T>, t: seq<T>) {
    forall x <- s :: x !in t
  }

  lemma NoDuplicatesConcat<T>(s: seq<T>, t: seq<T>)
    ensures NoDuplicates(s + t) <==> NoDuplicates(s) && NoDuplicates(t) && Disjoint(s, t)
  {
    if NoDuplicates(s) && NoDuplicates(t) && Disjoint(s, t) {
      NoDuplicatesJoin(s, t);
    }
    if NoDuplicates(s + t) {
      forall i, j | 0 <= i < j < |s| ensures s[i] != s[j] {
        assert (s + t)[i] != (s + t)[j];
      }
      forall i, j | 0 <= i < j < |t| ensures t[i] != t[j] {
        assert (s + t)[|s| + i] != (s + t)[|s| + j];
      }
      forall i, j | 0 <= i < |s| && 0 <= j < |t| ensures s[i] != t[j] {
        assert (s + t)[i] == s[i] && (s + t)[|s| + j] == t[j];
      }
    }
  }

  lemma {:induction false} NoDuplicatesByCount<T>(s: seq<T>)
    ensures NoDuplicates(s) <==> forall x <- s :: multiset(s)[x] == 1
    decreases |s|
  {
    if s != [] {
      var prefix, last := s[..|s| - 1], s[|s| - 1];
      assert s == prefix + [last] && multiset(s) == multiset(prefix) + multiset{last};
      NoDuplicatesByCount(prefix);
      NoDuplicatesConcat(prefix, [last]);
      forall x <- prefix ensures x in s && multiset(prefix)[x] >= 1 {
        assert x in multiset(prefix);
      }
      assert last in prefix <==> last in multiset(prefix);
      assert last in s;
    }
  }

  lemma NoDuplicatesReordered<T>(s: seq<T>, t: seq<T>)
    requires multiset(s) == multiset(t)
    ensures NoDuplicates(s) <==> NoDuplicates(t)
  {
    NoDuplicatesByCount(s);
    NoDuplicatesByCount(t);
    assert forall x :: x in s <==> x in multiset(s);
    assert forall x :: x in t <==> x in multiset(t);
  }

  // ---------------------------------------------------------------------------
  // Ids of regulation models

  function NQIds(buses: seq<Id>): seq<Id> {
    MapSeq(b => NQ_PREFIX + b, buses)
  }

  lemma NQIdsMembers(buses: seq<Id>, b: Id)
    ensures NQ_PREFIX + b in NQIds(buses) <==> b in buses
  {
    if b in buses {
      var i :| 0 <= i < |buses| && buses[i] == b;
      assert NQIds(buses)[i] == NQ_PREFIX + b;
    }
    if NQ_PREFIX + b in NQIds(buses) {
      var i :| 0 <= i < |buses| && NQIds(buses)[i] == NQ_PREFIX + b;
      SuffixCancels(NQ_PREFIX, buses[i], b);
    }
  }

  lemma NQIdsDistinct(buses: seq<Id>)
    ensures NoDuplicates(NQIds(buses)) <==> NoDuplicates(buses)
  {
    forall i, j | 0 <= i < j < |buses| ensures NQIds(buses)[i] == NQIds(buses)[j] <==> buses[i] == buses[j] {
      if NQIds(buses)[i] == NQIds(buses)[j] {
        SuffixCancels(NQ_PREFIX, buses[i], buses[j]);
      }
    }
  }

  lemma NQIdsDisjoint(buses: seq<Id>, others: seq<Id>)
    ensures Disjoint(NQIds(buses), NQIds(others)) <==> Disjoint(buses, others)
  {
    forall b <- buses ensures NQ_PREFIX + b in NQIds(buses) && (NQ_PREFIX + b in NQIds(others) <==> b in others) {
      NQIdsMembers(buses, b);
      NQIdsMembers(others, b);
    }
    forall x <- NQIds(buses) ensures exists b :: b in buses && NQ_PREFIX + b == x {
      var i :| 0 <= i < |buses| && NQIds(buses)[i] == x;
      assert buses[i] in buses;
    }
  }

  /** The ids of the regulation models of two lists of buses are distinct exactly if
      the buses are. */
  lemma RegulationIdsDistinct(buses: seq<Id>, others: seq<Id>)
    ensures NoDuplicates(NQIds(buses) + NQIds(others))
       <==> NoDuplicates(buses) && NoDuplicates(others) && Disjoint(buses, others)
  {
    NoDuplicatesConcat(NQIds(buses), NQIds(others));
    NQIdsDistinct(buses);
    NQIdsDistinct(others);
    NQIdsDisjoint(buses, others);
  }

  /** Ids that are distinct, and the ids of regulation models. */
  lemma WithRegulationIds(own: seq<Id>, buses: seq<Id>, others: seq<Id>)
    ensures NoDuplicates(own + (NQIds(buses) + NQIds(others)))
       <==> && NoDuplicates(own) && Disjoint(own, NQIds(buses) + NQIds(others))
            && NoDuplicates(buses) && NoDuplicates(others) && Disjoint(buses, others)
  {
    NoDuplicatesConcat(own, NQIds(buses) + NQIds(others));
    RegulationIdsDistinct(buses, others);
  }

  // ---------------------------------------------------------------------------
  // The DYD file

  function ModelIds(models: seq<Model>): seq<Id> {
    MapSeq((m: Model) => m.id, models)
  }

  /** The ids of the models other than the regulation models. */
  function OwnModelIds(d: Definition): seq<Id> {
    d.loads + [SIGNALN_MODEL] + GeneratorIds(d.generators) + LineIds(d.hvdcLines)
    + (AutomatonIds(d.dynamicModels) + d.svarcs)
  }

  lemma ModelIdsConcat(s: seq<Model>, t: seq<Model>)
    ensures ModelIds(s + t) == ModelIds(s) + ModelIds(t)
  {
  }

  lemma IdsOfMapped<S>(f: S -> Model, s: seq<S>, ids: seq<Id>)
    requires |ids| == |s| && forall i :: 0 <= i < |s| ==> f(s[i]).id == ids[i]
    ensures ModelIds(MapSeq(f, s)) == ids
  {
    var models := MapSeq(f, s);
    assert |ModelIds(models)| == |ids|;
    forall i | 0 <= i < |ids| ensures ModelIds(models)[i] == ids[i] {
      assert models[i] == f(s[i]);
    }
  }

  lemma FirstModelIds(d: Definition)
    ensures ModelIds(MapSeq(WriteLoad, d.loads)) == d.loads && ModelIds(WriteConstantsModel()) == [SIGNALN_MODEL]
    ensures ModelIds(MapSeq(GeneratorWriter(d), d.generators)) == GeneratorIds(d.generators)
    ensures ModelIds(MapSeq(WriteHvdcLine, d.hvdcLines)) == LineIds(d.hvdcLines)
  {
    IdsOfMapped(WriteLoad, d.loads, d.loads);
    IdsOfMapped(GeneratorWriter(d), d.generators, GeneratorIds(d.generators));
    IdsOfMapped(WriteHvdcLine, d.hvdcLines, LineIds(d.hvdcLines));
  }

  lemma LastModelIds(d: Definition)
    ensures ModelIds(MapSeq(WriteVRRemote, d.busesWithDynamicModel)) == NQIds(d.busesWithDynamicModel)
    ensures ModelIds(MapSeq(WriteVRRemote, d.vscBuses)) == NQIds(d.vscBuses)
    ensures ModelIds(MapSeq(WriteDynamicModel, d.dynamicModels)) == AutomatonIds(d.dynamicModels)
    ensures ModelIds(MapSeq(WriteSVarC, d.svarcs)) == d.svarcs
  {
    IdsOfMapped(WriteVRRemote, d.busesWithDynamicModel, NQIds(d.busesWithDynamicModel));
    IdsOfMapped(WriteVRRemote, d.vscBuses, NQIds(d.vscBuses));
    IdsOfMapped(WriteDynamicModel, d.dynamicModels, AutomatonIds(d.dynamicModels));
    IdsOfMapped(WriteSVarC, d.svarcs, d.svarcs);
  }

  lemma ModelIdsInOrder(d: Definition)
    ensures ModelIds(FileModels(d))
         == d.loads + [SIGNALN_MODEL] + GeneratorIds(d.generators) + LineIds(d.hvdcLines)
            + NQIds(d.busesWithDynamicModel) + NQIds(d.vscBuses) + AutomatonIds(d.dynamicModels) + d.svarcs
  {
    var m1 := MapSeq(WriteLoad, d.loads);
    var m2 := m1 + WriteConstantsModel();
    var m3 := m2 + MapSeq(GeneratorWriter(d), d.generators);
    var m4 := m3 + MapSeq(WriteHvdcLine, d.hvdcLines);
    var m5 := m4 + MapSeq(WriteVRRemote, d.busesWithDynamicModel);
    var m6 := m5 + MapSeq(WriteVRRemote, d.vscBuses);
    var m7 := m6 + MapSeq(WriteDynamicModel, d.dynamicModels);
    ModelIdsConcat(m1, WriteConstantsModel());
    ModelIdsConcat(m2, MapSeq(GeneratorWriter(d), d.generators));
    ModelIdsConcat(m3, MapSeq(WriteHvdcLine, d.hvdcLines));
    ModelIdsConcat(m4, MapSeq(WriteVRRemote, d.busesWithDynamicModel));
    ModelIdsConcat(m5, MapSeq(WriteVRRemote, d.vscBuses));
    ModelIdsConcat(m6, MapSeq(WriteDynamicModel, d.dynamicModels));
    ModelIdsConcat(m7, MapSeq(WriteSVarC, d.svarcs));
    FirstModelIds(d);
    LastModelIds(d);
  }

  lemma Reordered<T>(a: seq<T>, b: seq<T>, c: seq<T>, d: seq<T>, e: seq<T>)
    ensures multiset(a + b + c + d + e) == multiset((a + (d + e)) + (b + c))
  {
  }

  /** The model ids of the DYD file are unique exactly if those of the elements are,
      no element has the id of a regulation model, and no bus is listed twice,
      neither in one of the bus maps nor in both. */
  lemma ModelIdsUnique(d: Definition)
    ensures NoDuplicates(ModelIds(FileModels(d)))
       <==> && NoDuplicates(OwnModelIds(d))
            && Disjoint(OwnModelIds(d), NQIds(d.busesWithDynamicModel) + NQIds(d.vscBuses))
            && NoDuplicates(d.busesWithDynamicModel) && NoDuplicates(d.vscBuses)
            && Disjoint(d.busesWithDynamicModel, d.vscBuses)
  {
    ModelIdsInOrder(d);
    var first := d.loads + [SIGNALN_MODEL] + GeneratorIds(d.generators) + LineIds(d.hvdcLines);
    Reordered(first, NQIds(d.busesWithDynamicModel), NQIds(d.vscBuses), AutomatonIds(d.dynamicModels), d.svarcs);
    NoDuplicatesReordered(ModelIds(FileModels(d)),
                          OwnModelIds(d) + (NQIds(d.busesWithDynamicModel) + NQIds(d.vscBuses)));
    WithRegulationIds(OwnModelIds(d), d.busesWithDynamicModel, d.vscBuses);
  }

  // ---------------------------------------------------------------------------
  // The PAR file

  function SetIds(sets: seq<ParametersSet>): seq<Id> {
    MapSeq((s: ParametersSet) => s.id, sets)
  }

  /** The hashes of the generators with a diagram, in order. */
  function DiagramHashes(d: Definition, gens: seq<GeneratorDefinition>): seq<string> {
    if gens == [] then []
    else
      DiagramHashes(d, gens[..|gens| - 1]) + Only(gens[|gens| - 1].IsUsingDiagram(), [d.hash(gens[|gens| - 1].id)])
  }

  lemma {:induction false} DiagramHashesMembers(d: Definition, gens: seq<GeneratorDefinition>, x: string)
    ensures x in DiagramHashes(d, gens) <==> exists g :: g in gens && g.IsUsingDiagram() && d.hash(g.id) == x
    decreases |gens|
  {
    if gens != [] {
      var n := |gens| - 1;
      DiagramHashesMembers(d, gens[..n], x);
      assert gens == gens[..n] + [gens[n]];
    }
  }

  /** Hashes are written as decimal numbers. */
  ghost predicate HashesAreNumbers(d: Definition) {
    forall id: Id :: |d.hash(id)| > 0 && '0' <= d.hash(id)[0] <= '9'
  }

  /** No other set is named like a hash. */
  lemma HashIsApart(d: Definition, id: Id, model: ModelType, fixedP: bool, b: Id)
    requires HashesAreNumbers(d)
    ensures d.hash(id) != LOAD_PAR_ID && d.hash(id) != GeneratorSetId(model, fixedP) && d.hash(id) != NQ_PREFIX + b
  {
    assert (NQ_PREFIX + b)[0] == 'M' && LOAD_PAR_ID[0] == 'G';
    assert GeneratorSetId(model, fixedP)[0] in ['p', 'r', 's'];
  }

  lemma SetIdsMembers(f: File, id: string)
    ensures id in SetIds(f.sets) <==> f.HasSet(id)
  {
    InMapSeq((s: ParametersSet) => s.id, f.sets, id);
  }

  lemma SetIdsOfMore(sets: seq<ParametersSet>, s: ParametersSet)
    ensures SetIds(sets + [s]) == SetIds(sets) + [s.id]
  {
  }

  /** The sets of loads and generators have unique ids exactly if the hashes do. */
  lemma {:induction false} GeneratorSetIdsUnique(d: Definition, gens: seq<GeneratorDefinition>)
    requires HashesAreNumbers(d)
    ensures NoDuplicates(SetIds(WithGenerators(d, LOADS_ONLY, gens).sets)) <==> NoDuplicates(DiagramHashes(d, gens))
    decreases |gens|
  {
    if gens != [] {
      var n := |gens| - 1;
      var g, before := gens[n], WithGenerators(d, LOADS_ONLY, gens[..n]);
      GeneratorSetIdsUnique(d, gens[..n]);
      var id := SetOfGenerator(d, g);
      SetIdsMembers(before, id);
      NoDuplicatesConcat(SetIds(before.sets), [id]);
      if g.IsUsingDiagram() {
        HashIsNew(d, gens[..n], id);
        NoDuplicatesConcat(DiagramHashes(d, gens[..n]), [id]);
        SetIdsOfMore(before.sets, ParametersSet(id, [GeneratorMacroSetId(g.model, d.isZero(g.targetP))], []));
      } else {
        SetIdsOfMore(before.sets, ParametersSet(id, [], []));
        assert DiagramHashes(d, gens) == DiagramHashes(d, gens[..n]);
      }
    } else {
      assert |WithGenerators(d, LOADS_ONLY, gens).sets| == 1;
    }
  }

  lemma HashIsNew(d: Definition, gens: seq<GeneratorDefinition>, hash: string)
    requires HashesAreNumbers(d) && exists id: Id :: d.hash(id) == hash
    ensures WithGenerators(d, LOADS_ONLY, gens).HasSet(hash) <==> hash in DiagramHashes(d, gens)
  {
    GeneratorSets(d, gens, hash);
    DiagramHashesMembers(d, gens, hash);
    var id: Id :| d.hash(id) == hash;
    HashIsApart(d, id, SIGNALN, true, []);
    forall g <- gens ensures !g.IsUsingDiagram() ==> SetOfGenerator(d, g) != hash {
      HashIsApart(d, id, g.model, d.isZero(g.targetP), []);
    }
  }

  /** The ids of the settings that describe a model, in order. */
  function DescribedIds(d: Definition, settings: seq<Setting>): seq<Id> {
    if settings == [] then []
    else
      var s := settings[|settings| - 1];
      DescribedIds(d, settings[..|settings| - 1]) + Only(HasModel(d.dynamicModels, s.id), [s.id])
  }

  /** The ids of the sets of compensators, lines and dynamic models. */
  function ElementSetIds(d: Definition): seq<Id> {
    d.svarcs + LineIds(d.hvdcLines) + DescribedIds(d, d.settings)
  }

  function GeneratorFileIds(d: Definition): seq<Id> {
    SetIds(WithGenerators(d, LOADS_ONLY, d.generators).sets)
  }

  lemma {:induction false} SettingIds(d: Definition, f: File, settings: seq<Setting>)
    ensures SetIds(WithSettings(d, f, settings).sets) == SetIds(f.sets) + DescribedIds(d, settings)
    decreases |settings|
  {
    if settings != [] {
      var n := |settings| - 1;
      SettingIds(d, f, settings[..n]);
      SetIdsOfMore(WithSettings(d, f, settings[..n]).sets, SetOfSetting(d, settings[n]));
    } else {
      assert SetIds(f.sets) + [] == SetIds(f.sets);
    }
  }

  lemma {:induction false} VRRemoteIds(f: File, buses: seq<Id>)
    ensures SetIds(WithVRRemotes(f, buses).sets) == SetIds(f.sets) + NQIds(buses)
    decreases |buses|
  {
    if buses != [] {
      var n := |buses| - 1;
      VRRemoteIds(f, buses[..n]);
      assert NQIds(buses) == NQIds(buses[..n]) + [NQ_PREFIX + buses[n]];
      SetIdsOfMore(WithVRRemotes(f, buses[..n]).sets, ParametersSet(NQ_PREFIX + buses[n], [VR_MACRO_SET], []));
    } else {
      assert SetIds(f.sets) + NQIds([]) == SetIds(f.sets);
    }
  }

  lemma SetIdsConcat(sets: seq<ParametersSet>, more: seq<ParametersSet>, ids: seq<Id>)
    requires |more| == |ids| && forall i :: 0 <= i < |more| ==> more[i].id == ids[i]
    ensures SetIds(sets + more) == SetIds(sets) + ids
  {
    assert SetIds(more) == ids;
  }

  lemma ElementIds(f: File, svarcs: seq<Id>, lines: seq<HVDCDefinition>)
    ensures SetIds(WithHvdcLines(WithSVarCs(f, svarcs), lines).sets)
         == SetIds(f.sets) + svarcs + LineIds(lines)
  {
    var f1 := WithSVarCs(f, svarcs);
    SetIdsConcat(f.sets, f1.sets[|f.sets|..], svarcs);
    assert f1.sets == f.sets + f1.sets[|f.sets|..];
    var f2 := WithHvdcLines(f1, lines);
    SetIdsConcat(f1.sets, f2.sets[|f1.sets|..], LineIds(lines));
    assert f2.sets == f1.sets + f2.sets[|f1.sets|..];
  }

  lemma SetIdsInOrder(d: Definition)
    ensures SetIds(Written(d).sets)
         == SetIds(WithGenerators(d, LOADS_ONLY, d.generators).sets) + d.svarcs
            + LineIds(d.hvdcLines)
            + NQIds(d.busesWithDynamicModel) + NQIds(d.vscBuses) + DescribedIds(d, d.settings)
  {
    var f1 := WithGenerators(d, LOADS_ONLY, d.generators);
    var f2 := WithHvdcLines(WithSVarCs(f1, d.svarcs), d.hvdcLines);
    var f3 := WithVRRemotes(f2, d.busesWithDynamicModel);
    ElementIds(f1, d.svarcs, d.hvdcLines);
    VRRemoteIds(f2, d.busesWithDynamicModel);
    VRRemoteIds(f3, d.vscBuses);
    SettingIds(d, WithVRRemotes(f3, d.vscBuses), d.settings);
  }

  lemma LastBeforeRegulation<T>(a: seq<T>, b: seq<T>, c: seq<T>, n: seq<T>, m: seq<T>, e: seq<T>)
    ensures NoDuplicates(a + b + c + n + m + e) <==> NoDuplicates((a + (b + c + e)) + (n + m))
  {
    var s, t := a + b + c + n + m + e, (a + (b + c + e)) + (n + m);
    assert multiset(s) == multiset(a) + multiset(b) + multiset(c) + multiset(n) + multiset(m) + multiset(e);
    assert multiset(t) == multiset(a) + multiset(b) + multiset(c) + multiset(e) + multiset(n) + multiset(m);
    NoDuplicatesReordered(s, t);
  }

  lemma SetIdsSplit(d: Definition)
    ensures NoDuplicates(SetIds(Written(d).sets))
       <==> NoDuplicates((GeneratorFileIds(d) + ElementSetIds(d)) + (NQIds(d.busesWithDynamicModel) + NQIds(d.vscBuses)))
  {
    SetIdsInOrder(d);
    LastBeforeRegulation(GeneratorFileIds(d), d.svarcs, LineIds(d.hvdcLines), NQIds(d.busesWithDynamicModel),
                         NQIds(d.vscBuses), DescribedIds(d, d.settings));
  }

  /** The set of loads, or one that a generator refers to, has the id. */
  ghost predicate IsGeneratorSet(d: Definition, id: Id) {
    id == LOAD_PAR_ID || exists g :: g in d.generators && SetOfGenerator(d, g) == id
  }

  lemma GeneratorFileIdsMembers(d: Definition, id: Id)
    ensures id in GeneratorFileIds(d) <==> IsGeneratorSet(d, id)
  {
    SetIdsMembers(WithGenerators(d, LOADS_ONLY, d.generators), id);
    GeneratorSets(d, d.generators, id);
  }

  lemma NoRegulationSet(d: Definition, b: Id)
    requires HashesAreNumbers(d)
    ensures !IsGeneratorSet(d, NQ_PREFIX + b)
  {
    assert (NQ_PREFIX + b)[0] == 'M' && LOAD_PAR_ID[0] == 'G';
    forall g <- d.generators ensures SetOfGenerator(d, g) != NQ_PREFIX + b {
      HashIsApart(d, g.id, g.model, d.isZero(g.targetP), b);
      assert GeneratorSetId(g.model, d.isZero(g.targetP))[0] in ['p', 'r', 's'];
    }
  }

  lemma NQIdsOnly(buses: seq<Id>, x: Id)
    requires x in NQIds(buses)
    ensures exists b :: b in buses && x == NQ_PREFIX + b
  {
    var i :| 0 <= i < |buses| && NQIds(buses)[i] == x;
    assert buses[i] in buses;
  }

  lemma GeneratorSetsAreApart(d: Definition)
    requires HashesAreNumbers(d)
    ensures Disjoint(GeneratorFileIds(d), NQIds(d.busesWithDynamicModel) + NQIds(d.vscBuses))
  {
    forall x <- NQIds(d.busesWithDynamicModel) + NQIds(d.vscBuses) ensures x !in GeneratorFileIds(d) {
      if x in NQIds(d.busesWithDynamicModel) {
        NQIdsOnly(d.busesWithDynamicModel, x);
      } else {
        NQIdsOnly(d.vscBuses, x);
      }
      var b :| x == NQ_PREFIX + b;
      NoRegulationSet(d, b);
      GeneratorFileIdsMembers(d, x);
    }
  }

  /** The ids of compensators, lines and described models are distinct, none is that of
      a set of a generator, and none that of a regulation model. */
  ghost predicate ElementSetsDistinct(d: Definition) {
    && NoDuplicates(ElementSetIds(d))
    && (forall id <- ElementSetIds(d) :: !IsGeneratorSet(d, id))
    && Disjoint(ElementSetIds(d), NQIds(d.busesWithDynamicModel) + NQIds(d.vscBuses))
  }

  lemma GeneratorsAndElements(d: Definition)
    ensures Disjoint(GeneratorFileIds(d), ElementSetIds(d)) <==> forall id <- ElementSetIds(d) :: !IsGeneratorSet(d, id)
  {
    forall id ensures id in GeneratorFileIds(d) <==> IsGeneratorSet(d, id) {
      GeneratorFileIdsMembers(d, id);
    }
  }

  lemma DisjointConcat<T>(s: seq<T>, t: seq<T>, u: seq<T>)
    ensures Disjoint(s + t, u) <==> Disjoint(s, u) && Disjoint(t, u)
  {
    assert forall x <- s + t :: x in s || x in t;
    assert forall x <- s :: x in s + t;
    assert forall x <- t :: x in s + t;
  }

  /** The set ids of the PAR file are unique exactly if the hashes of the generators
      with a diagram are distinct, so are the ids of the other elements and apart
      from the sets of generators and regulation models, and no bus is listed twice. */
  lemma SetIdsUnique(d: Definition)
    requires HashesAreNumbers(d)
    ensures NoDuplicates(SetIds(Written(d).sets))
       <==> && NoDuplicates(DiagramHashes(d, d.generators)) && ElementSetsDistinct(d)
            && NoDuplicates(d.busesWithDynamicModel) && NoDuplicates(d.vscBuses)
            && Disjoint(d.busesWithDynamicModel, d.vscBuses)
  {
    var own, nqs := GeneratorFileIds(d) + ElementSetIds(d), NQIds(d.busesWithDynamicModel) + NQIds(d.vscBuses);
    SetIdsSplit(d);
    WithRegulationIds(own, d.busesWithDynamicModel, d.vscBuses);
    NoDuplicatesConcat(GeneratorFileIds(d), ElementSetIds(d));
    GeneratorSetIdsUnique(d, d.generators);
    GeneratorsAndElements(d);
    GeneratorSetsAreApart(d);
    DisjointConcat(GeneratorFileIds(d), ElementSetIds(d), nqs);
  }

  /** So a bus that both generators and VSC converters regulate repeats its model in
      the DYD file and its set in the PAR file. */
  lemma SharedBusRepeats(d: Definition, b: Id)
    requires b in d.busesWithDynamicModel && b in d.vscBuses
    ensures !NoDuplicates(ModelIds(FileModels(d))) && !NoDuplicates(SetIds(Written(d).sets))
  {
    ModelIdsUnique(d);
    SetIdsSplit(d);
    WithRegulationIds(GeneratorFileIds(d) + ElementSetIds(d), d.busesWithDynamicModel, d.vscBuses);
  }
}
