/**
 The two writers agree: which parameter sets the PAR file holds, that the macro
 sets they refer to are there once, exactly when every parameter set the DYD
 file refers to is written, and that no connection leads to a missing model.
 */
module WriterLaws {
  import opened Wrappers
  import opened Reachability
  import opened Generators
  import opened Hvdc
  import opened DynModels
  import opened CountSettings
  import opened Dyd
  import opened Par

  // ---------------------------------------------------------------------------
  // The macro parameter sets

  /** Every macro set referred to is present, and none is added twice. */
  ghost predicate MacrosComplete(f: File) {
    && NoDuplicates(f.macroSets)
    && forall s, m :: s in f.sets && m in s.macros ==> m in f.macroSets
  }

  lemma WithMacroKeeps(f: File, m: string, s: ParametersSet)
    requires MacrosComplete(f) && (forall x <- s.macros :: x == m)
    ensures MacrosComplete(f.WithMacroSet(m).WithSet(s))
  {
    if m !in f.macroSets {
      NoDuplicatesJoin(f.macroSets, [m]);
    }
  }

  /** A name of the form macro_... */
  predicate IsMacroName(m: string) {
    |m| > 0 && m[0] == 'm'
  }

  lemma {:induction false} GeneratorsKeepMacros(d: Definition, gens: seq<GeneratorDefinition>)
    ensures MacrosComplete(WithGenerators(d, LOADS_ONLY, gens))
    ensures forall m <- WithGenerators(d, LOADS_ONLY, gens).macroSets :: IsMacroName(m)
    decreases |gens|
  {
    if gens != [] {
      var n := |gens| - 1;
      GeneratorsKeepMacros(d, gens[..n]);
      var before, g := WithGenerators(d, LOADS_ONLY, gens[..n]), gens[n];
      var m := GeneratorMacroSetId(g.model, d.isZero(g.targetP));
      WithMacroKeeps(before, m, ParametersSet(d.hash(g.id), [m], []));
    }
  }

  lemma {:induction false} VRRemotesKeepMacros(f: File, buses: seq<Id>)
    requires MacrosComplete(f)
    ensures MacrosComplete(WithVRRemotes(f, buses))
    decreases |buses|
  {
    if buses != [] {
      var n := |buses| - 1;
      VRRemotesKeepMacros(f, buses[..n]);
      WithMacroKeeps(WithVRRemotes(f, buses[..n]), VR_MACRO_SET, ParametersSet(NQ_PREFIX + buses[n], [VR_MACRO_SET], []));
    }
  }

  lemma {:induction false} SettingsKeepMacros(d: Definition, f: File, settings: seq<Setting>)
    requires MacrosComplete(f)
    ensures MacrosComplete(WithSettings(d, f, settings))
    decreases |settings|
  {
    if settings != [] {
      SettingsKeepMacros(d, f, settings[..|settings| - 1]);
    }
  }

  /** In the PAR file, every macro set a parameter set refers to is present, once. */
  lemma MacroSetsPresentOnce(d: Definition)
    ensures MacrosComplete(Written(d))
  {
    var f1 := WithGenerators(d, LOADS_ONLY, d.generators);
    GeneratorsKeepMacros(d, d.generators);
    var f2 := WithSVarCs(f1, d.svarcs);
    assert MacrosComplete(f2) by {
      assert !IsMacroName(STATIC_COMPENSATOR_MACRO_SET);
      NoDuplicatesJoin(f1.macroSets, [STATIC_COMPENSATOR_MACRO_SET]);
    }
    var f3 := WithHvdcLines(f2, d.hvdcLines);
    VRRemotesKeepMacros(f3, d.busesWithDynamicModel);
    VRRemotesKeepMacros(WithVRRemotes(f3, d.busesWithDynamicModel), d.vscBuses);
    SettingsKeepMacros(d, WithVRRemotes(WithVRRemotes(f3, d.busesWithDynamicModel), d.vscBuses), d.settings);
  }

  // ---------------------------------------------------------------------------
  // The parameter sets

  /** The set a generator gets is the one of its hash, or the shared one of its model. */
  function SetOfGenerator(d: Definition, g: GeneratorDefinition): string {
    if g.IsUsingDiagram() then d.hash(g.id) else GeneratorSetId(g.model, d.isZero(g.targetP))
  }

  lemma {:induction false} GeneratorSets(d: Definition, gens: seq<GeneratorDefinition>, id: string)
    ensures WithGenerators(d, LOADS_ONLY, gens).HasSet(id)
       <==> id == LOAD_PAR_ID || exists g :: g in gens && SetOfGenerator(d, g) == id
    decreases |gens|
  {
    if gens == [] {
      assert LOADS_ONLY.sets[0] in LOADS_ONLY.sets;
    } else {
      var n := |gens| - 1;
      GeneratorSets(d, gens[..n], id);
      assert gens == gens[..n] + [gens[n]];
      OneMoreSet(d, WithGenerators(d, LOADS_ONLY, gens[..n]), gens[n], id);
    }
  }

  lemma OneMoreSet(d: Definition, f: File, g: GeneratorDefinition, id: string)
    ensures WithGenerator(d, f, g).HasSet(id) <==> f.HasSet(id) || SetOfGenerator(d, g) == id
  {
    var after := WithGenerator(d, f, g);
    if after.sets != f.sets {
      assert after.sets == f.sets + [after.sets[|f.sets|]];
      assert after.sets[|f.sets|] in after.sets;
    }
    assert forall s <- f.sets :: s in after.sets;
  }

  lemma {:induction false} VRRemoteSets(f: File, buses: seq<Id>, id: string)
    ensures WithVRRemotes(f, buses).HasSet(id) <==> f.HasSet(id) || exists b :: b in buses && NQ_PREFIX + b == id
    decreases |buses|
  {
    if buses != [] {
      var n := |buses| - 1;
      VRRemoteSets(f, buses[..n], id);
      assert buses == buses[..n] + [buses[n]];
      var before, after := WithVRRemotes(f, buses[..n]), WithVRRemotes(f, buses);
      assert after.sets == before.sets + [after.sets[|before.sets|]];
      assert after.sets[|before.sets|] in after.sets;
      assert forall s <- before.sets :: s in after.sets;
    }
  }

  lemma {:induction false} SettingSets(d: Definition, f: File, settings: seq<Setting>, id: string)
    ensures WithSettings(d, f, settings).HasSet(id) <==> f.HasSet(id) || (Describes(settings, id) && HasModel(d.dynamicModels, id))
    decreases |settings|
  {
    if settings != [] {
      var n := |settings| - 1;
      SettingSets(d, f, settings[..n], id);
      assert settings == settings[..n] + [settings[n]];
      var before, after := WithSettings(d, f, settings[..n]), WithSettings(d, f, settings);
      if after.sets != before.sets {
        assert after.sets == before.sets + [after.sets[|before.sets|]];
        assert after.sets[|before.sets|] in after.sets;
      }
      assert forall s <- before.sets :: s in after.sets;
    }
  }

  lemma ElementSets(f: File, svarcs: seq<Id>, lines: seq<HVDCDefinition>, id: string)
    ensures WithHvdcLines(WithSVarCs(f, svarcs), lines).HasSet(id)
       <==> f.HasSet(id) || id in svarcs || exists l :: l in lines && l.id == id
  {
    var f1 := WithSVarCs(f, svarcs);
    var f2 := WithHvdcLines(f1, lines);
    assert |f1.sets| == |f.sets| + |svarcs| && |f2.sets| == |f1.sets| + |lines|;
    if id in svarcs {
      var i :| 0 <= i < |svarcs| && svarcs[i] == id;
      assert f2.sets[|f.sets| + i].id == id;
    }
    if l :| l in lines && l.id == id {
      var i :| 0 <= i < |lines| && lines[i] == l;
      assert f2.sets[|f1.sets| + i].id == id;
    }
    if s :| s in f.sets && s.id == id {
      assert s in f2.sets;
    }
    if s :| s in f2.sets && s.id == id {
      var i :| 0 <= i < |f2.sets| && f2.sets[i] == s;
      if i < |f.sets| {
        assert f.sets[i] == s;
      } else if i < |f1.sets| {
        assert svarcs[i - |f.sets|] == id;
      } else {
        assert lines[i - |f1.sets|].id == id;
      }
    }
  }

  /** An element other than a generator that has its own set. */
  ghost predicate OtherSet(d: Definition, id: string) {
    || id == LOAD_PAR_ID
    || id in d.svarcs
    || (exists l :: l in d.hvdcLines && l.id == id)
    || (exists b :: b in d.busesWithDynamicModel && NQ_PREFIX + b == id)
    || (exists b :: b in d.vscBuses && NQ_PREFIX + b == id)
    || (Describes(d.settings, id) && HasModel(d.dynamicModels, id))
  }

  /** The parameter sets of the PAR file. */
  lemma WrittenSets(d: Definition, id: string)
    ensures Written(d).HasSet(id) <==> OtherSet(d, id) || exists g :: g in d.generators && SetOfGenerator(d, g) == id
  {
    var f1 := WithGenerators(d, LOADS_ONLY, d.generators);
    var f2 := WithHvdcLines(WithSVarCs(f1, d.svarcs), d.hvdcLines);
    var f3 := WithVRRemotes(f2, d.busesWithDynamicModel);
    GeneratorSets(d, d.generators, id);
    ElementSets(f1, d.svarcs, d.hvdcLines, id);
    VRRemoteSets(f2, d.busesWithDynamicModel, id);
    VRRemoteSets(f3, d.vscBuses, id);
    SettingSets(d, WithVRRemotes(f3, d.vscBuses), d.settings, id);
  }

  // ---------------------------------------------------------------------------
  // Reference closure

  /** Every parameter set a model of the DYD file refers to is in the PAR file. */
  ghost predicate Resolved(d: Definition, m: Model) {
    m.parId.Some? ==> Written(d).HasSet(m.parId.value)
  }

  /** A generator whose model has no diagram, whose target is zero, and whose
      DYD reference ignores that. */
  predicate IgnoresFixedP(d: Definition, g: GeneratorDefinition) {
    (g.model == PROP_SIGNALN || g.model == REMOTE_SIGNALN) && d.isZero(g.targetP)
  }

  /** An element or a hash that bears the name of a shared set. */
  ghost predicate NamedLike(d: Definition, id: string) {
    || id in d.svarcs
    || (exists l :: l in d.hvdcLines && l.id == id)
    || (Describes(d.settings, id) && HasModel(d.dynamicModels, id))
    || (exists h :: h in d.generators && h.IsUsingDiagram() && d.hash(h.id) == id)
  }

  /** What can stand in for the missing set: another generator of the same model
      that has a target, or, by accident, an element of that name. */
  ghost predicate HasStandIn(d: Definition, g: GeneratorDefinition) {
    || (exists h :: h in d.generators && h.model == g.model && !d.isZero(h.targetP))
    || NamedLike(d, GeneratorParId(d, g))
  }

  lemma SharedSetOwner(d: Definition, g: GeneratorDefinition, h: GeneratorDefinition)
    requires g.model == PROP_SIGNALN || g.model == REMOTE_SIGNALN
    requires !h.IsUsingDiagram()
    ensures SetOfGenerator(d, h) == GeneratorParId(d, g) <==> h.model == g.model && !d.isZero(h.targetP)
  {
    assert PROP_SIGNALN_PAR_ID[0] == 'p' && SIGNALN_PAR_ID[0] == 's' && SIGNALN_FIXED_P_PAR_ID[0] == 's';
    assert REMOTE_V_CONTROL_PAR_ID[0] == 'r' && REMOTE_V_CONTROL_PAR_ID[6] == 'V';
    assert REMOTE_SIGNALN_FIXED_P_PAR_ID[6] == 'S' && PROP_SIGNALN_FIXED_P_PAR_ID[0] == 'p';
    assert |PROP_SIGNALN_FIXED_P_PAR_ID| > |PROP_SIGNALN_PAR_ID|;
  }

  lemma OtherSetIsNamedLike(d: Definition, g: GeneratorDefinition)
    requires g.model == PROP_SIGNALN || g.model == REMOTE_SIGNALN
    ensures OtherSet(d, GeneratorParId(d, g)) ==> NamedLike(d, GeneratorParId(d, g))
  {
    var id := GeneratorParId(d, g);
    assert id[0] == 'p' || id[0] == 'r';
    assert LOAD_PAR_ID[0] == 'G' && forall b: Id :: (NQ_PREFIX + b)[0] == 'M';
  }

  /** Exactly when the reference of one generator is resolved: always, except for
      a PROP_SIGNALN or REMOTE_SIGNALN generator with zero target that nothing
      stands in for. */
  lemma GeneratorResolved(d: Definition, g: GeneratorDefinition)
    requires g in d.generators
    ensures Resolved(d, WriteGenerator(d, g)) <==> (IgnoresFixedP(d, g) ==> HasStandIn(d, g))
  {
    var id := GeneratorParId(d, g);
    WrittenSets(d, id);
    if !IgnoresFixedP(d, g) {
      assert SetOfGenerator(d, g) == id;
    } else {
      OtherSetIsNamedLike(d, g);
      forall h <- d.generators ensures !h.IsUsingDiagram() ==>
        (SetOfGenerator(d, h) == id <==> h.model == g.model && !d.isZero(h.targetP))
      {
        if !h.IsUsingDiagram() {
          SharedSetOwner(d, g, h);
        }
      }
    }
  }

  /** Any such generator alone makes a file in which it fails, whatever the hash
      and whatever counts as zero. */
  lemma ZeroTargetDangles(hash: Id -> string, isZero: real -> bool, g: GeneratorDefinition) returns (d: Definition)
    requires (g.model == PROP_SIGNALN || g.model == REMOTE_SIGNALN) && isZero(g.targetP)
    ensures d.hash == hash && d.isZero == isZero && d.generators == [g]
    ensures !Resolved(d, WriteGenerator(d, g))
  {
    d := Definition(hash, isZero, [g], [], [], [], [], [], [], [], AssemblingDocument([], [], [], []), map[], [], []);
    GeneratorResolved(d, g);
  }

  /** The references of all other models but the dynamic ones are resolved. */
  lemma ElementsResolved(d: Definition)
    ensures forall l <- d.loads :: Resolved(d, WriteLoad(l))
    ensures forall l <- d.hvdcLines :: Resolved(d, WriteHvdcLine(l))
    ensures forall b <- d.busesWithDynamicModel :: Resolved(d, WriteVRRemote(b))
    ensures forall b <- d.vscBuses :: Resolved(d, WriteVRRemote(b))
    ensures forall s <- d.svarcs :: Resolved(d, WriteSVarC(s))
  {
    WrittenSets(d, LOAD_PAR_ID);
    forall l <- d.hvdcLines ensures Resolved(d, WriteHvdcLine(l)) {
      WrittenSets(d, l.id);
    }
    forall b: Id | b in d.busesWithDynamicModel || b in d.vscBuses ensures Resolved(d, WriteVRRemote(b)) {
      WrittenSets(d, NQ_PREFIX + b);
    }
    forall s <- d.svarcs ensures Resolved(d, WriteSVarC(s)) {
      WrittenSets(d, s);
    }
  }

  /** The id of a dynamic model is also that of the set of something else. */
  ghost predicate Borrowed(d: Definition, id: string) {
    || id == LOAD_PAR_ID
    || id in d.svarcs
    || (exists l :: l in d.hvdcLines && l.id == id)
    || (exists b :: (b in d.busesWithDynamicModel || b in d.vscBuses) && NQ_PREFIX + b == id)
    || (exists g :: g in d.generators && SetOfGenerator(d, g) == id)
  }

  /** A dynamic model's reference is resolved exactly if the settings describe it,
      or by accident. */
  lemma DynamicModelResolved(d: Definition, m: DynamicModelDefinition)
    requires m in d.dynamicModels
    ensures Resolved(d, WriteDynamicModel(m)) <==> Describes(d.settings, m.id) || Borrowed(d, m.id)
  {
    WrittenSets(d, m.id);
  }

  /** The whole file: every model refers to a set that is written, exactly when
      every generator that ignores its fixed power has a stand-in and every
      dynamic model is in the settings. */
  lemma ReferencesClosed(d: Definition)
    ensures (forall m <- FileModels(d) :: Resolved(d, m))
       <==> (forall g <- d.generators :: IgnoresFixedP(d, g) ==> HasStandIn(d, g))
            && (forall x <- d.dynamicModels :: Describes(d.settings, x.id) || Borrowed(d, x.id))
  {
    ElementsResolved(d);
    forall g <- d.generators
      ensures Resolved(d, WriteGenerator(d, g)) <==> (IgnoresFixedP(d, g) ==> HasStandIn(d, g))
      ensures WriteGenerator(d, g) in FileModels(d)
    {
      GeneratorResolved(d, g);
      InMapSeq(GeneratorWriter(d), d.generators, WriteGenerator(d, g));
    }
    forall x <- d.dynamicModels
      ensures Resolved(d, WriteDynamicModel(x)) <==> Describes(d.settings, x.id) || Borrowed(d, x.id)
      ensures WriteDynamicModel(x) in FileModels(d)
    {
      DynamicModelResolved(d, x);
      InMapSeq(WriteDynamicModel, d.dynamicModels, WriteDynamicModel(x));
    }
    forall m <- FileModels(d) ensures FromElement(d, m) {
      ModelOrigin(d, m);
    }
  }

  /** Where the models of a file come from. */
  ghost predicate FromElement(d: Definition, m: Model) {
    || m.parId == None
    || (exists l :: l in d.loads && m == WriteLoad(l))
    || (exists g :: g in d.generators && m == WriteGenerator(d, g))
    || (exists l :: l in d.hvdcLines && m == WriteHvdcLine(l))
    || (exists b :: (b in d.busesWithDynamicModel || b in d.vscBuses) && m == WriteVRRemote(b))
    || (exists x :: x in d.dynamicModels && m == WriteDynamicModel(x))
    || (exists s :: s in d.svarcs && m == WriteSVarC(s))
  }

  lemma InMapSeq<S, T>(f: S -> T, s: seq<S>, y: T)
    ensures y in MapSeq(f, s) <==> exists x :: x in s && f(x) == y
  {
    if x :| x in s && f(x) == y {
      var i :| 0 <= i < |s| && s[i] == x;
      assert MapSeq(f, s)[i] == y;
    }
  }

  lemma ModelOrigin(d: Definition, m: Model)
    requires m in FileModels(d)
    ensures FromElement(d, m)
  {
    InMapSeq(WriteLoad, d.loads, m);
    InMapSeq(GeneratorWriter(d), d.generators, m);
    InMapSeq(WriteHvdcLine, d.hvdcLines, m);
    InMapSeq(WriteVRRemote, d.busesWithDynamicModel, m);
    InMapSeq(WriteVRRemote, d.vscBuses, m);
    InMapSeq(WriteDynamicModel, d.dynamicModels, m);
    InMapSeq(WriteSVarC, d.svarcs, m);
  }
}
