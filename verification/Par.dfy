/** The PAR writer: the parameter sets it writes, and the macro parameter sets
    they refer to. */
module Par {
  import opened Reachability
  import opened Network
  import opened Generators
  import opened Hvdc
  import opened DynModels
  import opened CountSettings
  import opened Dyd

  const VR_MACRO_SET := MacroSetOf(REMOTE_V_CONTROL_PAR_ID + "_vr")
  const STATIC_COMPENSATOR_MACRO_SET := "MacroParameterSetStaticCompensator"

  // ---------------------------------------------------------------------------
  // Identifiers

  function MacroSetOf(modelType: string): string {
    "macro_" + modelType
  }

  /** getGeneratorParameterSetId. */
  function GeneratorSetId(model: ModelType, fixedP: bool): string {
    match model
    case PROP_SIGNALN | PROP_DIAGRAM_PQ_SIGNALN =>
      if fixedP then PROP_SIGNALN_FIXED_P_PAR_ID else PROP_SIGNALN_PAR_ID
    case REMOTE_SIGNALN | REMOTE_DIAGRAM_PQ_SIGNALN =>
      if fixedP then REMOTE_SIGNALN_FIXED_P_PAR_ID else REMOTE_V_CONTROL_PAR_ID
    case _ => if fixedP then SIGNALN_FIXED_P_PAR_ID else SIGNALN_PAR_ID
  }

  /** getMacroParameterSetId. */
  function GeneratorMacroSetId(model: ModelType, fixedP: bool): string {
    match model
    case PROP_SIGNALN | PROP_DIAGRAM_PQ_SIGNALN =>
      if fixedP then MacroSetOf(PROP_SIGNALN_FIXED_P_PAR_ID) else MacroSetOf(PROP_SIGNALN_PAR_ID)
    case REMOTE_SIGNALN | REMOTE_DIAGRAM_PQ_SIGNALN =>
      if fixedP then MacroSetOf(REMOTE_SIGNALN_FIXED_P_PAR_ID) else MacroSetOf(REMOTE_V_CONTROL_PAR_ID)
    case _ => if fixedP then MacroSetOf(SIGNALN_FIXED_P_PAR_ID) else MacroSetOf(SIGNALN_PAR_ID)
  }

  // ---------------------------------------------------------------------------
  // What a PAR file holds

  /** A parameter set: the macro parameter sets it refers to, and its counts. */
  datatype ParametersSet = ParametersSet(id: string, macros: seq<string>, counts: seq<Parameter>)

  datatype File = File(sets: seq<ParametersSet>, macroSets: seq<string>)
  {
    predicate HasSet(id: string) {
      exists s :: s in sets && s.id == id
    }

    function WithSet(s: ParametersSet): File {
      File(sets + [s], macroSets)
    }

    /** Adds a macro parameter set unless it is there. */
    function WithMacroSet(m: string): File {
      if m in macroSets then this else File(sets, macroSets + [m])
    }
  }

  function WithGenerator(d: Definition, f: File, g: GeneratorDefinition): File {
    var fixedP := d.isZero(g.targetP);
    if g.IsUsingDiagram() then
      f.WithMacroSet(GeneratorMacroSetId(g.model, fixedP))
       .WithSet(ParametersSet(d.hash(g.id), [GeneratorMacroSetId(g.model, fixedP)], []))
    else if f.HasSet(GeneratorSetId(g.model, fixedP)) then f
    else f.WithSet(ParametersSet(GeneratorSetId(g.model, fixedP), [], []))
  }

  function WithGenerators(d: Definition, f: File, gens: seq<GeneratorDefinition>): File {
    if gens == [] then f
    else WithGenerator(d, WithGenerators(d, f, gens[..|gens| - 1]), gens[|gens| - 1])
  }

  function WithSVarCs(f: File, svarcs: seq<Id>): File {
    if svarcs == [] then f
    else
      File(f.sets + MapSeq(s => ParametersSet(s, [STATIC_COMPENSATOR_MACRO_SET], []), svarcs),
           f.macroSets + [STATIC_COMPENSATOR_MACRO_SET])
  }

  function WithHvdcLines(f: File, lines: seq<HVDCDefinition>): File {
    f.(sets := f.sets + MapSeq((l: HVDCDefinition) => ParametersSet(l.id, [], []), lines))
  }

  function WithVRRemotes(f: File, buses: seq<Id>): File {
    if buses == [] then f
    else
      WithVRRemotes(f, buses[..|buses| - 1])
      .WithMacroSet(VR_MACRO_SET)
      .WithSet(ParametersSet(NQ_PREFIX + buses[|buses| - 1], [VR_MACRO_SET], []))
  }

  predicate Describes(settings: seq<Setting>, id: Id) {
    exists s :: s in settings && s.id == id
  }

  predicate HasModel(models: seq<DynamicModelDefinition>, id: Id) {
    exists m :: m in models && m.id == id
  }

  /** The set of a dynamic model. */
  function SetOfSetting(d: Definition, s: Setting): ParametersSet {
    ParametersSet(s.id, [], ParametersOf(d.doc.multipleAssociations, d.nbShunts, s.counts))
  }

  function WithSettings(d: Definition, f: File, settings: seq<Setting>): File {
    if settings == [] then f
    else
      var before, s := WithSettings(d, f, settings[..|settings| - 1]), settings[|settings| - 1];
      if HasModel(d.dynamicModels, s.id) then before.WithSet(SetOfSetting(d, s)) else before
  }

  const LOADS_ONLY := File([ParametersSet(LOAD_PAR_ID, [], [])], [])

  /** The whole file. */
  function Written(d: Definition): File {
    var f1 := WithGenerators(d, LOADS_ONLY, d.generators);
    var f2 := WithHvdcLines(WithSVarCs(f1, d.svarcs), d.hvdcLines);
    WithSettings(d, WithVRRemotes(WithVRRemotes(f2, d.busesWithDynamicModel), d.vscBuses), d.settings)
  }

  class ParametersSetCollection {
    var sets: seq<ParametersSet>
    var macroSets: seq<string>

    ghost function View(): File
      reads this
    {
      File(sets, macroSets)
    }

    constructor ()
      ensures View() == File([], [])
    {
      sets, macroSets := [], [];
    }

    method HasParametersSet(id: string) returns (has: bool)
      ensures has <==> View().HasSet(id)
    {
      for k := 0 to |sets|
        invariant forall s <- sets[..k] :: s.id != id
      {
        if sets[k].id == id {
          assert sets[k] in sets;
          return true;
        }
        assert sets[..k + 1] == sets[..k] + [sets[k]];
      }
      assert sets[..|sets|] == sets;
      return false;
    }

    method AddGenerators(d: Definition)
      modifies this
      ensures View() == WithGenerators(d, old(View()), d.generators)
    {
      for k := 0 to |d.generators|
        invariant View() == WithGenerators(d, old(View()), d.generators[..k])
      {
        AddGenerator(d, d.generators[k]);
        assert d.generators[..k + 1][..k] == d.generators[..k];
      }
      assert d.generators[..|d.generators|] == d.generators;
    }

    method AddGenerator(d: Definition, g: GeneratorDefinition)
      modifies this
      ensures View() == WithGenerator(d, old(View()), g)
    {
      var fixedP := d.isZero(g.targetP);
      var macroSet := GeneratorMacroSetId(g.model, fixedP);
      if macroSet !in macroSets && g.IsUsingDiagram() {
        macroSets := macroSets + [macroSet];
      }
      if g.IsUsingDiagram() {
        sets := sets + [ParametersSet(d.hash(g.id), [macroSet], [])];
      } else {
        var has := HasParametersSet(GeneratorSetId(g.model, fixedP));
        if !has {
          sets := sets + [ParametersSet(GeneratorSetId(g.model, fixedP), [], [])];
        }
      }
    }

    method AddSVarCs(svarcs: seq<Id>)
      modifies this
      ensures View() == WithSVarCs(old(View()), svarcs)
    {
      if svarcs != [] {
        macroSets := macroSets + [STATIC_COMPENSATOR_MACRO_SET];
      }
      for k := 0 to |svarcs|
        invariant sets == old(sets) + MapSeq(s => ParametersSet(s, [STATIC_COMPENSATOR_MACRO_SET], []), svarcs[..k])
        invariant macroSets == old(macroSets) + Only(svarcs != [], [STATIC_COMPENSATOR_MACRO_SET])
      {
        sets := sets + [ParametersSet(svarcs[k], [STATIC_COMPENSATOR_MACRO_SET], [])];
      }
      assert svarcs[..|svarcs|] == svarcs;
    }

    method AddHvdcLines(lines: seq<HVDCDefinition>)
      modifies this`sets
      ensures View() == WithHvdcLines(old(View()), lines)
    {
      for k := 0 to |lines|
        invariant sets == old(sets) + MapSeq((l: HVDCDefinition) => ParametersSet(l.id, [], []), lines[..k])
      {
        sets := sets + [ParametersSet(lines[k].id, [], [])];
      }
      assert lines[..|lines|] == lines;
    }

    method AddVRRemotes(buses: seq<Id>)
      modifies this
      ensures View() == WithVRRemotes(old(View()), buses)
    {
      for k := 0 to |buses|
        invariant View() == WithVRRemotes(old(View()), buses[..k])
      {
        if VR_MACRO_SET !in macroSets {
          macroSets := macroSets + [VR_MACRO_SET];
        }
        sets := sets + [ParametersSet(NQ_PREFIX + buses[k], [VR_MACRO_SET], [])];
        assert buses[..k + 1][..k] == buses[..k];
      }
      assert buses[..|buses|] == buses;
    }

    method AddSettings(d: Definition)
      modifies this`sets
      ensures View() == WithSettings(d, old(View()), d.settings)
    {
      for k := 0 to |d.settings|
        invariant View() == WithSettings(d, old(View()), d.settings[..k])
      {
        var setting := d.settings[k];
        var found := FindModel(d.dynamicModels, setting.id);
        if found {
          var counts := WriteCounts(d.doc.multipleAssociations, d.nbShunts, setting.counts);
          sets := sets + [ParametersSet(setting.id, [], counts)];
        }
        assert d.settings[..k + 1][..k] == d.settings[..k];
      }
      assert d.settings[..|d.settings|] == d.settings;
    }
  }

  method FindModel(models: seq<DynamicModelDefinition>, id: Id) returns (found: bool)
    ensures found <==> HasModel(models, id)
  {
    for k := 0 to |models|
      invariant forall m <- models[..k] :: m.id != id
    {
      if models[k].id == id {
        assert models[k] in models;
        return true;
      }
      assert models[..k + 1] == models[..k] + [models[k]];
    }
    assert models[..|models|] == models;
    return false;
  }

  /** Par::write. */
  method Write(d: Definition) returns (c: ParametersSetCollection)
    ensures fresh(c) && c.View() == Written(d)
  {
    c := new ParametersSetCollection();
    c.sets := c.sets + [ParametersSet(LOAD_PAR_ID, [], [])];
    assert c.View() == LOADS_ONLY;
    c.AddGenerators(d);
    c.AddSVarCs(d.svarcs);
    c.AddHvdcLines(d.hvdcLines);
    c.AddVRRemotes(d.busesWithDynamicModel);
    c.AddVRRemotes(d.vscBuses);
    c.AddSettings(d);
  }
}
