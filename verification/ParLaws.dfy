/**
 What the PAR file holds: each parameter set with its references and counts, and the
 macro parameter sets, by names given here on their own.
 */
module ParLaws {
  import opened Reachability
  import opened Generators
  import opened Hvdc
  import opened CountSettings
  import opened Dyd
  import opened Par
  import opened WriterLaws

  // ---------------------------------------------------------------------------
  // Names

  predicate IsRemote(model: ModelType) {
    model == REMOTE_SIGNALN || model == REMOTE_DIAGRAM_PQ_SIGNALN
  }

  function FixedP(fixedP: bool): string {
    if fixedP then "FixedP" else ""
  }

  /** The name of the shared set for a kind of generator, with a target or without. */
  function BaseName(g: GeneratorDefinition, fixedP: bool): string {
    if g.IsProp() then "propSignalNGenerator" + FixedP(fixedP)
    else if IsRemote(g.model) then if fixedP then "remoteSignalN" + "FixedP" else "remoteVControl"
    else "signalNGenerator" + FixedP(fixedP)
  }

  lemma SetIdIsName(g: GeneratorDefinition, fixedP: bool)
    ensures GeneratorSetId(g.model, fixedP) == BaseName(g, fixedP)
  {
    PropNames();
    OtherNames();
  }

  lemma PropNames()
    ensures "propSignalNGenerator" + FixedP(false) == PROP_SIGNALN_PAR_ID
    ensures "propSignalNGenerator" + FixedP(true) == PROP_SIGNALN_FIXED_P_PAR_ID
  {
  }

  lemma OtherNames()
    ensures "signalNGenerator" + FixedP(false) == SIGNALN_PAR_ID
    ensures "signalNGenerator" + FixedP(true) == SIGNALN_FIXED_P_PAR_ID
    ensures "remoteSignalN" + "FixedP" == REMOTE_SIGNALN_FIXED_P_PAR_ID
    ensures "remoteVControl" == REMOTE_V_CONTROL_PAR_ID
  {
  }

  /** A macro set is named after the shared set it replaces. */
  lemma MacroIdIsName(g: GeneratorDefinition, fixedP: bool)
    ensures GeneratorMacroSetId(g.model, fixedP) == "macro_" + BaseName(g, fixedP)
  {
    SetIdIsName(g, fixedP);
  }

  const VR_MACRO := "macro_" + "remoteVControl" + "_vr"

  lemma VRMacroIsName()
    ensures VR_MACRO_SET == VR_MACRO
  {
    assert "macro_" + ("remoteVControl" + "_vr") == "macro_" + "remoteVControl" + "_vr";
  }

  // ---------------------------------------------------------------------------
  // Sets

  /** The set of a generator with a diagram. */
  ghost predicate DiagramSet(d: Definition, s: ParametersSet) {
    exists g :: g in d.generators && g.IsUsingDiagram()
                && s == ParametersSet(d.hash(g.id), ["macro_" + BaseName(g, d.isZero(g.targetP))], [])
  }

  /** The set shared by the generators of a kind without one. */
  ghost predicate SharedSet(d: Definition, s: ParametersSet) {
    exists g :: g in d.generators && !g.IsUsingDiagram() && s == ParametersSet(BaseName(g, d.isZero(g.targetP)), [], [])
  }

  ghost predicate RegulationSet(d: Definition, s: ParametersSet) {
    exists b: Id :: (b in d.busesWithDynamicModel || b in d.vscBuses)
                    && s == ParametersSet("Model_Signal_NQ_" + b, [VR_MACRO], [])
  }

  ghost predicate ElementSet(d: Definition, s: ParametersSet) {
    || s == ParametersSet("GenericRestorativeLoad", [], [])
    || (s.id in d.svarcs && s == ParametersSet(s.id, ["MacroParameterSetStaticCompensator"], []))
    || (exists l :: l in d.hvdcLines && s == ParametersSet(l.id, [], []))
  }

  ghost predicate SettingSet(d: Definition, s: ParametersSet) {
    exists x :: x in d.settings && HasModel(d.dynamicModels, x.id)
                && s == ParametersSet(x.id, [], ParametersOf(d.doc.multipleAssociations, d.nbShunts, x.counts))
  }

  /** The set that a generator adds, unless it shares one that is there. */
  function OwnSet(d: Definition, g: GeneratorDefinition): ParametersSet {
    if g.IsUsingDiagram() then ParametersSet(d.hash(g.id), ["macro_" + BaseName(g, d.isZero(g.targetP))], [])
    else ParametersSet(BaseName(g, d.isZero(g.targetP)), [], [])
  }

  lemma OneGenerator(d: Definition, f: File, g: GeneratorDefinition)
    ensures var after := WithGenerator(d, f, g);
            || after.sets == f.sets + [OwnSet(d, g)]
            || (after.sets == f.sets && !g.IsUsingDiagram() && f.HasSet(OwnSet(d, g).id))
  {
    SetIdIsName(g, d.isZero(g.targetP));
    MacroIdIsName(g, d.isZero(g.targetP));
  }

  lemma {:induction false} GeneratorSetsAre(d: Definition, gens: seq<GeneratorDefinition>, s: ParametersSet)
    ensures s in WithGenerators(d, LOADS_ONLY, gens).sets ==>
              s == ParametersSet(LOAD_PAR_ID, [], []) || exists g :: g in gens && s == OwnSet(d, g)
    ensures s == ParametersSet(LOAD_PAR_ID, [], []) ==> s in WithGenerators(d, LOADS_ONLY, gens).sets
    ensures (exists g :: g in gens && g.IsUsingDiagram() && s == OwnSet(d, g)) ==>
              s in WithGenerators(d, LOADS_ONLY, gens).sets
    decreases |gens|
  {
    if gens != [] {
      var n := |gens| - 1;
      GeneratorSetsAre(d, gens[..n], s);
      assert gens == gens[..n] + [gens[n]] && gens[n] in gens;
      OneGenerator(d, WithGenerators(d, LOADS_ONLY, gens[..n]), gens[n]);
    }
  }

  /** The generator needs the macro set. */
  predicate NeedsMacro(d: Definition, g: GeneratorDefinition, m: string) {
    g.IsUsingDiagram() && m == "macro_" + BaseName(g, d.isZero(g.targetP))
  }

  lemma OneMacro(d: Definition, f: File, g: GeneratorDefinition, m: string)
    ensures m in WithGenerator(d, f, g).macroSets <==> m in f.macroSets || NeedsMacro(d, g, m)
  {
    MacroIdIsName(g, d.isZero(g.targetP));
  }

  lemma {:induction false} GeneratorMacrosAre(d: Definition, gens: seq<GeneratorDefinition>, m: string)
    ensures m in WithGenerators(d, LOADS_ONLY, gens).macroSets <==> exists g :: g in gens && NeedsMacro(d, g, m)
    decreases |gens|
  {
    if gens != [] {
      var n := |gens| - 1;
      GeneratorMacrosAre(d, gens[..n], m);
      assert gens == gens[..n] + [gens[n]] && gens[n] in gens;
      OneMacro(d, WithGenerators(d, LOADS_ONLY, gens[..n]), gens[n], m);
    }
  }

  lemma {:induction false} VRRemoteSetsAre(f: File, buses: seq<Id>, s: ParametersSet)
    ensures s in WithVRRemotes(f, buses).sets
       <==> s in f.sets || exists b :: b in buses && s == ParametersSet(NQ_PREFIX + b, [VR_MACRO_SET], [])
    ensures forall m :: m in WithVRRemotes(f, buses).macroSets <==> m in f.macroSets || (buses != [] && m == VR_MACRO_SET)
    decreases |buses|
  {
    if buses != [] {
      var n := |buses| - 1;
      VRRemoteSetsAre(f, buses[..n], s);
      assert buses == buses[..n] + [buses[n]] && buses[n] in buses;
    }
  }

  lemma {:induction false} SettingSetsAre(d: Definition, f: File, settings: seq<Setting>, s: ParametersSet)
    ensures s in WithSettings(d, f, settings).sets
       <==> s in f.sets || exists x :: x in settings && HasModel(d.dynamicModels, x.id) && s == SetOfSetting(d, x)
    ensures WithSettings(d, f, settings).macroSets == f.macroSets
    decreases |settings|
  {
    if settings != [] {
      var n := |settings| - 1;
      SettingSetsAre(d, f, settings[..n], s);
      assert settings == settings[..n] + [settings[n]] && settings[n] in settings;
    }
  }

  lemma SVarCSetsAre(f: File, svarcs: seq<Id>, s: ParametersSet)
    ensures s in WithSVarCs(f, svarcs).sets
       <==> s in f.sets || (s.id in svarcs && s == ParametersSet(s.id, [STATIC_COMPENSATOR_MACRO_SET], []))
    ensures WithSVarCs(f, svarcs).macroSets == f.macroSets + (if svarcs == [] then [] else [STATIC_COMPENSATOR_MACRO_SET])
  {
    InMapSeq((x: Id) => ParametersSet(x, [STATIC_COMPENSATOR_MACRO_SET], []), svarcs, s);
    var f1 := WithSVarCs(f, svarcs);
    if s.id in svarcs && s == ParametersSet(s.id, [STATIC_COMPENSATOR_MACRO_SET], []) {
      var i :| 0 <= i < |svarcs| && svarcs[i] == s.id;
      assert f1.sets[|f.sets| + i] == s;
    }
  }

  lemma LineSetsAre(f: File, lines: seq<HVDCDefinition>, s: ParametersSet)
    ensures s in WithHvdcLines(f, lines).sets
       <==> s in f.sets || exists l :: l in lines && s == ParametersSet(l.id, [], [])
    ensures WithHvdcLines(f, lines).macroSets == f.macroSets
  {
    var f1 := WithHvdcLines(f, lines);
    if l :| l in lines && s == ParametersSet(l.id, [], []) {
      var i :| 0 <= i < |lines| && lines[i] == l;
      assert f1.sets[|f.sets| + i] == s;
    }
  }

  /** Every set of the file is one of these, with exactly this content, and every
      one of them is there, but that generators without a diagram share sets. */
  lemma SetsOfFile(d: Definition, s: ParametersSet)
    ensures s in Written(d).sets ==>
              DiagramSet(d, s) || SharedSet(d, s) || RegulationSet(d, s) || ElementSet(d, s) || SettingSet(d, s)
    ensures DiagramSet(d, s) || RegulationSet(d, s) || ElementSet(d, s) || SettingSet(d, s) ==> s in Written(d).sets
  {
    var f1 := WithGenerators(d, LOADS_ONLY, d.generators);
    var f2 := WithSVarCs(f1, d.svarcs);
    var f3 := WithHvdcLines(f2, d.hvdcLines);
    var f4 := WithVRRemotes(f3, d.busesWithDynamicModel);
    GeneratorSetsAre(d, d.generators, s);
    SVarCSetsAre(f1, d.svarcs, s);
    LineSetsAre(f2, d.hvdcLines, s);
    VRRemoteSetsAre(f3, d.busesWithDynamicModel, s);
    VRRemoteSetsAre(f4, d.vscBuses, s);
    SettingSetsAre(d, WithVRRemotes(f4, d.vscBuses), d.settings, s);
    VRMacroIsName();
  }

  /** The macro sets of the file. */
  lemma MacroSetsOfFile(d: Definition, m: string)
    ensures m in Written(d).macroSets
       <==> || (exists g :: g in d.generators && NeedsMacro(d, g, m))
            || (d.svarcs != [] && m == "MacroParameterSetStaticCompensator")
            || ((d.busesWithDynamicModel != [] || d.vscBuses != []) && m == VR_MACRO)
  {
    var s := ParametersSet("", [], []);
    var f1 := WithGenerators(d, LOADS_ONLY, d.generators);
    var f2 := WithSVarCs(f1, d.svarcs);
    var f3 := WithHvdcLines(f2, d.hvdcLines);
    var f4 := WithVRRemotes(f3, d.busesWithDynamicModel);
    GeneratorMacrosAre(d, d.generators, m);
    SVarCSetsAre(f1, d.svarcs, s);
    LineSetsAre(f2, d.hvdcLines, s);
    VRRemoteSetsAre(f3, d.busesWithDynamicModel, s);
    VRRemoteSetsAre(f4, d.vscBuses, s);
    SettingSetsAre(d, WithVRRemotes(f4, d.vscBuses), d.settings, s);
    VRMacroIsName();
  }
}
