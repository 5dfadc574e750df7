/**
 Context::exportOutputs: what process left is handed to both writers, and the two
 files it writes agree. The unordered maps are handed over in any order.
 */
module Export {
  import opened Reachability
  import opened Network
  import opened Dyd
  import Par
  import opened WriterLaws
  import opened HvdcLaws
  import opened DynModels
  import opened DynModelLaws
  import opened CountSettings
  import opened ConnectorLaws
  import opened ContextProcess
  import opened Pipeline
  import opened NetworkFiles
  import opened FileIds
  import opened InputModels
  import InputFiles

  /** The elements of an unordered set, in the order an iteration takes. */
  method ElementsOf(s: set<Id>) returns (elements: seq<Id>)
    ensures NoDuplicates(elements) && Elements(elements) == s
  {
    elements := [];
    var rest := s;
    while rest != {}
      invariant NoDuplicates(elements) && Elements(elements) + rest == s && Elements(elements) !! rest
    {
      var k :| k in rest;
      rest := rest - {k};
      elements := elements + [k];
    }
  }

  /** The values of an unordered map, in the order an iteration takes: one for each of
      its keys. */
  method ValuesOf<V>(m: map<Id, V>) returns (values: seq<V>, ghost keys: seq<Id>)
    ensures NoDuplicates(keys) && Elements(keys) == m.Keys
    ensures |values| == |keys| && forall i :: 0 <= i < |keys| ==> keys[i] in m && values[i] == m[keys[i]]
    ensures forall v :: v in values <==> exists k :: k in m && m[k] == v
  {
    var order := ElementsOf(m.Keys);
    keys := order;
    assert forall k :: k in keys <==> k in Elements(keys);
    values := [];
    for i := 0 to |order|
      invariant |values| == i && forall j :: 0 <= j < i ==> values[j] == m[order[j]]
    {
      values := values + [m[order[i]]];
    }
    forall v ensures v in values <==> exists k :: k in m && m[k] == v {
      if k :| k in m && m[k] == v {
        var i :| 0 <= i < |keys| && keys[i] == k;
        assert values[i] == v;
      }
    }
  }

  /** What the writers need besides what this model computes. */
  datatype Surroundings = Surroundings(
    hash: Id -> string,
    isZero: real -> bool,
    loads: seq<Id>,
    svarcs: seq<Id>,
    settings: seq<Setting>)

  /** Lines and models are kept under their ids. */
  ghost predicate Keyed(context: ContextProcess.Context)
    reads context
  {
    && LinesKeyed(context.hvdcLineDefinitions)
    && (forall id <- context.dynamicModels :: context.dynamicModels[id].id == id)
  }

  /** Hands over what process left. */
  method DefinitionOf(context: ContextProcess.Context, s: Surroundings) returns (d: Definition)
    requires context.slackNode.Some? && Keyed(context)
    ensures d.slackNode == context.slackNode.value.id && d.generators == context.generators
    ensures NoDuplicates(d.busesWithDynamicModel) && Elements(d.busesWithDynamicModel) == context.busesWithDynamicModel.Keys
    ensures NoDuplicates(d.vscBuses) && Elements(d.vscBuses) == context.hvdcLineDefinitions.vscBuses.Keys
    ensures forall l :: l in d.hvdcLines <==>
              exists id :: id in context.hvdcLineDefinitions.hvdcLines && context.hvdcLineDefinitions.hvdcLines[id] == l
    ensures forall m :: m in d.dynamicModels <==> exists id :: id in context.dynamicModels && context.dynamicModels[id] == m
    ensures NoDuplicates(LineIds(d.hvdcLines)) && NoDuplicates(AutomatonIds(d.dynamicModels))
    ensures Elements(d.usedMacroConnections) == context.usedMacroConnections
    ensures d.doc == context.inp.doc && d.nbShunts == context.nbShunts
    ensures Surroundings(d.hash, d.isZero, d.loads, d.svarcs, d.settings) == s
  {
    var busesWithDynamicModel := ElementsOf(context.busesWithDynamicModel.Keys);
    var vscBuses := ElementsOf(context.hvdcLineDefinitions.vscBuses.Keys);
    var hvdcLines, lineKeys := ValuesOf(context.hvdcLineDefinitions.hvdcLines);
    assert LineIds(hvdcLines) == lineKeys;
    var dynamicModels, modelKeys := ValuesOf(context.dynamicModels);
    assert AutomatonIds(dynamicModels) == modelKeys;
    var used := ElementsOf(context.usedMacroConnections);
    d := Definition(s.hash, s.isZero, context.generators, s.loads, context.slackNode.value.id, hvdcLines,
                    busesWithDynamicModel, vscBuses, dynamicModels, used, context.inp.doc, context.nbShunts,
                    s.settings, s.svarcs);
  }

  // ---------------------------------------------------------------------------
  // What holds of the two files

  /** A connection to an NQ variable has its model in the file, and one of terminal 1
      is wired to the main component. */
  ghost predicate Leads(main: seq<Id>, models: seq<Model>, c: Connect) {
    && (c.var2 == "vrremote_NQ" ==> exists m :: m in models && m.id == c.model2 && m.lib == "VRRemote")
    && (c.var2 == "hvdc_terminal1" ==> WiresMainBus(main, c))
  }

  /** A model of the DYD file has its parameter set in the PAR file. */
  ghost predicate HasItsSet(f: Par.File, m: Model) {
    m.parId.Some? ==> f.HasSet(m.parId.value)
  }

  /** A generator that ignores its fixed power has a stand-in, and the settings
      describe the dynamic models. */
  ghost predicate Referable(d: Definition) {
    && (forall g <- d.generators :: IgnoresFixedP(d, g) ==> HasStandIn(d, g))
    && (forall x <- d.dynamicModels :: Par.Describes(d.settings, x.id) || Borrowed(d, x.id))
  }

  /** Every count of an association is that of the indexes. */
  ghost predicate CountsMatch(inp: Inputs, d: Definition, connects: seq<MacroConnectOut>, f: Par.File) {
    forall m, macro, level, s, c :: CountsAssociation(inp, d, m, macro, level, s, c) ==>
      NumberedAsCounted(connects, f, d.nbShunts, m, macro, level, c)
  }

  /** In the DYD file of a network, every connection leads where it should. */
  lemma ConnectionsLead(inp: Inputs, data: NetworkData, m: map<Id, Id>, d: Definition)
    requires BuiltFrom(inp, data) && inp.Valid() && HandsOver(inp, m, d)
    ensures forall c <- FileConnects(d) :: Leads(MainOf(inp), FileModels(d), c)
  {
    forall c <- FileConnects(d) ensures Leads(MainOf(inp), FileModels(d), c) {
      if c.var2 == "vrremote_NQ" {
        NoNQConnectionDangles(inp, data, m, d, c);
      }
      if c.var2 == "hvdc_terminal1" {
        Terminal1sInMain(inp, data, m, d, c);
      }
    }
  }

  /** Both files of any definition agree on the parameter sets. */
  lemma ReferencesAgree(d: Definition)
    ensures (forall x <- FileModels(d) :: HasItsSet(Par.Written(d), x)) <==> Referable(d)
    ensures MacrosComplete(Par.Written(d))
  {
    assert forall x <- FileModels(d) :: HasItsSet(Par.Written(d), x) <==> Resolved(d, x);
    ReferencesClosed(d);
    MacroSetsPresentOnce(d);
  }

  /** In the files of a network, all shunts are numbered as counted. */
  lemma CountsAgree(inp: Inputs, data: NetworkData, models: DynModels.Models, used: set<Id>, d: Definition)
    requires BuiltFrom(inp, data) && inp.Valid() && UniqueShunts(data.voltageLevels)
    requires HandsOverModels(inp, models, used, d.nbShunts, d)
    ensures CountsMatch(inp, d, FileMacroConnects(d), Par.Written(d))
  {
    forall m, macro, level, s, c | CountsAssociation(inp, d, m, macro, level, s, c)
      ensures NumberedAsCounted(FileMacroConnects(d), Par.Written(d), d.nbShunts, m, macro, level, c)
    {
      ShuntsNumberedAsCounted(inp, data, models, used, d, m, macro, level, s, c);
    }
  }

  /** The macro connects of a definition of a network have their connectors exactly if
      the document defines them. */
  lemma ConnectorsAgree(inp: Inputs, models: DynModels.Models, used: set<Id>, d: Definition)
    requires HandsOverModels(inp, models, used, d.nbShunts, d)
    ensures (forall c <- FileMacroConnects(d) :: HasConnector(FileMacroConnectors(d), c.connector)) <==> Documented(d)
  {
    HandedModelsUseTagged(inp, models, used, d.nbShunts, d);
    ConnectorsClosed(d);
  }

  /** The contents of the two files of a network agree. */
  ghost predicate FilesAgree(inp: Inputs, data: NetworkData, d: Definition, connectors: seq<MacroConnector>,
                             models: seq<Model>, connects: seq<Connect>, macroConnects: seq<MacroConnectOut>, f: Par.File)
    requires inp.Valid()
  {
    && (forall c <- connects :: Leads(MainOf(inp), models, c))
    && ((forall x <- models :: HasItsSet(f, x)) <==> Referable(d))
    && MacrosComplete(f)
    && ((forall c <- macroConnects :: HasConnector(connectors, c.connector)) <==> Documented(d))
    && (UniqueShunts(data.voltageLevels) ==> CountsMatch(inp, d, macroConnects, f))
    && IdsUnique(inp, data, d, models, f)
  }

  /** What the context hands over, of the main component and of the dynamic models. */
  ghost predicate HandsOverAll(inp: Inputs, d: Definition) {
    && inp.Valid()
    && (exists m :: HandsOver(inp, m, d))
    && (exists models, used :: HandsOverModels(inp, models, used, d.nbShunts, d))
  }

  lemma AllLead(inp: Inputs, data: NetworkData, d: Definition)
    requires BuiltFrom(inp, data) && HandsOverAll(inp, d)
    ensures forall c <- FileConnects(d) :: Leads(MainOf(inp), FileModels(d), c)
  {
    var m :| HandsOver(inp, m, d);
    ConnectionsLead(inp, data, m, d);
  }

  lemma AllCounted(inp: Inputs, data: NetworkData, d: Definition)
    requires BuiltFrom(inp, data) && HandsOverAll(inp, d)
    ensures (forall c <- FileMacroConnects(d) :: HasConnector(FileMacroConnectors(d), c.connector)) <==> Documented(d)
    ensures UniqueShunts(data.voltageLevels) ==> CountsMatch(inp, d, FileMacroConnects(d), Par.Written(d))
  {
    var models, used :| HandsOverModels(inp, models, used, d.nbShunts, d);
    ConnectorsAgree(inp, models, used, d);
    if UniqueShunts(data.voltageLevels) {
      CountsAgree(inp, data, models, used, d);
    }
  }

  lemma AllIdentified(inp: Inputs, data: NetworkData, d: Definition)
    requires BuiltFrom(inp, data) && HandsOverAll(inp, d)
    ensures IdsUnique(inp, data, d, FileModels(d), Par.Written(d))
  {
    var m :| HandsOver(inp, m, d);
    var models, used :| HandsOverModels(inp, models, used, d.nbShunts, d);
    IdsOfFiles(inp, data, m, models, used, d);
  }

  lemma AllAgree(inp: Inputs, data: NetworkData, d: Definition)
    requires BuiltFrom(inp, data) && HandsOverAll(inp, d)
    ensures FilesAgree(inp, data, d, FileMacroConnectors(d), FileModels(d), FileConnects(d), FileMacroConnects(d),
                       Par.Written(d))
  {
    AllLead(inp, data, d);
    ReferencesAgree(d);
    AllCounted(inp, data, d);
    AllIdentified(inp, data, d);
  }

  /** The two files hold what the input calls for. */
  ghost predicate FilesDescribe(inp: Inputs, data: NetworkData, d: Definition, models: seq<Model>, connects: seq<Connect>)
    requires inp.Valid()
  {
    && InputFiles.IsOfInput(inp, data, d, models, connects)
    && forall m, c :: m in d.dynamicModels && c in m.nodeConnections ==> Given(inp, data, m.id, c)
  }

  lemma AllDescribed(inp: Inputs, data: NetworkData, d: Definition)
    requires BuiltFrom(inp, data) && HandsOverAll(inp, d)
    ensures FilesDescribe(inp, data, d, FileModels(d), FileConnects(d))
  {
    var m :| HandsOver(inp, m, d);
    var models, used :| HandsOverModels(inp, models, used, d.nbShunts, d);
    InputFiles.FileIsOfInput(inp, data, m, d);
    forall x, c | x in d.dynamicModels && c in x.nodeConnections ensures Given(inp, data, x.id, c) {
      ConnectionsOfInput(inp, data, models, used, d.nbShunts, d, x);
    }
  }

  /** What process leaves in a context when it succeeds. */
  ghost predicate Processed(context: ContextProcess.Context)
    reads context
  {
    && SlackProcessed(context.inp, context.mainConnexNodes, context.slackNodeOrigin, context.slackNode)
    && MainProcessed(context.inp, context.mainConnexNodes, context.slackNode.value, context.generators,
                     context.busesWithDynamicModel, context.hvdcLineDefinitions, true)
    && ModelsProcessed(context.inp, context.dynamicModels, context.usedMacroConnections, context.nbShunts)
  }

  lemma ModelsAreKeyed(inp: Inputs, models: DynModels.Models, used: set<Id>, nbShunts: map<Id, nat>)
    requires ModelsProcessed(inp, models, used, nbShunts)
    ensures forall id <- models :: models[id].id == id
  {
    forall id <- models ensures models[id].id == id {
      ModelHeader(inp.doc, inp.libraryExists, inp.Records(inp.order), inp.levelNodes, id);
    }
  }

  lemma WalkedIsKeyed(inp: Inputs, ids: seq<Id>)
    requires Known(inp, ids)
    ensures LinesKeyed(WalkedOn(inp, ids))
  {
    RecordsAreValid(inp, ids);
    WalkKeepsKeys(inp.HvdcConfig(), StationsOn(inp.Records(ids)));
  }

  lemma ProcessedIsKeyed(context: ContextProcess.Context)
    requires Processed(context)
    ensures Keyed(context)
  {
    WalkedIsKeyed(context.inp, context.mainConnexNodes);
    ModelsAreKeyed(context.inp, context.dynamicModels, context.usedMacroConnections, context.nbShunts);
  }

  /** The definition the writers get. */
  method HandOver(context: ContextProcess.Context, s: Surroundings) returns (d: Definition)
    requires Processed(context)
    ensures d.slackNode == context.slackNode.value.id && HandsOverAll(context.inp, d)
    ensures d.slackNode in MainOf(context.inp) && d.settings == s.settings
  {
    ProcessedIsKeyed(context);
    d := DefinitionOf(context, s);
    assert HandsOver(context.inp, context.busesWithDynamicModel, d);
    assert HandsOverModels(context.inp, context.dynamicModels, context.usedMacroConnections, d.nbShunts, d);
  }

  /** Writes both files, after process has succeeded. */
  method ExportOutputs(context: ContextProcess.Context, ghost data: NetworkData, s: Surroundings)
    returns (d: Definition, dyd: DynamicModelsCollection, par: Par.ParametersSetCollection)
    requires BuiltFrom(context.inp, data) && Processed(context)
    ensures d.slackNode == context.slackNode.value.id && HandsOverAll(context.inp, d)
    ensures d.slackNode in MainOf(context.inp) && d.settings == s.settings
    ensures dyd.macroConnectors == FileMacroConnectors(d) && dyd.models == FileModels(d)
    ensures dyd.connects == FileConnects(d) && dyd.macroConnects == FileMacroConnects(d)
    ensures par.View() == Par.Written(d)
    ensures FilesAgree(context.inp, data, d, dyd.macroConnectors, dyd.models, dyd.connects, dyd.macroConnects, par.View())
    ensures FilesDescribe(context.inp, data, d, dyd.models, dyd.connects)
  {
    d := HandOver(context, s);
    AllAgree(context.inp, data, d);
    AllDescribed(context.inp, data, d);
    dyd := Dyd.Write(d);
    par := Par.Write(d);
  }
}
