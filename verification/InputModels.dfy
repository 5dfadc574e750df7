/**
 The dynamic models in terms of the input files: what each model is connected to,
 and which model each generator and each HVDC line of the input gets.
 */
module InputModels {
  import opened Wrappers
  import opened Reachability
  import opened Network
  import opened InputLaws
  import opened MacroConnections
  import opened DynModels
  import opened DynModelLaws
  import opened ShuntCounts
  import opened Seasons
  import opened Dyd
  import opened ContextProcess
  import opened Pipeline
  import opened NetworkFiles

  // ---------------------------------------------------------------------------
  // What a macro connect asks for

  /** The last single association with the id points at the target: a bus if it
      has one, else a line, else a transformer. */
  ghost predicate SingleNames(singles: seq<SingleAssociation>, id: Id, t: Target) {
    exists j: nat ::
      && LastWith(SingleIds(singles), j, id)
      && match t
         case BusLevel(level) => singles[j].bus == Some(level)
         case NamedLine(name) => singles[j].bus == None && singles[j].line == Some(name)
         case NamedTfo(name) => singles[j].bus == None && singles[j].line == None && singles[j].tfo == Some(name)
         case ShuntLevel(_) => false
  }

  /** No single association has the id, and the last multiple one points at the
      shunts of the level. */
  ghost predicate MultipleNames(doc: AssemblingDocument, id: Id, t: Target) {
    && t.ShuntLevel? && id !in SingleIds(doc.singleAssociations)
    && exists j: nat :: LastWith(MultipleIds(doc.multipleAssociations), j, id)
                        && doc.multipleAssociations[j].shuntLevel == t.level
  }

  lemma LastIsOne(ids: seq<Id>, id: Id, i: nat, j: nat)
    requires LastWith(ids, i, id) && LastWith(ids, j, id)
    ensures i == j
  {
  }

  lemma SinglesName(doc: AssemblingDocument, macro: MacroConnect, t: Target)
    requires FindSingle(doc.singleAssociations, macro.id).Some?
    ensures Resolve(doc, macro) == Some(t) <==> SingleNames(doc.singleAssociations, macro.id, t)
    ensures macro.id in SingleIds(doc.singleAssociations)
  {
    var singles := doc.singleAssociations;
    LastSingleIsFound(singles, macro.id);
    var j: nat :| LastWith(SingleIds(singles), j, macro.id) && singles[j] == FindSingle(singles, macro.id).value;
    forall i: nat | LastWith(SingleIds(singles), i, macro.id) ensures i == j {
      LastIsOne(SingleIds(singles), macro.id, i, j);
    }
  }

  lemma MultiplesName(doc: AssemblingDocument, macro: MacroConnect, t: Target)
    requires FindSingle(doc.singleAssociations, macro.id).None?
    ensures Resolve(doc, macro) == Some(t) <==> MultipleNames(doc, macro.id, t)
    ensures macro.id !in SingleIds(doc.singleAssociations)
  {
    var multiples := doc.multipleAssociations;
    LastSingleIsFound(doc.singleAssociations, macro.id);
    LastIsFound(multiples, macro.id);
    if FindMultiple(multiples, macro.id).Some? {
      var j: nat :| LastWith(MultipleIds(multiples), j, macro.id) && multiples[j] == FindMultiple(multiples, macro.id).value;
      forall i: nat | LastWith(MultipleIds(multiples), i, macro.id) ensures i == j {
        LastIsOne(MultipleIds(multiples), macro.id, i, j);
      }
    } else {
      forall i: nat ensures !LastWith(MultipleIds(multiples), i, macro.id) {
        assert i < |multiples| ==> multiples[i] in multiples;
      }
    }
  }

  /** A macro connect leads to the target through its association. */
  ghost predicate Names(doc: AssemblingDocument, id: Id, t: Target) {
    SingleNames(doc.singleAssociations, id, t) || MultipleNames(doc, id, t)
  }

  lemma ResolveNames(doc: AssemblingDocument, macro: MacroConnect, t: Target)
    ensures Resolve(doc, macro) == Some(t) <==> Names(doc, macro.id, t)
  {
    if FindSingle(doc.singleAssociations, macro.id).Some? {
      SinglesName(doc, macro, t);
    } else {
      MultiplesName(doc, macro, t);
      forall j: nat ensures !LastWith(SingleIds(doc.singleAssociations), j, macro.id) {
      }
    }
  }

  /** A loadable automaton asks, through a macro connection, for the target. */
  ghost predicate AsksFor(doc: AssemblingDocument, libraryExists: string -> bool, model: Id, macro: Id, t: Target) {
    exists a, m ::
      && a in doc.dynamicAutomatons && libraryExists(a.lib) && a.id == model
      && m in a.macroConnects && m.macroConnection == macro && Names(doc, m.id, t)
  }

  lemma RequestedIsAsked(doc: AssemblingDocument, libraryExists: string -> bool, model: Id, macro: Id, t: Target)
    ensures Requested(doc, libraryExists, Ref(model, macro), t) <==> AsksFor(doc, libraryExists, model, macro, t)
  {
    if Requested(doc, libraryExists, Ref(model, macro), t) {
      var a, m :| RequestedBy(doc, libraryExists, Ref(model, macro), t, a, m);
      ResolveNames(doc, m, t);
    }
    if AsksFor(doc, libraryExists, model, macro, t) {
      var a, m :| a in doc.dynamicAutomatons && libraryExists(a.lib) && a.id == model
                  && m in a.macroConnects && m.macroConnection == macro && Names(doc, m.id, t);
      ResolveNames(doc, m, t);
      assert RequestedBy(doc, libraryExists, Ref(model, macro), t, a, m);
    }
  }

  // ---------------------------------------------------------------------------
  // What the network offers

  ghost predicate LineOf(data: NetworkData, name: Id) {
    exists l :: l in data.lines && BothConnected(l) && l.id == name
  }

  ghost predicate TfoOf(data: NetworkData, name: Id) {
    || (exists l :: l in data.tfos && BothConnected(l) && l.id == name)
    || (exists t :: t in data.threeWindings && AllConnected(t) && t.id == name)
  }

  /** The elements of the input for a target: of a level the first bus or every
      shunt on a bus, or the line or transformer of that name, if connected. */
  ghost predicate Offers(data: NetworkData, t: Target, kind: ElementType, element: Id) {
    match t
    case BusLevel(level) =>
      kind == NODE && exists vl :: vl in data.voltageLevels && vl.id == level && vl.buses != [] && element == vl.buses[0]
    case ShuntLevel(level) =>
      kind == SHUNT && exists vl, x :: vl in data.voltageLevels && vl.id == level
                                       && x in vl.shunts && x.bus in vl.buses && element == x.id
    case NamedLine(name) => kind == LINE && element == name && LineOf(data, name)
    case NamedTfo(name) => kind == TFO && element == name && TfoOf(data, name)
  }

  /** The records walked are those of the buses of the input. */
  lemma RecordsOfInput(inp: Inputs, data: NetworkData, n: NodeRecord) returns (vl: VoltageLevelData)
    requires BuiltFrom(inp, data) && n in inp.Records(inp.order)
    ensures vl in data.voltageLevels && n.id in vl.buses && NodeIs(inp.env, data, vl, n)
  {
    var i :| 0 <= i < |inp.order| && inp.Records(inp.order)[i] == n;
    assert inp.order[i] in Elements(inp.order);
    vl := LevelOfNode(inp.env, data, inp.order[i]);
    NodesOfInput(inp.env, data, vl, inp.order[i]);
  }

  lemma RecordOfBus(inp: Inputs, data: NetworkData, vl: VoltageLevelData, id: Id) returns (n: NodeRecord)
    requires BuiltFrom(inp, data) && vl in data.voltageLevels && id in vl.buses
    ensures n in inp.Records(inp.order) && n.id == id && NodeIs(inp.env, data, vl, n)
  {
    NodesOfInput(inp.env, data, vl, id);
    n := inp.nodes[id];
    assert id in Elements(inp.order);
    var i :| 0 <= i < |inp.order| && inp.order[i] == id;
    assert inp.Records(inp.order)[i] == n;
  }

  lemma OfferedByRecord(inp: Inputs, data: NetworkData, n: NodeRecord, t: Target, kind: ElementType, element: Id)
    requires BuiltFrom(inp, data) && n in inp.Records(inp.order) && OfferedBy(n, inp.levelNodes, t, kind, element)
    ensures Offers(data, t, kind, element)
  {
    var vl := RecordsOfInput(inp, data, n);
    NodesOfLevel(data.voltageLevels, vl);
    match t
    case BusLevel(level) =>
    case ShuntLevel(level) =>
      assert ShuntAt(vl, element, n.id);
    case NamedLine(name) =>
      assert LineAt(data, name, n.id);
    case NamedTfo(name) =>
      assert TfoAt(data, name, n.id);
  }

  /** A bus of the input is that of a level. */
  lemma LevelWithBus(levels: seq<VoltageLevelData>, b: Id) returns (vl: VoltageLevelData)
    requires b in KnownBuses(levels)
    ensures vl in levels && b in vl.buses
  {
    KnownInSome(levels, b);
    var i :| 0 <= i < |levels| && b in levels[i].buses;
    vl := levels[i];
  }

  lemma RecordWithLine(inp: Inputs, data: NetworkData, name: Id) returns (n: NodeRecord)
    requires BuiltFrom(inp, data) && LineOf(data, name)
    ensures n in inp.Records(inp.order) && name in n.lines
  {
    var l :| l in data.lines && BothConnected(l) && l.id == name;
    assert BranchWellFormed(KnownBuses(data.voltageLevels), l);
    var vl := LevelWithBus(data.voltageLevels, l.bus1);
    n := RecordOfBus(inp, data, vl, l.bus1);
    assert LineAt(data, name, l.bus1);
  }

  lemma RecordWithTfo(inp: Inputs, data: NetworkData, name: Id) returns (n: NodeRecord)
    requires BuiltFrom(inp, data) && TfoOf(data, name)
    ensures n in inp.Records(inp.order) && name in n.tfos
  {
    var bus;
    if l :| l in data.tfos && BothConnected(l) && l.id == name {
      assert BranchWellFormed(KnownBuses(data.voltageLevels), l);
      bus := l.bus1;
    } else {
      var t :| t in data.threeWindings && AllConnected(t) && t.id == name;
      bus := t.bus1;
    }
    var vl := LevelWithBus(data.voltageLevels, bus);
    n := RecordOfBus(inp, data, vl, bus);
    assert TfoAt(data, name, bus);
  }

  lemma RecordThatOffers(inp: Inputs, data: NetworkData, t: Target, kind: ElementType, element: Id)
    returns (n: NodeRecord)
    requires BuiltFrom(inp, data) && Offers(data, t, kind, element)
    ensures n in inp.Records(inp.order) && OfferedBy(n, inp.levelNodes, t, kind, element)
  {
    match t {
      case BusLevel(level) =>
        var vl :| vl in data.voltageLevels && vl.id == level && vl.buses != [] && element == vl.buses[0];
        n := RecordOfBus(inp, data, vl, vl.buses[0]);
        NodesOfLevel(data.voltageLevels, vl);
      case ShuntLevel(level) =>
        var vl, x :| vl in data.voltageLevels && vl.id == level && x in vl.shunts && x.bus in vl.buses && element == x.id;
        n := RecordOfBus(inp, data, vl, x.bus);
        assert ShuntAt(vl, element, n.id);
      case NamedLine(name) =>
        n := RecordWithLine(inp, data, name);
      case NamedTfo(name) =>
        n := RecordWithTfo(inp, data, name);
    }
  }

  /** A connection that the two input files give a model. */
  ghost predicate Given(inp: Inputs, data: NetworkData, model: Id, c: MacroConnection) {
    exists t :: AsksFor(inp.doc, inp.libraryExists, model, c.id, t)
                && Offers(data, t, c.elementType, c.connectedElementId)
  }

  lemma WantedIsGiven(inp: Inputs, data: NetworkData, model: Id, c: MacroConnection)
    requires BuiltFrom(inp, data)
    ensures Wanted(inp.doc, inp.libraryExists, inp.Records(inp.order), inp.levelNodes, model, c)
       <==> Given(inp, data, model, c)
  {
    var nodes := inp.Records(inp.order);
    if Wanted(inp.doc, inp.libraryExists, nodes, inp.levelNodes, model, c) {
      var t :| Requested(inp.doc, inp.libraryExists, Ref(model, c.id), t)
               && Offered(nodes, inp.levelNodes, t, c.elementType, c.connectedElementId);
      RequestedIsAsked(inp.doc, inp.libraryExists, model, c.id, t);
      var n :| n in nodes && OfferedBy(n, inp.levelNodes, t, c.elementType, c.connectedElementId);
      OfferedByRecord(inp, data, n, t, c.elementType, c.connectedElementId);
    }
    if Given(inp, data, model, c) {
      var t :| AsksFor(inp.doc, inp.libraryExists, model, c.id, t)
               && Offers(data, t, c.elementType, c.connectedElementId);
      RequestedIsAsked(inp.doc, inp.libraryExists, model, c.id, t);
      var n := RecordThatOffers(inp, data, t, c.elementType, c.connectedElementId);
      assert Offered(nodes, inp.levelNodes, t, c.elementType, c.connectedElementId);
    }
  }

  /** The connections given to a model have concatenations of their own. */
  ghost predicate GivenKeysDiffer(inp: Inputs, data: NetworkData, model: Id) {
    forall c, e :: Given(inp, data, model, c) && Given(inp, data, model, e) && Key(c) == Key(e) ==> c == e
  }

  lemma WantedByModel(inp: Inputs, data: NetworkData, model: Id)
    requires BuiltFrom(inp, data)
    ensures forall c :: Wanted(inp.doc, inp.libraryExists, inp.Records(inp.order), inp.levelNodes, model, c)
                   <==> Given(inp, data, model, c)
    ensures WantedKeysDiffer(inp.doc, inp.libraryExists, inp.Records(inp.order), inp.levelNodes, model)
       <==> GivenKeysDiffer(inp, data, model)
  {
    forall c ensures Wanted(inp.doc, inp.libraryExists, inp.Records(inp.order), inp.levelNodes, model, c)
                <==> Given(inp, data, model, c)
    {
      WantedIsGiven(inp, data, model, c);
    }
  }

  lemma ConnectionsAreGiven(inp: Inputs, data: NetworkData, models: Models, used: set<Id>, nbShunts: map<Id, nat>,
                            d: Definition, m: DynamicModelDefinition)
    requires BuiltFrom(inp, data) && HandsOverModels(inp, models, used, nbShunts, d) && m in d.dynamicModels
    ensures Ordered(m.nodeConnections) && forall c <- m.nodeConnections :: Given(inp, data, m.id, c)
  {
    HandedModel(inp, models, used, nbShunts, d, m);
    WalkIsDirectScan(inp.doc, inp.libraryExists, inp.Records(inp.order), inp.levelNodes, m.id);
    WantedByModel(inp, data, m.id);
  }

  lemma NothingIsLost(inp: Inputs, data: NetworkData, models: Models, used: set<Id>, nbShunts: map<Id, nat>,
                      d: Definition, m: DynamicModelDefinition)
    requires BuiltFrom(inp, data) && HandsOverModels(inp, models, used, nbShunts, d) && m in d.dynamicModels
    ensures (forall c :: Given(inp, data, m.id, c) ==> c in m.nodeConnections) <==> GivenKeysDiffer(inp, data, m.id)
  {
    HandedModel(inp, models, used, nbShunts, d, m);
    WantedByModel(inp, data, m.id);
    NothingIsLostExactly(inp.doc, inp.libraryExists, inp.Records(inp.order), inp.levelNodes, m.id);
  }

  /** End to end, a model handed to the writers has only connections that the two
      input files give it: a NODE connection leads to the first bus in the input's
      list for the level that the association names, and so on. It has all of them
      exactly if no two have one concatenation. */
  lemma ConnectionsOfInput(inp: Inputs, data: NetworkData, models: Models, used: set<Id>, nbShunts: map<Id, nat>,
                           d: Definition, m: DynamicModelDefinition)
    requires BuiltFrom(inp, data) && HandsOverModels(inp, models, used, nbShunts, d) && m in d.dynamicModels
    ensures Ordered(m.nodeConnections) && forall c <- m.nodeConnections :: Given(inp, data, m.id, c)
    ensures (forall c :: Given(inp, data, m.id, c) ==> c in m.nodeConnections) <==> GivenKeysDiffer(inp, data, m.id)
  {
    ConnectionsAreGiven(inp, data, models, used, nbShunts, d, m);
    NothingIsLost(inp, data, models, used, nbShunts, d, m);
  }
}
