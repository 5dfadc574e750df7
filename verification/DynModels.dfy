/** DynModelAlgorithm: the dynamic models of the assembling file and the network
    elements they connect to. */
module DynModels {
  import opened Wrappers
  import opened Reachability
  import opened Network
  import opened MacroConnections

  // ---------------------------------------------------------------------------
  // The assembling document

  datatype MacroConnect = MacroConnect(macroConnection: Id, id: Id)

  datatype DynamicAutomaton = DynamicAutomaton(id: Id, lib: string, macroConnects: seq<MacroConnect>)

  /** At most one of the three is given; a bus, then a line, come first. */
  datatype SingleAssociation = SingleAssociation(id: Id, bus: Option<Id>, line: Option<Id>, tfo: Option<Id>)

  datatype MultipleAssociation = MultipleAssociation(id: Id, shuntLevel: Id)

  /** A macro connection, with the variables it connects. */
  datatype MacroConnector = MacroConnector(id: Id, connects: seq<(string, string)>)

  datatype AssemblingDocument = AssemblingDocument(
    macroConnections: seq<MacroConnector>,
    dynamicAutomatons: seq<DynamicAutomaton>,
    singleAssociations: seq<SingleAssociation>,
    multipleAssociations: seq<MultipleAssociation>)

  /** What an association points at. */
  datatype Target = BusLevel(level: Id) | NamedLine(name: Id) | NamedTfo(name: Id) | ShuntLevel(level: Id)

  /** The last association with an id, since later ones overwrite earlier ones. */
  function FindSingle(singles: seq<SingleAssociation>, id: Id): Option<SingleAssociation> {
    if singles == [] then None
    else if singles[|singles| - 1].id == id then Some(singles[|singles| - 1])
    else FindSingle(singles[..|singles| - 1], id)
  }

  function FindMultiple(multiples: seq<MultipleAssociation>, id: Id): Option<MultipleAssociation> {
    if multiples == [] then None
    else if multiples[|multiples| - 1].id == id then Some(multiples[|multiples| - 1])
    else FindMultiple(multiples[..|multiples| - 1], id)
  }

  /** The positions of the first and of the last of some ids that equal a given one. */
  predicate FirstWith(ids: seq<Id>, i: nat, id: Id) {
    && i < |ids| && ids[i] == id
    && forall k :: 0 <= k < i ==> ids[k] != id
  }

  predicate LastWith(ids: seq<Id>, j: nat, id: Id) {
    && j < |ids| && ids[j] == id
    && forall k :: j < k < |ids| ==> ids[k] != id
  }

  function MultipleIds(multiples: seq<MultipleAssociation>): seq<Id> {
    seq(|multiples|, i requires 0 <= i < |multiples| => multiples[i].id)
  }

  function SingleIds(singles: seq<SingleAssociation>): seq<Id> {
    seq(|singles|, i requires 0 <= i < |singles| => singles[i].id)
  }

  function TargetOfSingle(a: SingleAssociation): Option<Target> {
    if a.bus.Some? then Some(BusLevel(a.bus.value))
    else if a.line.Some? then Some(NamedLine(a.line.value))
    else if a.tfo.Some? then Some(NamedTfo(a.tfo.value))
    else None
  }

  function Resolve(doc: AssemblingDocument, macro: MacroConnect): Option<Target> {
    match FindSingle(doc.singleAssociations, macro.id)
    case Some(a) => TargetOfSingle(a)
    case None =>
      match FindMultiple(doc.multipleAssociations, macro.id)
      case Some(a) => Some(ShuntLevel(a.shuntLevel))
      case None => None
  }

  // ---------------------------------------------------------------------------
  // Extraction

  /** The class MacroConnect of the algorithm. */
  datatype Ref = Ref(dynModelId: Id, macroConnectionId: Id)

  type Connects = map<Target, seq<Ref>>

  /** Buses keep a set of references, the other targets a list. */
  function Push(connects: Connects, t: Target, r: Ref): Connects {
    if t !in connects then connects[t := [r]]
    else if t.BusLevel? && r in connects[t] then connects
    else connects[t := connects[t] + [r]]
  }

  function ExtractMacros(doc: AssemblingDocument, connects: Connects, a: DynamicAutomaton, k: nat): Connects
    requires k <= |a.macroConnects|
  {
    if k == 0 then connects
    else
      var before, macro := ExtractMacros(doc, connects, a, k - 1), a.macroConnects[k - 1];
      match Resolve(doc, macro)
      case Some(t) => Push(before, t, Ref(a.id, macro.macroConnection))
      case None => before
  }

  datatype Extracted = Extracted(automatons: map<Id, DynamicAutomaton>, connects: Connects)

  function Extract(doc: AssemblingDocument, libraryExists: string -> bool, automatons: seq<DynamicAutomaton>): Extracted {
    if automatons == [] then Extracted(map[], map[])
    else
      var before := Extract(doc, libraryExists, automatons[..|automatons| - 1]);
      var a := automatons[|automatons| - 1];
      if !libraryExists(a.lib) then before
      else Extracted(before.automatons[a.id := a], ExtractMacros(doc, before.connects, a, |a.macroConnects|))
  }

  // ---------------------------------------------------------------------------
  // Models

  datatype DynamicModelDefinition = DynamicModelDefinition(id: Id, lib: string, nodeConnections: seq<MacroConnection>)

  type Models = map<Id, DynamicModelDefinition>

  function AddMacroConnection(models: Models, automaton: DynamicAutomaton, c: MacroConnection): Models {
    if automaton.id !in models then
      models[automaton.id := DynamicModelDefinition(automaton.id, automaton.lib, Insert([], c))]
    else
      var m := models[automaton.id];
      models[automaton.id := m.(nodeConnections := Insert(m.nodeConnections, c))]
  }

  /** A connection asked for by an automaton. */
  datatype Event = Event(automaton: Id, connection: MacroConnection)

  function AddAll(automatons: map<Id, DynamicAutomaton>, models: Models, events: seq<Event>): Models {
    if events == [] then models
    else
      var before, e := AddAll(automatons, models, events[..|events| - 1]), events[|events| - 1];
      if e.automaton in automatons then AddMacroConnection(before, automatons[e.automaton], e.connection) else before
  }

  /** One event for each element, through one reference. */
  function ElementEvents(r: Ref, kind: ElementType, elements: seq<Id>): seq<Event> {
    seq(|elements|, i requires 0 <= i < |elements| =>
      Event(r.dynModelId, MacroConnection(r.macroConnectionId, kind, elements[i])))
  }

  function RefEvents(refs: seq<Ref>, kind: ElementType, elements: seq<Id>): seq<Event> {
    if refs == [] then []
    else RefEvents(refs[..|refs| - 1], kind, elements) + ElementEvents(refs[|refs| - 1], kind, elements)
  }

  function TargetEvents(connects: Connects, t: Target, kind: ElementType, elements: seq<Id>): seq<Event> {
    if t in connects then RefEvents(connects[t], kind, elements) else []
  }

  function LineEvents(connects: Connects, lines: seq<Id>): seq<Event> {
    if lines == [] then []
    else
      var l := lines[|lines| - 1];
      LineEvents(connects, lines[..|lines| - 1]) + TargetEvents(connects, NamedLine(l), LINE, [l])
  }

  function TfoEvents(connects: Connects, tfos: seq<Id>): seq<Event> {
    if tfos == [] then []
    else
      var t := tfos[|tfos| - 1];
      TfoEvents(connects, tfos[..|tfos| - 1]) + TargetEvents(connects, NamedTfo(t), TFO, [t])
  }

  /** The nodes of a level, of which the first one is connected. */
  function Front(levelNodes: map<Id, seq<Id>>, level: Id): seq<Id> {
    if level in levelNodes && levelNodes[level] != [] then [levelNodes[level][0]] else []
  }

  function NodeEvents(connects: Connects, levelNodes: map<Id, seq<Id>>, node: NodeRecord): seq<Event> {
    TargetEvents(connects, BusLevel(node.voltageLevel), NODE, Front(levelNodes, node.voltageLevel))
    + TargetEvents(connects, ShuntLevel(node.voltageLevel), SHUNT, node.shunts)
    + LineEvents(connects, node.lines)
    + TfoEvents(connects, node.tfos)
  }

  function MacrosOf(connects: Connects, t: Target): set<Id> {
    if t in connects then RefMacros(connects[t]) else {}
  }

  function RefMacros(refs: seq<Ref>): set<Id> {
    if refs == [] then {} else RefMacros(refs[..|refs| - 1]) + {refs[|refs| - 1].macroConnectionId}
  }

  function LineMacros(connects: Connects, lines: seq<Id>): set<Id> {
    if lines == [] then {}
    else LineMacros(connects, lines[..|lines| - 1]) + MacrosOf(connects, NamedLine(lines[|lines| - 1]))
  }

  function TfoMacros(connects: Connects, tfos: seq<Id>): set<Id> {
    if tfos == [] then {}
    else TfoMacros(connects, tfos[..|tfos| - 1]) + MacrosOf(connects, NamedTfo(tfos[|tfos| - 1]))
  }

  /** The macro connections a visit tags as used. */
  function UsedAt(connects: Connects, node: NodeRecord): set<Id> {
    MacrosOf(connects, BusLevel(node.voltageLevel)) + MacrosOf(connects, ShuntLevel(node.voltageLevel))
    + LineMacros(connects, node.lines) + TfoMacros(connects, node.tfos)
  }

  class DynModelAlgorithm {
    const levelNodes: map<Id, seq<Id>>
    var dynamicAutomatonsById: map<Id, DynamicAutomaton>
    var connects: Connects
    var models: Models
    var usedMacroConnections: set<Id>

    /** Every reference is to an automaton that was kept. */
    ghost predicate Valid()
      reads this`dynamicAutomatonsById, this`connects
    {
      RefsKnown(dynamicAutomatonsById, connects)
    }

    constructor (doc: AssemblingDocument, libraryExists: string -> bool, levelNodes: map<Id, seq<Id>>)
      ensures Valid() && this.levelNodes == levelNodes && models == map[] && usedMacroConnections == {}
      ensures Extracted(dynamicAutomatonsById, connects) == Extract(doc, libraryExists, doc.dynamicAutomatons)
    {
      this.levelNodes := levelNodes;
      dynamicAutomatonsById, connects, models, usedMacroConnections := map[], map[], map[], {};
      new;
      ExtractDynModels(doc, libraryExists);
      ExtractedRefsKnown(doc, libraryExists, doc.dynamicAutomatons);
    }

    method ExtractDynModels(doc: AssemblingDocument, libraryExists: string -> bool)
      requires dynamicAutomatonsById == map[] && connects == map[]
      modifies this`dynamicAutomatonsById, this`connects
      ensures Extracted(dynamicAutomatonsById, connects) == Extract(doc, libraryExists, doc.dynamicAutomatons)
    {
      var automatons := doc.dynamicAutomatons;
      for k := 0 to |automatons|
        invariant Extracted(dynamicAutomatonsById, connects) == Extract(doc, libraryExists, automatons[..k])
      {
        var a := automatons[k];
        assert automatons[..k + 1][..k] == automatons[..k];
        if libraryExists(a.lib) {
          dynamicAutomatonsById := dynamicAutomatonsById[a.id := a];
          ExtractAutomaton(doc, a);
        }
      }
      assert automatons[..|automatons|] == automatons;
    }

    method ExtractAutomaton(doc: AssemblingDocument, a: DynamicAutomaton)
      modifies this`connects
      ensures connects == ExtractMacros(doc, old(connects), a, |a.macroConnects|)
    {
      for k := 0 to |a.macroConnects|
        invariant connects == ExtractMacros(doc, old(connects), a, k)
      {
        var macro := a.macroConnects[k];
        var ref := Ref(a.id, macro.macroConnection);
        var single := FindSingle(doc.singleAssociations, macro.id);
        if single.Some? {
          var association := single.value;
          if association.bus.Some? {
            PushRef(BusLevel(association.bus.value), ref);
          } else if association.line.Some? {
            PushRef(NamedLine(association.line.value), ref);
          } else if association.tfo.Some? {
            PushRef(NamedTfo(association.tfo.value), ref);
          }
        } else {
          var multiple := FindMultiple(doc.multipleAssociations, macro.id);
          if multiple.Some? {
            PushRef(ShuntLevel(multiple.value.shuntLevel), ref);
          }
        }
      }
    }

    method PushRef(t: Target, ref: Ref)
      modifies this`connects
      ensures connects == Push(old(connects), t, ref)
    {
      if t !in connects {
        connects := connects[t := []];
      }
      if !(t.BusLevel? && ref in connects[t]) {
        assert [] + [ref] == [ref];
        connects := connects[t := connects[t] + [ref]];
      }
    }

    method AddMacroConnectionToModelDefinitions(automaton: DynamicAutomaton, c: MacroConnection)
      modifies this`models
      ensures models == AddMacroConnection(old(models), automaton, c)
    {
      if automaton.id !in models {
        var modelDef := DynamicModelDefinition(automaton.id, automaton.lib, []);
        modelDef := modelDef.(nodeConnections := Insert(modelDef.nodeConnections, c));
        models := models[automaton.id := modelDef];
      } else {
        var modelDef := models[automaton.id];
        models := models[automaton.id := modelDef.(nodeConnections := Insert(modelDef.nodeConnections, c))];
      }
    }

    method ConnectRef(ref: Ref, kind: ElementType, elements: seq<Id>)
      requires ref.dynModelId in dynamicAutomatonsById
      modifies this`models, this`usedMacroConnections
      ensures models == AddAll(dynamicAutomatonsById, old(models), ElementEvents(ref, kind, elements))
      ensures usedMacroConnections == old(usedMacroConnections) + {ref.macroConnectionId}
    {
      usedMacroConnections := usedMacroConnections + {ref.macroConnectionId};
      var automaton := dynamicAutomatonsById[ref.dynModelId];
      ghost var events := ElementEvents(ref, kind, elements);
      for k := 0 to |elements|
        invariant models == AddAll(dynamicAutomatonsById, old(models), events[..k])
        invariant usedMacroConnections == old(usedMacroConnections) + {ref.macroConnectionId}
      {
        AddMacroConnectionToModelDefinitions(automaton, MacroConnection(ref.macroConnectionId, kind, elements[k]));
        assert events[..k + 1][..k] == events[..k];
      }
      assert events[..|elements|] == events;
    }

    /** connectMacroConnectionFor...: the references of one target, if any. */
    method Connect(t: Target, kind: ElementType, elements: seq<Id>)
      requires Valid()
      modifies this`models, this`usedMacroConnections
      ensures models == AddAll(dynamicAutomatonsById, old(models), TargetEvents(connects, t, kind, elements))
      ensures usedMacroConnections == old(usedMacroConnections) + MacrosOf(connects, t)
    {
      if t !in connects {
        return;
      }
      var refs := connects[t];
      ghost var before, automatons := models, dynamicAutomatonsById;
      for k := 0 to |refs|
        invariant models == AddAll(automatons, before, RefEvents(refs[..k], kind, elements))
        invariant usedMacroConnections == old(usedMacroConnections) + RefMacros(refs[..k])
      {
        assert refs[..k + 1][..k] == refs[..k] && refs[k] in refs;
        ConnectRef(refs[k], kind, elements);
        AddMore(automatons, before, RefEvents(refs[..k], kind, elements), ElementEvents(refs[k], kind, elements));
      }
      assert refs[..|refs|] == refs;
    }

    method Visit(node: NodeRecord)
      requires Valid() && node.voltageLevel in levelNodes && levelNodes[node.voltageLevel] != []
      modifies this`models, this`usedMacroConnections
      ensures models == AddAll(dynamicAutomatonsById, old(models), NodeEvents(connects, levelNodes, node))
      ensures usedMacroConnections == old(usedMacroConnections) + UsedAt(connects, node)
    {
      var vl := node.voltageLevel;
      ghost var automatons, before := dynamicAutomatonsById, models;
      ghost var bus := TargetEvents(connects, BusLevel(vl), NODE, Front(levelNodes, vl));
      ghost var shunt := TargetEvents(connects, ShuntLevel(vl), SHUNT, node.shunts);
      Connect(BusLevel(vl), NODE, [levelNodes[vl][0]]);
      Connect(ShuntLevel(vl), SHUNT, node.shunts);
      AddMore(automatons, before, bus, shunt);
      ConnectLines(node.lines);
      AddMore(automatons, before, bus + shunt, LineEvents(connects, node.lines));
      ConnectTfos(node.tfos);
      AddMore(automatons, before, bus + shunt + LineEvents(connects, node.lines), TfoEvents(connects, node.tfos));
    }

    method ConnectLines(lines: seq<Id>)
      requires Valid()
      modifies this`models, this`usedMacroConnections
      ensures models == AddAll(dynamicAutomatonsById, old(models), LineEvents(connects, lines))
      ensures usedMacroConnections == old(usedMacroConnections) + LineMacros(connects, lines)
    {
      ghost var automatons, before := dynamicAutomatonsById, models;
      for k := 0 to |lines|
        invariant models == AddAll(automatons, before, LineEvents(connects, lines[..k]))
        invariant usedMacroConnections == old(usedMacroConnections) + LineMacros(connects, lines[..k])
      {
        var l := lines[k];
        Connect(NamedLine(l), LINE, [l]);
        assert lines[..k + 1][..k] == lines[..k];
        AddMore(automatons, before, LineEvents(connects, lines[..k]), TargetEvents(connects, NamedLine(l), LINE, [l]));
      }
      assert lines[..|lines|] == lines;
    }

    method ConnectTfos(tfos: seq<Id>)
      requires Valid()
      modifies this`models, this`usedMacroConnections
      ensures models == AddAll(dynamicAutomatonsById, old(models), TfoEvents(connects, tfos))
      ensures usedMacroConnections == old(usedMacroConnections) + TfoMacros(connects, tfos)
    {
      ghost var automatons, before := dynamicAutomatonsById, models;
      for k := 0 to |tfos|
        invariant models == AddAll(automatons, before, TfoEvents(connects, tfos[..k]))
        invariant usedMacroConnections == old(usedMacroConnections) + TfoMacros(connects, tfos[..k])
      {
        var t := tfos[k];
        Connect(NamedTfo(t), TFO, [t]);
        assert tfos[..k + 1][..k] == tfos[..k];
        AddMore(automatons, before, TfoEvents(connects, tfos[..k]), TargetEvents(connects, NamedTfo(t), TFO, [t]));
      }
      assert tfos[..|tfos|] == tfos;
    }
  }

  ghost predicate RefsKnown(automatons: map<Id, DynamicAutomaton>, connects: Connects) {
    && (forall id <- automatons :: automatons[id].id == id)
    && (forall t, r :: t in connects && r in connects[t] ==> r.dynModelId in automatons)
  }

  lemma {:induction false} AddMore(automatons: map<Id, DynamicAutomaton>, models: Models, first: seq<Event>, second: seq<Event>)
    ensures AddAll(automatons, models, first + second) == AddAll(automatons, AddAll(automatons, models, first), second)
    decreases |second|
  {
    if second == [] {
      assert first + second == first;
    } else {
      var n := |second| - 1;
      AddMore(automatons, models, first, second[..n]);
      assert (first + second)[..|first| + n] == first + second[..n];
    }
  }

  lemma {:induction false} ExtractedRefsKnown(doc: AssemblingDocument, libraryExists: string -> bool,
                                              automatons: seq<DynamicAutomaton>)
    ensures var x := Extract(doc, libraryExists, automatons); RefsKnown(x.automatons, x.connects)
    decreases |automatons|
  {
    if automatons != [] {
      var n := |automatons| - 1;
      ExtractedRefsKnown(doc, libraryExists, automatons[..n]);
      var before, a := Extract(doc, libraryExists, automatons[..n]), automatons[n];
      ExtractMacrosKnown(doc, before.automatons[a.id := a], before.connects, a, |a.macroConnects|);
    }
  }

  lemma {:induction false} ExtractMacrosKnown(doc: AssemblingDocument, automatons: map<Id, DynamicAutomaton>,
                                              connects: Connects, a: DynamicAutomaton, k: nat)
    requires RefsKnown(automatons, connects) && a.id in automatons && k <= |a.macroConnects|
    ensures RefsKnown(automatons, ExtractMacros(doc, connects, a, k))
  {
    if k > 0 {
      ExtractMacrosKnown(doc, automatons, connects, a, k - 1);
    }
  }
}
