/**
 After the walk, the connections of every dynamic model are those of a direct
 scan of the assembling file against the nodes visited, in whatever order they
 were visited and however often.
 */
module DynModelLaws {
  import opened Wrappers
  import opened Reachability
  import opened Network
  import opened MacroConnections
  import opened DynModels

  // ---------------------------------------------------------------------------
  // The direct scan

  /** A loadable automaton asks, through a macro connection, for a target. */
  ghost predicate Requested(doc: AssemblingDocument, libraryExists: string -> bool, r: Ref, t: Target) {
    exists a, m :: RequestedBy(doc, libraryExists, r, t, a, m)
  }

  ghost predicate RequestedBy(doc: AssemblingDocument, libraryExists: string -> bool, r: Ref, t: Target,
                              a: DynamicAutomaton, m: MacroConnect)
  {
    && a in doc.dynamicAutomatons && libraryExists(a.lib) && a.id == r.dynModelId
    && m in a.macroConnects && m.macroConnection == r.macroConnectionId
    && Resolve(doc, m) == Some(t)
  }

  /** The network offers an element for a target. */
  ghost predicate Offered(nodes: seq<NodeRecord>, levelNodes: map<Id, seq<Id>>, t: Target, kind: ElementType, element: Id) {
    exists n :: n in nodes && OfferedBy(n, levelNodes, t, kind, element)
  }

  predicate OfferedBy(n: NodeRecord, levelNodes: map<Id, seq<Id>>, t: Target, kind: ElementType, element: Id) {
    match t
    case BusLevel(level) =>
      && kind == NODE && n.voltageLevel == level
      && level in levelNodes && levelNodes[level] != [] && element == levelNodes[level][0]
    case ShuntLevel(level) => kind == SHUNT && n.voltageLevel == level && element in n.shunts
    case NamedLine(name) => kind == LINE && name in n.lines && element == name
    case NamedTfo(name) => kind == TFO && name in n.tfos && element == name
  }

  /** A connection the direct scan gives a model. */
  ghost predicate Wanted(doc: AssemblingDocument, libraryExists: string -> bool, nodes: seq<NodeRecord>,
                         levelNodes: map<Id, seq<Id>>, model: Id, c: MacroConnection)
  {
    exists t ::
      && Requested(doc, libraryExists, Ref(model, c.id), t)
      && Offered(nodes, levelNodes, t, c.elementType, c.connectedElementId)
  }

  // ---------------------------------------------------------------------------
  // Extraction

  predicate Has(connects: Connects, t: Target, r: Ref) {
    t in connects && r in connects[t]
  }

  lemma PushHas(connects: Connects, t: Target, r: Ref, t': Target, r': Ref)
    ensures Has(Push(connects, t, r), t', r') <==> Has(connects, t', r') || (t == t' && r == r')
  {
  }

  ghost predicate RequestedUpTo(doc: AssemblingDocument, a: DynamicAutomaton, k: nat, t: Target, r: Ref)
    requires k <= |a.macroConnects|
  {
    && a.id == r.dynModelId
    && exists i :: 0 <= i < k && a.macroConnects[i].macroConnection == r.macroConnectionId
                   && Resolve(doc, a.macroConnects[i]) == Some(t)
  }

  lemma {:induction false} MacrosHas(doc: AssemblingDocument, connects: Connects, a: DynamicAutomaton, k: nat, t: Target, r: Ref)
    requires k <= |a.macroConnects|
    ensures Has(ExtractMacros(doc, connects, a, k), t, r) <==> Has(connects, t, r) || RequestedUpTo(doc, a, k, t, r)
  {
    if k > 0 {
      MacrosHas(doc, connects, a, k - 1, t, r);
      var macro := a.macroConnects[k - 1];
      match Resolve(doc, macro)
      case Some(t') =>
        PushHas(ExtractMacros(doc, connects, a, k - 1), t', Ref(a.id, macro.macroConnection), t, r);
      case None =>
    }
  }

  /** The maps built before the walk hold exactly what is requested. */
  lemma {:induction false} ExtractHas(doc: AssemblingDocument, libraryExists: string -> bool,
                                      automatons: seq<DynamicAutomaton>, t: Target, r: Ref)
    ensures Has(Extract(doc, libraryExists, automatons).connects, t, r)
       <==> exists a :: a in automatons && libraryExists(a.lib) && RequestedUpTo(doc, a, |a.macroConnects|, t, r)
    decreases |automatons|
  {
    if automatons != [] {
      var n := |automatons| - 1;
      var a := automatons[n];
      ExtractHas(doc, libraryExists, automatons[..n], t, r);
      assert automatons == automatons[..n] + [a];
      MacrosHas(doc, Extract(doc, libraryExists, automatons[..n]).connects, a, |a.macroConnects|, t, r);
      assert a in automatons && forall b <- automatons[..n] :: b in automatons;
    }
  }

  lemma ExtractedIsRequested(doc: AssemblingDocument, libraryExists: string -> bool, t: Target, r: Ref)
    ensures Has(Extract(doc, libraryExists, doc.dynamicAutomatons).connects, t, r) <==> Requested(doc, libraryExists, r, t)
  {
    ExtractHas(doc, libraryExists, doc.dynamicAutomatons, t, r);
    if Requested(doc, libraryExists, r, t) {
      var a, m :| RequestedBy(doc, libraryExists, r, t, a, m);
      var i :| 0 <= i < |a.macroConnects| && a.macroConnects[i] == m;
      assert RequestedUpTo(doc, a, |a.macroConnects|, t, r);
    }
    if Has(Extract(doc, libraryExists, doc.dynamicAutomatons).connects, t, r) {
      var a :| a in doc.dynamicAutomatons && libraryExists(a.lib) && RequestedUpTo(doc, a, |a.macroConnects|, t, r);
      var i :| 0 <= i < |a.macroConnects| && a.macroConnects[i].macroConnection == r.macroConnectionId
               && Resolve(doc, a.macroConnects[i]) == Some(t);
      assert RequestedBy(doc, libraryExists, r, t, a, a.macroConnects[i]);
    }
  }

  // ---------------------------------------------------------------------------
  // The events of the walk

  lemma {:induction false} RefEventsMembers(refs: seq<Ref>, kind: ElementType, elements: seq<Id>, e: Event)
    ensures e in RefEvents(refs, kind, elements)
       <==> Ref(e.automaton, e.connection.id) in refs && e.connection.elementType == kind
            && e.connection.connectedElementId in elements
    decreases |refs|
  {
    if refs != [] {
      var n := |refs| - 1;
      RefEventsMembers(refs[..n], kind, elements, e);
      assert refs == refs[..n] + [refs[n]];
      ElementEventsMembers(refs[n], kind, elements, e);
    }
  }

  lemma ElementEventsMembers(r: Ref, kind: ElementType, elements: seq<Id>, e: Event)
    ensures e in ElementEvents(r, kind, elements)
       <==> r == Ref(e.automaton, e.connection.id) && e.connection.elementType == kind
            && e.connection.connectedElementId in elements
  {
    if r == Ref(e.automaton, e.connection.id) && e.connection.elementType == kind && e.connection.connectedElementId in elements {
      var i :| 0 <= i < |elements| && elements[i] == e.connection.connectedElementId;
      assert ElementEvents(r, kind, elements)[i] == e;
    }
  }

  lemma TargetEventsMembers(connects: Connects, t: Target, kind: ElementType, elements: seq<Id>, e: Event)
    ensures e in TargetEvents(connects, t, kind, elements)
       <==> Has(connects, t, Ref(e.automaton, e.connection.id)) && e.connection.elementType == kind
            && e.connection.connectedElementId in elements
  {
    if t in connects {
      RefEventsMembers(connects[t], kind, elements, e);
    }
  }

  lemma {:induction false} LineEventsMembers(connects: Connects, lines: seq<Id>, e: Event)
    ensures e in LineEvents(connects, lines)
       <==> var l := e.connection.connectedElementId;
            l in lines && e.connection.elementType == LINE && Has(connects, NamedLine(l), Ref(e.automaton, e.connection.id))
    decreases |lines|
  {
    if lines != [] {
      var n := |lines| - 1;
      LineEventsMembers(connects, lines[..n], e);
      assert lines == lines[..n] + [lines[n]];
      TargetEventsMembers(connects, NamedLine(lines[n]), LINE, [lines[n]], e);
    }
  }

  lemma {:induction false} TfoEventsMembers(connects: Connects, tfos: seq<Id>, e: Event)
    ensures e in TfoEvents(connects, tfos)
       <==> var t := e.connection.connectedElementId;
            t in tfos && e.connection.elementType == TFO && Has(connects, NamedTfo(t), Ref(e.automaton, e.connection.id))
    decreases |tfos|
  {
    if tfos != [] {
      var n := |tfos| - 1;
      TfoEventsMembers(connects, tfos[..n], e);
      assert tfos == tfos[..n] + [tfos[n]];
      TargetEventsMembers(connects, NamedTfo(tfos[n]), TFO, [tfos[n]], e);
    }
  }

  /** A visit asks for exactly what its node offers to the targets held. */
  lemma NodeEventsMembers(connects: Connects, levelNodes: map<Id, seq<Id>>, node: NodeRecord, e: Event)
    ensures e in NodeEvents(connects, levelNodes, node)
       <==> exists t :: Has(connects, t, Ref(e.automaton, e.connection.id))
                        && OfferedBy(node, levelNodes, t, e.connection.elementType, e.connection.connectedElementId)
  {
    var vl, c, r := node.voltageLevel, e.connection, Ref(e.automaton, e.connection.id);
    TargetEventsMembers(connects, BusLevel(vl), NODE, Front(levelNodes, vl), e);
    TargetEventsMembers(connects, ShuntLevel(vl), SHUNT, node.shunts, e);
    LineEventsMembers(connects, node.lines, e);
    TfoEventsMembers(connects, node.tfos, e);
    if e in NodeEvents(connects, levelNodes, node) {
      var t := match c.elementType
        case NODE => BusLevel(vl)
        case SHUNT => ShuntLevel(vl)
        case LINE => NamedLine(c.connectedElementId)
        case TFO => NamedTfo(c.connectedElementId);
      assert Has(connects, t, r) && OfferedBy(node, levelNodes, t, c.elementType, c.connectedElementId);
    }
  }

  function WalkEvents(connects: Connects, levelNodes: map<Id, seq<Id>>, nodes: seq<NodeRecord>): seq<Event> {
    if nodes == [] then []
    else
      WalkEvents(connects, levelNodes, nodes[..|nodes| - 1]) + NodeEvents(connects, levelNodes, nodes[|nodes| - 1])
  }

  lemma {:induction false} WalkEventsMembers(connects: Connects, levelNodes: map<Id, seq<Id>>, nodes: seq<NodeRecord>, e: Event)
    ensures e in WalkEvents(connects, levelNodes, nodes)
       <==> exists t :: Has(connects, t, Ref(e.automaton, e.connection.id))
                        && Offered(nodes, levelNodes, t, e.connection.elementType, e.connection.connectedElementId)
    decreases |nodes|
  {
    if nodes != [] {
      var n := |nodes| - 1;
      WalkEventsMembers(connects, levelNodes, nodes[..n], e);
      NodeEventsMembers(connects, levelNodes, nodes[n], e);
      OfferedByLast(nodes, levelNodes, e.connection.elementType, e.connection.connectedElementId);
    }
  }

  lemma OfferedByLast(nodes: seq<NodeRecord>, levelNodes: map<Id, seq<Id>>, kind: ElementType, element: Id)
    requires nodes != []
    ensures forall t :: Offered(nodes, levelNodes, t, kind, element)
                   <==> Offered(nodes[..|nodes| - 1], levelNodes, t, kind, element)
                        || OfferedBy(nodes[|nodes| - 1], levelNodes, t, kind, element)
  {
    var n := |nodes| - 1;
    assert nodes == nodes[..n] + [nodes[n]];
    forall t
      ensures Offered(nodes, levelNodes, t, kind, element)
         <==> Offered(nodes[..n], levelNodes, t, kind, element) || OfferedBy(nodes[n], levelNodes, t, kind, element)
    {
      if Offered(nodes[..n], levelNodes, t, kind, element) {
        var m :| m in nodes[..n] && OfferedBy(m, levelNodes, t, kind, element);
        assert m in nodes;
      }
    }
  }

  // ---------------------------------------------------------------------------
  // The models of the walk

  /** A model is there when it was asked for, its connections were all asked for,
      and every connection asked for is there or was preceded by one with the
      same key. */
  ghost predicate Gathers(models: Models, automatons: map<Id, DynamicAutomaton>, events: seq<Event>, id: Id) {
    && (id in models <==> exists e :: e in events && e.automaton == id)
    && (id in models ==>
          && id in automatons && models[id].id == id && models[id].lib == automatons[id].lib
          && Ordered(models[id].nodeConnections)
          && (forall c <- models[id].nodeConnections :: Event(id, c) in events)
          && (forall e <- events :: e.automaton == id ==> HasKey(models[id].nodeConnections, Key(e.connection))))
  }

  lemma GathersOther(before: Models, automatons: map<Id, DynamicAutomaton>, prefix: seq<Event>, e: Event, id: Id)
    requires Gathers(before, automatons, prefix, id) && e.automaton != id && e.automaton in automatons
    requires automatons[e.automaton].id == e.automaton
    ensures Gathers(AddMacroConnection(before, automatons[e.automaton], e.connection), automatons, prefix + [e], id)
  {
    assert forall d <- prefix + [e] :: d.automaton == id ==> d in prefix;
    assert forall d <- prefix :: d in prefix + [e];
  }

  lemma GathersIts(before: Models, automatons: map<Id, DynamicAutomaton>, prefix: seq<Event>, e: Event, id: Id)
    requires Gathers(before, automatons, prefix, id) && e.automaton == id && id in automatons
    requires automatons[id].id == id
    ensures Gathers(AddMacroConnection(before, automatons[id], e.connection), automatons, prefix + [e], id)
  {
    var conns := if id in before then before[id].nodeConnections else [];
    GatherOne(conns, prefix, id, e.connection);
    assert e == Event(id, e.connection) && e in prefix + [e];
  }

  lemma {:induction false} AddAllGathers(automatons: map<Id, DynamicAutomaton>, events: seq<Event>, id: Id)
    requires forall k <- automatons :: automatons[k].id == k
    requires forall e <- events :: e.automaton in automatons
    ensures Gathers(AddAll(automatons, map[], events), automatons, events, id)
    decreases |events|
  {
    if events != [] {
      var prefix, e := events[..|events| - 1], events[|events| - 1];
      AddAllGathers(automatons, prefix, id);
      assert events == prefix + [e];
      if e.automaton == id {
        GathersIts(AddAll(automatons, map[], prefix), automatons, prefix, e, id);
      } else {
        GathersOther(AddAll(automatons, map[], prefix), automatons, prefix, e, id);
      }
    }
  }

  lemma GatherOne(conns: seq<MacroConnection>, events: seq<Event>, id: Id, c: MacroConnection)
    requires Ordered(conns) && forall d <- conns :: Event(id, d) in events
    requires forall e <- events :: e.automaton == id ==> HasKey(conns, Key(e.connection))
    ensures Ordered(Insert(conns, c))
    ensures forall d <- Insert(conns, c) :: Event(id, d) in events + [Event(id, c)]
    ensures forall e <- events + [Event(id, c)] :: e.automaton == id ==> HasKey(Insert(conns, c), Key(e.connection))
  {
    InsertOrdered(conns, c);
    InsertMembers(conns, c, c);
    forall d <- Insert(conns, c) ensures d in conns || d == c {
      InsertMembers(conns, c, d);
    }
    forall e <- events | e.automaton == id ensures HasKey(Insert(conns, c), Key(e.connection)) {
      var d :| d in conns && Key(d) == Key(e.connection);
      InsertMembers(conns, c, d);
    }
  }

  /** The models after walking nodes in order. */
  function WalkedModels(doc: AssemblingDocument, libraryExists: string -> bool, nodes: seq<NodeRecord>,
                        levelNodes: map<Id, seq<Id>>): Models
  {
    var x := Extract(doc, libraryExists, doc.dynamicAutomatons);
    AddAll(x.automatons, map[], WalkEvents(x.connects, levelNodes, nodes))
  }

  /** Main result. The walk gives a model exactly the connections of the direct
      scan, up to keys: those it has are wanted, no two have one key, and one
      with the key of each wanted connection is there. */
  lemma WalkIsDirectScan(doc: AssemblingDocument, libraryExists: string -> bool, nodes: seq<NodeRecord>,
                         levelNodes: map<Id, seq<Id>>, id: Id)
    ensures id in WalkedModels(doc, libraryExists, nodes, levelNodes)
       <==> exists c :: Wanted(doc, libraryExists, nodes, levelNodes, id, c)
    ensures id in WalkedModels(doc, libraryExists, nodes, levelNodes) ==>
              var conns := WalkedModels(doc, libraryExists, nodes, levelNodes)[id].nodeConnections;
              && Ordered(conns)
              && (forall c <- conns :: Wanted(doc, libraryExists, nodes, levelNodes, id, c))
              && (forall c :: Wanted(doc, libraryExists, nodes, levelNodes, id, c) ==> HasKey(conns, Key(c)))
  {
    var x := Extract(doc, libraryExists, doc.dynamicAutomatons);
    var events := WalkEvents(x.connects, levelNodes, nodes);
    ExtractedRefsKnown(doc, libraryExists, doc.dynamicAutomatons);
    forall e <- events ensures e.automaton in x.automatons {
      WalkEventsMembers(x.connects, levelNodes, nodes, e);
    }
    forall c ensures Event(id, c) in events <==> Wanted(doc, libraryExists, nodes, levelNodes, id, c) {
      EventIsWanted(doc, libraryExists, nodes, levelNodes, id, c);
    }
    AddAllGathers(x.automatons, events, id);
    if id in WalkedModels(doc, libraryExists, nodes, levelNodes) {
      var e :| e in events && e.automaton == id;
      assert Event(id, e.connection) in events;
    }
  }

  lemma EventIsWanted(doc: AssemblingDocument, libraryExists: string -> bool, nodes: seq<NodeRecord>,
                      levelNodes: map<Id, seq<Id>>, id: Id, c: MacroConnection)
    ensures Event(id, c) in WalkEvents(Extract(doc, libraryExists, doc.dynamicAutomatons).connects, levelNodes, nodes)
       <==> Wanted(doc, libraryExists, nodes, levelNodes, id, c)
  {
    var x := Extract(doc, libraryExists, doc.dynamicAutomatons);
    WalkEventsMembers(x.connects, levelNodes, nodes, Event(id, c));
    forall t ensures Has(x.connects, t, Ref(id, c.id)) <==> Requested(doc, libraryExists, Ref(id, c.id), t) {
      ExtractedIsRequested(doc, libraryExists, t, Ref(id, c.id));
    }
  }

  // ---------------------------------------------------------------------------
  // Macro ids whose keys identify connections

  /** Every model is that of an automaton of the document. */
  lemma AutomatonOfWalked(doc: AssemblingDocument, libraryExists: string -> bool, nodes: seq<NodeRecord>,
                          levelNodes: map<Id, seq<Id>>, id: Id)
    requires id in WalkedModels(doc, libraryExists, nodes, levelNodes)
    ensures exists a :: a in doc.dynamicAutomatons && a.id == id
  {
    WalkIsDirectScan(doc, libraryExists, nodes, levelNodes, id);
    var c :| Wanted(doc, libraryExists, nodes, levelNodes, id, c);
    var t :| Requested(doc, libraryExists, Ref(id, c.id), t);
    var a, m :| RequestedBy(doc, libraryExists, Ref(id, c.id), t, a, m);
  }

  /** The macro ids of the automatons with an id. */
  ghost function MacroIdsOf(doc: AssemblingDocument, id: Id): set<Id> {
    set a, m | a in doc.dynamicAutomatons && a.id == id && m in a.macroConnects :: m.macroConnection
  }

  lemma WantedThroughMacroId(doc: AssemblingDocument, libraryExists: string -> bool, nodes: seq<NodeRecord>,
                             levelNodes: map<Id, seq<Id>>, id: Id, c: MacroConnection)
    requires Wanted(doc, libraryExists, nodes, levelNodes, id, c)
    ensures c.id in MacroIdsOf(doc, id)
  {
    var t :| Requested(doc, libraryExists, Ref(id, c.id), t);
    var a, m :| RequestedBy(doc, libraryExists, Ref(id, c.id), t, a, m);
  }

  /** No two connections that the direct scan gives the model share a key. */
  ghost predicate WantedKeysDiffer(doc: AssemblingDocument, libraryExists: string -> bool, nodes: seq<NodeRecord>,
                                   levelNodes: map<Id, seq<Id>>, id: Id)
  {
    forall c, d ::
      (&& Wanted(doc, libraryExists, nodes, levelNodes, id, c) && Wanted(doc, libraryExists, nodes, levelNodes, id, d)
       && Key(c) == Key(d)) ==> c == d
  }

  /** In no network do they, if no macro id of the model extends another. */
  lemma FreeIdsDiffer(doc: AssemblingDocument, libraryExists: string -> bool, nodes: seq<NodeRecord>,
                      levelNodes: map<Id, seq<Id>>, id: Id)
    requires CollisionFree(MacroIdsOf(doc, id))
    ensures WantedKeysDiffer(doc, libraryExists, nodes, levelNodes, id)
  {
    KeysIdentifyExactly(MacroIdsOf(doc, id));
    forall c | Wanted(doc, libraryExists, nodes, levelNodes, id, c) ensures c.id in MacroIdsOf(doc, id) {
      WantedThroughMacroId(doc, libraryExists, nodes, levelNodes, id, c);
    }
  }

  /** With keys that differ the set loses nothing: a model has exactly the wanted
      connections. */
  lemma WalkIsExact(doc: AssemblingDocument, libraryExists: string -> bool, nodes: seq<NodeRecord>,
                    levelNodes: map<Id, seq<Id>>, id: Id, c: MacroConnection)
    requires WantedKeysDiffer(doc, libraryExists, nodes, levelNodes, id)
    requires id in WalkedModels(doc, libraryExists, nodes, levelNodes)
    ensures c in WalkedModels(doc, libraryExists, nodes, levelNodes)[id].nodeConnections
       <==> Wanted(doc, libraryExists, nodes, levelNodes, id, c)
  {
    WalkIsDirectScan(doc, libraryExists, nodes, levelNodes, id);
    if Wanted(doc, libraryExists, nodes, levelNodes, id, c) {
      var conns := WalkedModels(doc, libraryExists, nodes, levelNodes)[id].nodeConnections;
      var d :| d in conns && Key(d) == Key(c);
    }
  }

  /** And only then: a model has all wanted connections exactly if no two of them
      share a key. */
  lemma NothingIsLostExactly(doc: AssemblingDocument, libraryExists: string -> bool, nodes: seq<NodeRecord>,
                             levelNodes: map<Id, seq<Id>>, id: Id)
    requires id in WalkedModels(doc, libraryExists, nodes, levelNodes)
    ensures (forall c :: Wanted(doc, libraryExists, nodes, levelNodes, id, c) ==>
               c in WalkedModels(doc, libraryExists, nodes, levelNodes)[id].nodeConnections)
       <==> WantedKeysDiffer(doc, libraryExists, nodes, levelNodes, id)
  {
    var conns := WalkedModels(doc, libraryExists, nodes, levelNodes)[id].nodeConnections;
    if WantedKeysDiffer(doc, libraryExists, nodes, levelNodes, id) {
      forall c | Wanted(doc, libraryExists, nodes, levelNodes, id, c) ensures c in conns {
        WalkIsExact(doc, libraryExists, nodes, levelNodes, id, c);
      }
    }
    WalkIsDirectScan(doc, libraryExists, nodes, levelNodes, id);
    forall c, d | c in conns && d in conns && Key(c) == Key(d) ensures c == d {
      SameKeySame(conns, c, d);
    }
  }

  lemma SameKeySame(s: seq<MacroConnection>, c: MacroConnection, d: MacroConnection)
    requires Ordered(s) && c in s && d in s && Key(c) == Key(d)
    ensures c == d
  {
    OrderedIsDistinct(s);
    var i, j :| 0 <= i < |s| && s[i] == c && 0 <= j < |s| && s[j] == d;
  }

  lemma {:induction false} OrderedIsUnique(s: seq<MacroConnection>, t: seq<MacroConnection>)
    requires Ordered(s) && Ordered(t) && forall c :: c in s <==> c in t
    ensures s == t
    decreases |s|
  {
    assert t != [] ==> t[0] in t;
    if s != [] {
      assert s[0] in t && t[0] in s;
      var i, j :| 0 <= i < |t| && t[i] == s[0] && 0 <= j < |s| && s[j] == t[0];
      StrictWeakOrder(s[0], t[0], s[0]);
      assert s[0] == t[0];
      OrderedIsDistinct(s);
      OrderedIsDistinct(t);
      forall c ensures c in s[1..] <==> c in t[1..] {
        assert c in s <==> c == s[0] || c in s[1..];
        assert c in t <==> c == t[0] || c in t[1..];
      }
      OrderedIsUnique(s[1..], t[1..]);
      assert s == [s[0]] + s[1..] && t == [t[0]] + t[1..];
    }
  }

  /** Then neither the order of the walk nor repeated visits matter for the model. */
  lemma ModelInAnyOrder(doc: AssemblingDocument, libraryExists: string -> bool, nodes: seq<NodeRecord>,
                        again: seq<NodeRecord>, levelNodes: map<Id, seq<Id>>, id: Id)
    requires WantedKeysDiffer(doc, libraryExists, nodes, levelNodes, id) && forall n :: n in nodes <==> n in again
    ensures var m1, m2 := WalkedModels(doc, libraryExists, nodes, levelNodes),
                          WalkedModels(doc, libraryExists, again, levelNodes);
            (id in m1 <==> id in m2) && (id in m1 ==> m1[id] == m2[id])
  {
    var m1, m2 := WalkedModels(doc, libraryExists, nodes, levelNodes), WalkedModels(doc, libraryExists, again, levelNodes);
    forall c
      ensures Wanted(doc, libraryExists, nodes, levelNodes, id, c) <==> Wanted(doc, libraryExists, again, levelNodes, id, c)
    {
      SameOffers(nodes, again, levelNodes, c.elementType, c.connectedElementId);
    }
    WalkIsDirectScan(doc, libraryExists, nodes, levelNodes, id);
    WalkIsDirectScan(doc, libraryExists, again, levelNodes, id);
    if id in m1 {
      forall c ensures c in m1[id].nodeConnections <==> c in m2[id].nodeConnections {
        WalkIsExact(doc, libraryExists, nodes, levelNodes, id, c);
        WalkIsExact(doc, libraryExists, again, levelNodes, id, c);
      }
      OrderedIsUnique(m1[id].nodeConnections, m2[id].nodeConnections);
      ModelHeader(doc, libraryExists, nodes, levelNodes, id);
      ModelHeader(doc, libraryExists, again, levelNodes, id);
    }
  }

  /** Nor for all models, if no macro id of one extends another of the same. */
  lemma OrderDoesNotMatter(doc: AssemblingDocument, libraryExists: string -> bool, nodes: seq<NodeRecord>,
                           again: seq<NodeRecord>, levelNodes: map<Id, seq<Id>>)
    requires (forall id :: CollisionFree(MacroIdsOf(doc, id))) && forall n :: n in nodes <==> n in again
    ensures WalkedModels(doc, libraryExists, nodes, levelNodes) == WalkedModels(doc, libraryExists, again, levelNodes)
  {
    var m1, m2 := WalkedModels(doc, libraryExists, nodes, levelNodes), WalkedModels(doc, libraryExists, again, levelNodes);
    forall id ensures (id in m1 <==> id in m2) && (id in m1 ==> m1[id] == m2[id]) {
      FreeIdsDiffer(doc, libraryExists, nodes, levelNodes, id);
      ModelInAnyOrder(doc, libraryExists, nodes, again, levelNodes, id);
    }
  }

  lemma SameOffers(nodes: seq<NodeRecord>, again: seq<NodeRecord>, levelNodes: map<Id, seq<Id>>, kind: ElementType, e: Id)
    requires forall n :: n in nodes <==> n in again
    ensures forall t :: Offered(nodes, levelNodes, t, kind, e) <==> Offered(again, levelNodes, t, kind, e)
  {
  }

  lemma ModelHeader(doc: AssemblingDocument, libraryExists: string -> bool, nodes: seq<NodeRecord>,
                    levelNodes: map<Id, seq<Id>>, id: Id)
    requires id in WalkedModels(doc, libraryExists, nodes, levelNodes)
    ensures var m := WalkedModels(doc, libraryExists, nodes, levelNodes)[id];
            var automatons := Extract(doc, libraryExists, doc.dynamicAutomatons).automatons;
            m.id == id && id in automatons && m.lib == automatons[id].lib
  {
    var x := Extract(doc, libraryExists, doc.dynamicAutomatons);
    var events := WalkEvents(x.connects, levelNodes, nodes);
    ExtractedRefsKnown(doc, libraryExists, doc.dynamicAutomatons);
    forall e <- events ensures e.automaton in x.automatons {
      WalkEventsMembers(x.connects, levelNodes, nodes, e);
    }
    AddAllGathers(x.automatons, events, id);
  }

  // ---------------------------------------------------------------------------
  // Used macro connections

  function WalkUsed(connects: Connects, nodes: seq<NodeRecord>): set<Id> {
    if nodes == [] then {} else WalkUsed(connects, nodes[..|nodes| - 1]) + UsedAt(connects, nodes[|nodes| - 1])
  }

  lemma {:induction false} RefMacrosMembers(refs: seq<Ref>, macro: Id)
    ensures macro in RefMacros(refs) <==> exists r :: r in refs && r.macroConnectionId == macro
    decreases |refs|
  {
    if refs != [] {
      var n := |refs| - 1;
      RefMacrosMembers(refs[..n], macro);
      assert refs == refs[..n] + [refs[n]] && refs[n] in refs;
    }
  }

  lemma MacrosOfMembers(connects: Connects, t: Target, macro: Id)
    ensures macro in MacrosOf(connects, t) <==> exists r :: Has(connects, t, r) && r.macroConnectionId == macro
  {
    if t in connects {
      RefMacrosMembers(connects[t], macro);
      if macro in MacrosOf(connects, t) {
        var r :| r in connects[t] && r.macroConnectionId == macro;
        assert Has(connects, t, r);
      }
    }
  }

  lemma {:induction false} LineMacrosMembers(connects: Connects, names: seq<Id>, macro: Id)
    ensures macro in LineMacros(connects, names) <==> exists l :: l in names && macro in MacrosOf(connects, NamedLine(l))
    decreases |names|
  {
    if names != [] {
      var n := |names| - 1;
      LineMacrosMembers(connects, names[..n], macro);
      assert names == names[..n] + [names[n]] && names[n] in names;
    }
  }

  lemma {:induction false} TfoMacrosMembers(connects: Connects, names: seq<Id>, macro: Id)
    ensures macro in TfoMacros(connects, names) <==> exists l :: l in names && macro in MacrosOf(connects, NamedTfo(l))
    decreases |names|
  {
    if names != [] {
      var n := |names| - 1;
      TfoMacrosMembers(connects, names[..n], macro);
      assert names == names[..n] + [names[n]] && names[n] in names;
    }
  }

  /** A visit of the node looks the target up. */
  predicate LooksUp(n: NodeRecord, t: Target) {
    match t
    case BusLevel(level) => n.voltageLevel == level
    case ShuntLevel(level) => n.voltageLevel == level
    case NamedLine(name) => name in n.lines
    case NamedTfo(name) => name in n.tfos
  }

  lemma UsedAtMembers(connects: Connects, n: NodeRecord, macro: Id)
    ensures macro in UsedAt(connects, n) <==> exists t :: LooksUp(n, t) && macro in MacrosOf(connects, t)
  {
    LineMacrosMembers(connects, n.lines, macro);
    TfoMacrosMembers(connects, n.tfos, macro);
    if macro in MacrosOf(connects, BusLevel(n.voltageLevel)) {
      assert LooksUp(n, BusLevel(n.voltageLevel));
    } else if macro in MacrosOf(connects, ShuntLevel(n.voltageLevel)) {
      assert LooksUp(n, ShuntLevel(n.voltageLevel));
    } else if macro in LineMacros(connects, n.lines) {
      var l :| l in n.lines && macro in MacrosOf(connects, NamedLine(l));
      assert LooksUp(n, NamedLine(l));
    } else if macro in TfoMacros(connects, n.tfos) {
      var l :| l in n.tfos && macro in MacrosOf(connects, NamedTfo(l));
      assert LooksUp(n, NamedTfo(l));
    }
  }

  lemma {:induction false} WalkUsedMembers(connects: Connects, nodes: seq<NodeRecord>, macro: Id)
    ensures macro in WalkUsed(connects, nodes) <==> exists n :: n in nodes && macro in UsedAt(connects, n)
    decreases |nodes|
  {
    if nodes != [] {
      var n := |nodes| - 1;
      WalkUsedMembers(connects, nodes[..n], macro);
      assert nodes == nodes[..n] + [nodes[n]] && nodes[n] in nodes;
    }
  }

  /** A loadable automaton asks, through the macro connection, for a target that a
      visit looks up. */
  ghost predicate AskedOf(doc: AssemblingDocument, libraryExists: string -> bool, nodes: seq<NodeRecord>, macro: Id) {
    exists n, t, model ::
      n in nodes && LooksUp(n, t) && Requested(doc, libraryExists, Ref(model, macro), t)
  }

  /** The macro connections tagged as used are exactly those asked of some node, even
      where the node has no element for them. */
  lemma TaggedExactly(doc: AssemblingDocument, libraryExists: string -> bool, nodes: seq<NodeRecord>, macro: Id)
    ensures macro in WalkUsed(Extract(doc, libraryExists, doc.dynamicAutomatons).connects, nodes)
       <==> AskedOf(doc, libraryExists, nodes, macro)
  {
    var connects := Extract(doc, libraryExists, doc.dynamicAutomatons).connects;
    WalkUsedMembers(connects, nodes, macro);
    if n :| n in nodes && macro in UsedAt(connects, n) {
      UsedAtMembers(connects, n, macro);
      var t :| LooksUp(n, t) && macro in MacrosOf(connects, t);
      MacrosOfMembers(connects, t, macro);
      var r :| Has(connects, t, r) && r.macroConnectionId == macro;
      ExtractedIsRequested(doc, libraryExists, t, r);
      assert r == Ref(r.dynModelId, macro);
    }
    if n, t, model :| n in nodes && LooksUp(n, t) && Requested(doc, libraryExists, Ref(model, macro), t) {
      ExtractedIsRequested(doc, libraryExists, t, Ref(model, macro));
      MacrosOfMembers(connects, t, macro);
      UsedAtMembers(connects, n, macro);
    }
  }

  /** Every connection of a model goes through a macro connection tagged as used. */
  lemma ConnectionsUseTaggedMacros(doc: AssemblingDocument, libraryExists: string -> bool, nodes: seq<NodeRecord>,
                                   levelNodes: map<Id, seq<Id>>, id: Id, c: MacroConnection)
    requires id in WalkedModels(doc, libraryExists, nodes, levelNodes)
    requires c in WalkedModels(doc, libraryExists, nodes, levelNodes)[id].nodeConnections
    ensures c.id in WalkUsed(Extract(doc, libraryExists, doc.dynamicAutomatons).connects, nodes)
  {
    WalkIsDirectScan(doc, libraryExists, nodes, levelNodes, id);
    var t :| Requested(doc, libraryExists, Ref(id, c.id), t)
             && Offered(nodes, levelNodes, t, c.elementType, c.connectedElementId);
    var n :| n in nodes && OfferedBy(n, levelNodes, t, c.elementType, c.connectedElementId);
    assert LooksUp(n, t);
    TaggedExactly(doc, libraryExists, nodes, c.id);
  }

  // ---------------------------------------------------------------------------
  // The automatons kept

  /** The j-th automaton is the last loadable one with the id. */
  ghost predicate LastLoadable(automatons: seq<DynamicAutomaton>, libraryExists: string -> bool, j: nat, id: Id) {
    && j < |automatons| && automatons[j].id == id && libraryExists(automatons[j].lib)
    && forall k :: j < k < |automatons| ==> !(automatons[k].id == id && libraryExists(automatons[k].lib))
  }

  /** The automaton kept under an id is the last loadable one that has it. */
  lemma {:induction false} KeptIsLastLoadable(doc: AssemblingDocument, libraryExists: string -> bool,
                                              automatons: seq<DynamicAutomaton>, id: Id)
    ensures var kept := Extract(doc, libraryExists, automatons).automatons;
            && (id in kept <==> exists j: nat :: LastLoadable(automatons, libraryExists, j, id))
            && forall j: nat :: LastLoadable(automatons, libraryExists, j, id) ==> id in kept && kept[id] == automatons[j]
    decreases |automatons|
  {
    if automatons != [] {
      var n := |automatons| - 1;
      KeptIsLastLoadable(doc, libraryExists, automatons[..n], id);
      var last := automatons[n].id == id && libraryExists(automatons[n].lib);
      forall j: nat ensures LastLoadable(automatons, libraryExists, j, id)
        <==> if last then j == n else LastLoadable(automatons[..n], libraryExists, j, id)
      {
      }
      var before, a := Extract(doc, libraryExists, automatons[..n]).automatons, automatons[n];
      assert Extract(doc, libraryExists, automatons).automatons == if libraryExists(a.lib) then before[a.id := a] else before;
      if last {
        assert LastLoadable(automatons, libraryExists, n, id);
      } else if j: nat :| LastLoadable(automatons[..n], libraryExists, j, id) {
        assert LastLoadable(automatons, libraryExists, j, id);
      }
    }
  }

  /** A model has the library of that automaton. */
  lemma LibraryOfModel(doc: AssemblingDocument, libraryExists: string -> bool, nodes: seq<NodeRecord>,
                       levelNodes: map<Id, seq<Id>>, id: Id) returns (j: nat)
    requires id in WalkedModels(doc, libraryExists, nodes, levelNodes)
    ensures LastLoadable(doc.dynamicAutomatons, libraryExists, j, id)
    ensures WalkedModels(doc, libraryExists, nodes, levelNodes)[id].id == id
    ensures WalkedModels(doc, libraryExists, nodes, levelNodes)[id].lib == doc.dynamicAutomatons[j].lib
  {
    ModelHeader(doc, libraryExists, nodes, levelNodes, id);
    KeptIsLastLoadable(doc, libraryExists, doc.dynamicAutomatons, id);
    j :| LastLoadable(doc.dynamicAutomatons, libraryExists, j, id);
  }
}
