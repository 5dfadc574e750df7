/** ShuntCounterAlgorithm, and the agreement of the shunt indexes of the DYD file
    with the shunt counts of the PAR file. */
module Shunts {
  import opened Reachability
  import opened Network
  import opened MacroConnections
  import opened DynModels
  import opened DynModelLaws
  import opened Dyd

  /** The shunts of a voltage level on the visited nodes. */
  function LevelShunts(nodes: seq<NodeRecord>, level: Id): seq<Id> {
    if nodes == [] then []
    else
      var n := nodes[|nodes| - 1];
      LevelShunts(nodes[..|nodes| - 1], level) + Only(n.voltageLevel == level, n.shunts)
  }

  ghost predicate Counts(nbShunts: map<Id, nat>, nodes: seq<NodeRecord>) {
    && (forall n <- nodes :: n.voltageLevel in nbShunts)
    && (forall level <- nbShunts :: nbShunts[level] == |LevelShunts(nodes, level)|)
    && (forall level: Id :: level !in nbShunts ==> LevelShunts(nodes, level) == [])
  }

  class ShuntCounterAlgorithm {
    var nbShunts: map<Id, nat>

    constructor ()
      ensures nbShunts == map[] && Counts(nbShunts, [])
    {
      nbShunts := map[];
    }

    method Visit(ghost visited: seq<NodeRecord>, node: NodeRecord)
      requires Counts(nbShunts, visited)
      modifies this
      ensures Counts(nbShunts, visited + [node])
    {
      var level := node.voltageLevel;
      assert (visited + [node])[..|visited|] == visited;
      nbShunts := nbShunts[level := (if level in nbShunts then nbShunts[level] else 0) + |node.shunts|];
    }
  }

  lemma {:induction false} LevelShuntsMembers(nodes: seq<NodeRecord>, level: Id, s: Id)
    ensures s in LevelShunts(nodes, level) <==> exists n :: n in nodes && n.voltageLevel == level && s in n.shunts
    decreases |nodes|
  {
    if nodes != [] {
      var k := |nodes| - 1;
      LevelShuntsMembers(nodes[..k], level, s);
      assert nodes == nodes[..k] + [nodes[k]];
      assert forall n <- nodes[..k] :: n in nodes;
    }
  }

  /** The elements connected through one macro connection, in order. */
  function ElementsThrough(conns: seq<MacroConnection>, macro: Id): seq<Id> {
    if conns == [] then []
    else
      var c := conns[|conns| - 1];
      ElementsThrough(conns[..|conns| - 1], macro) + Only(c.id == macro, [c.connectedElementId])
  }

  lemma {:induction false} ElementsThroughCount(conns: seq<MacroConnection>, macro: Id)
    ensures |ElementsThrough(conns, macro)| == CountOf(conns, macro)
    decreases |conns|
  {
    if conns != [] {
      ElementsThroughCount(conns[..|conns| - 1], macro);
    }
  }

  lemma {:induction false} ElementsThroughMembers(conns: seq<MacroConnection>, macro: Id)
    requires NoDuplicates(conns) && forall c <- conns :: c.id == macro ==> c.elementType == SHUNT
    ensures forall s :: s in ElementsThrough(conns, macro) <==> MacroConnection(macro, SHUNT, s) in conns
    ensures NoDuplicates(ElementsThrough(conns, macro))
    decreases |conns|
  {
    if conns != [] {
      var n := |conns| - 1;
      var c := conns[n];
      assert conns == conns[..n] + [c] && c in conns;
      assert forall x <- conns[..n] :: x in conns;
      ElementsThroughMembers(conns[..n], macro);
      if c.id == macro {
        assert c == MacroConnection(macro, SHUNT, c.connectedElementId) && c !in conns[..n];
        NoDuplicatesJoin(ElementsThrough(conns[..n], macro), [c.connectedElementId]);
      } else {
        assert ElementsThrough(conns, macro) == ElementsThrough(conns[..n], macro);
      }
    }
  }

  lemma SameLength(s: seq<Id>, t: seq<Id>)
    requires NoDuplicates(s) && NoDuplicates(t) && forall x :: x in s <==> x in t
    ensures |s| == |t|
  {
    NoDuplicatesCount(s);
    NoDuplicatesCount(t);
    assert Elements(s) == Elements(t);
  }

  /** For a macro connection of a model that asks for the shunts of one voltage
      level only, the model has as many connections through it as the level has
      shunts; so the indexes run over 0 to n - 1 for the n the counter gives. */
  lemma ConnectionsMatchShunts(doc: AssemblingDocument, libraryExists: string -> bool, nodes: seq<NodeRecord>,
                               levelNodes: map<Id, seq<Id>>, id: Id, macro: Id, level: Id)
    requires CollisionFree(MacroIdsOf(doc, id)) && NoDuplicates(LevelShunts(nodes, level))
    requires forall t :: Requested(doc, libraryExists, Ref(id, macro), t) <==> t == ShuntLevel(level)
    requires id in WalkedModels(doc, libraryExists, nodes, levelNodes)
    ensures CountOf(WalkedModels(doc, libraryExists, nodes, levelNodes)[id].nodeConnections, macro)
         == |LevelShunts(nodes, level)|
  {
    var conns := WalkedModels(doc, libraryExists, nodes, levelNodes)[id].nodeConnections;
    WalkIsDirectScan(doc, libraryExists, nodes, levelNodes, id);
    FreeIdsDiffer(doc, libraryExists, nodes, levelNodes, id);
    OrderedIsDistinct(conns);
    forall c <- conns | c.id == macro ensures c.elementType == SHUNT {
      var t :| Requested(doc, libraryExists, Ref(id, c.id), t)
               && Offered(nodes, levelNodes, t, c.elementType, c.connectedElementId);
      assert t == ShuntLevel(level);
    }
    ElementsThroughMembers(conns, macro);
    forall s ensures s in ElementsThrough(conns, macro) <==> s in LevelShunts(nodes, level) {
      var c := MacroConnection(macro, SHUNT, s);
      WalkIsExact(doc, libraryExists, nodes, levelNodes, id, c);
      LevelShuntsMembers(nodes, level, s);
      WantedShunt(doc, libraryExists, nodes, levelNodes, id, macro, level, s);
    }
    SameLength(ElementsThrough(conns, macro), LevelShunts(nodes, level));
    ElementsThroughCount(conns, macro);
  }

  lemma WantedShunt(doc: AssemblingDocument, libraryExists: string -> bool, nodes: seq<NodeRecord>,
                    levelNodes: map<Id, seq<Id>>, id: Id, macro: Id, level: Id, s: Id)
    requires forall t :: Requested(doc, libraryExists, Ref(id, macro), t) <==> t == ShuntLevel(level)
    ensures Wanted(doc, libraryExists, nodes, levelNodes, id, MacroConnection(macro, SHUNT, s))
       <==> exists n :: n in nodes && n.voltageLevel == level && s in n.shunts
  {
    if n :| n in nodes && n.voltageLevel == level && s in n.shunts {
      assert OfferedBy(n, levelNodes, ShuntLevel(level), SHUNT, s);
      assert Offered(nodes, levelNodes, ShuntLevel(level), SHUNT, s);
      assert Requested(doc, libraryExists, Ref(id, macro), ShuntLevel(level));
    }
    if Wanted(doc, libraryExists, nodes, levelNodes, id, MacroConnection(macro, SHUNT, s)) {
      var t :| Requested(doc, libraryExists, Ref(id, macro), t) && Offered(nodes, levelNodes, t, SHUNT, s);
      var n :| n in nodes && OfferedBy(n, levelNodes, t, SHUNT, s);
    }
  }
}
