/** The counts of the settings in the PAR file, and their agreement with the
    indexes of the DYD file. */
module ShuntCounts {
  import opened Wrappers
  import opened Reachability
  import opened Network
  import opened MacroConnections
  import opened DynModels
  import opened DynModelLaws
  import opened CountSettings
  import opened Dyd
  import opened Shunts

  // ---------------------------------------------------------------------------
  // Which association the two sides use

  /** The first and the last association with an id name the same level. */
  ghost predicate EndsAgree(multiples: seq<MultipleAssociation>, id: Id) {
    forall i: nat, j: nat :: FirstWith(MultipleIds(multiples), i, id) && LastWith(MultipleIds(multiples), j, id) ==>
      multiples[i].shuntLevel == multiples[j].shuntLevel
  }

  lemma {:induction false} FirstIsFound(multiples: seq<MultipleAssociation>, id: Id)
    ensures match FirstMultiple(multiples, id)
            case Some(a) => exists i: nat :: FirstWith(MultipleIds(multiples), i, id) && multiples[i] == a
            case None => forall a <- multiples :: a.id != id
    decreases |multiples|
  {
    if multiples != [] {
      var n := |multiples| - 1;
      assert MultipleIds(multiples[..n]) == MultipleIds(multiples)[..n];
      FirstIsFound(multiples[..n], id);
      match FirstMultiple(multiples[..n], id)
      case Some(a) =>
        var i: nat :| FirstWith(MultipleIds(multiples[..n]), i, id) && multiples[..n][i] == a;
        assert FirstWith(MultipleIds(multiples), i, id);
      case None =>
        assert forall k :: 0 <= k < n ==> multiples[k] in multiples[..n];
        assert multiples[n].id == id ==> FirstWith(MultipleIds(multiples), n, id);
    }
  }

  lemma {:induction false} LastIsFound(multiples: seq<MultipleAssociation>, id: Id)
    ensures match FindMultiple(multiples, id)
            case Some(a) => exists j: nat :: LastWith(MultipleIds(multiples), j, id) && multiples[j] == a
            case None => forall a <- multiples :: a.id != id
    decreases |multiples|
  {
    if multiples != [] {
      var n := |multiples| - 1;
      if multiples[n].id == id {
        assert LastWith(MultipleIds(multiples), n, id);
      } else {
        assert MultipleIds(multiples[..n]) == MultipleIds(multiples)[..n];
        LastIsFound(multiples[..n], id);
        match FindMultiple(multiples[..n], id)
        case Some(a) =>
          var j: nat :| LastWith(MultipleIds(multiples[..n]), j, id) && multiples[..n][j] == a;
          assert LastWith(MultipleIds(multiples), j, id);
        case None =>
      }
    }
  }

  /** The writer of the counts and the extraction of the dynamic models use the
      same association with an id exactly if the first and the last one agree. */
  lemma SameAssociation(multiples: seq<MultipleAssociation>, id: Id)
    ensures FirstMultiple(multiples, id) == FindMultiple(multiples, id) <==> EndsAgree(multiples, id)
  {
    FirstIsFound(multiples, id);
    LastIsFound(multiples, id);
    if i, j :| 0 <= i < |multiples| && 0 <= j < |multiples| && FirstWith(MultipleIds(multiples), i, id) && LastWith(MultipleIds(multiples), j, id) {
      assert multiples[i] in multiples;
      assert forall k: nat :: FirstWith(MultipleIds(multiples), k, id) ==> k == i;
      assert forall k: nat :: LastWith(MultipleIds(multiples), k, id) ==> k == j;
    }
  }

  ghost predicate UniqueAssociations(multiples: seq<MultipleAssociation>) {
    forall i, j :: 0 <= i < j < |multiples| ==> multiples[i].id != multiples[j].id
  }

  /** In particular if ids are unique. */
  lemma UniqueIdsAgree(multiples: seq<MultipleAssociation>, id: Id)
    requires UniqueAssociations(multiples)
    ensures EndsAgree(multiples, id)
  {
    forall i: nat, j: nat | FirstWith(MultipleIds(multiples), i, id) && LastWith(MultipleIds(multiples), j, id) ensures i == j {
    }
  }

  // ---------------------------------------------------------------------------
  // Indexes and counts

  /** A connection of the model through the macro connection is written with the
      index i. */
  ghost predicate HasIndex(m: DynamicModelDefinition, macro: Id, i: nat) {
    exists k: nat :: k < |m.nodeConnections| && MacroConnectAt(m, k).connector == macro && MacroConnectAt(m, k).index1 == Some(i)
  }

  /** The indexes of a model's connections through a macro connection are 0 to
      n - 1. */
  ghost predicate IndexesAre(m: DynamicModelDefinition, macro: Id, n: nat) {
    forall i: nat :: HasIndex(m, macro, i) <==> i < n
  }

  /** An automaton asks, through the macro connection, for the shunts of one level. */
  ghost predicate AsksForShunts(doc: AssemblingDocument, libraryExists: string -> bool, id: Id, macro: Id, level: Id) {
    && CollisionFree(MacroIdsOf(doc, id))
    && forall t :: Requested(doc, libraryExists, Ref(id, macro), t) <==> t == ShuntLevel(level)
  }

  lemma IndexesFollowShunts(doc: AssemblingDocument, libraryExists: string -> bool, nodes: seq<NodeRecord>,
                            levelNodes: map<Id, seq<Id>>, nbShunts: map<Id, nat>, id: Id, macro: Id, level: Id)
    requires AsksForShunts(doc, libraryExists, id, macro, level)
    requires NoDuplicates(LevelShunts(nodes, level)) && Counts(nbShunts, nodes)
    requires id in WalkedModels(doc, libraryExists, nodes, levelNodes)
    ensures IndexesAre(WalkedModels(doc, libraryExists, nodes, levelNodes)[id], macro, NbShunts(nbShunts, level))
  {
    ConnectionsMatchShunts(doc, libraryExists, nodes, levelNodes, id, macro, level);
    var m := WalkedModels(doc, libraryExists, nodes, levelNodes)[id];
    forall i: nat ensures HasIndex(m, macro, i) <==> i < NbShunts(nbShunts, level) {
      IndexesRange(m, macro, i);
    }
  }

  /** In one network, the DYD file numbers the connections of the model from 0 to
      n - 1, where n is the count the PAR file holds, if the level is known. */
  ghost predicate Match(doc: AssemblingDocument, libraryExists: string -> bool, nodes: seq<NodeRecord>,
                        levelNodes: map<Id, seq<Id>>, nbShunts: map<Id, nat>, id: Id, macro: Id, level: Id, c: Count)
  {
    NoDuplicates(LevelShunts(nodes, level)) && Counts(nbShunts, nodes)
    && id in WalkedModels(doc, libraryExists, nodes, levelNodes) ==>
      var n := NbShunts(nbShunts, level);
      && IndexesAre(WalkedModels(doc, libraryExists, nodes, levelNodes)[id], macro, n)
      && ParameterOf(doc.multipleAssociations, nbShunts, c) == Only(level in nbShunts, [Parameter(c.name, n)])
  }

  /** Main result. If the first and the last association with the id of the count
      agree, indexes and counts match in every network. */
  lemma IndexesMatchCounts(doc: AssemblingDocument, libraryExists: string -> bool, nodes: seq<NodeRecord>,
                           levelNodes: map<Id, seq<Id>>, nbShunts: map<Id, nat>, id: Id, macro: Id, level: Id, c: Count)
    requires AsksForShunts(doc, libraryExists, id, macro, level)
    requires FindMultiple(doc.multipleAssociations, c.id) == Some(MultipleAssociation(c.id, level))
    requires EndsAgree(doc.multipleAssociations, c.id)
    ensures Match(doc, libraryExists, nodes, levelNodes, nbShunts, id, macro, level, c)
  {
    SameAssociation(doc.multipleAssociations, c.id);
    if NoDuplicates(LevelShunts(nodes, level)) && Counts(nbShunts, nodes)
       && id in WalkedModels(doc, libraryExists, nodes, levelNodes) {
      IndexesFollowShunts(doc, libraryExists, nodes, levelNodes, nbShunts, id, macro, level);
    }
  }

  function ShuntNode(id: Id, level: Id, shunts: seq<Id>): NodeRecord {
    NodeRecord(id, level, 1.0, shunts, [], [], [], [], [])
  }

  /** Two levels, one with a shunt and one without. */
  function TwoLevels(level: Id, other: Id): seq<NodeRecord> {
    [ShuntNode("1", level, ["S"]), ShuntNode("2", other, [])]
  }

  lemma TwoLevelsCount(level: Id, other: Id)
    requires other != level
    ensures LevelShunts(TwoLevels(level, other), level) == ["S"]
    ensures Counts(map[level := 1, other := 0], TwoLevels(level, other))
  {
    var nodes := TwoLevels(level, other);
    assert nodes[..1] == [nodes[0]] && nodes[..1][..0] == [];
    forall l: Id ensures LevelShunts(nodes, l) == Only(l == level, ["S"]) {
      assert LevelShunts(nodes[..1], l) == Only(l == level, ["S"]);
    }
  }

  lemma ShuntIsConnected(doc: AssemblingDocument, libraryExists: string -> bool, nodes: seq<NodeRecord>,
                         levelNodes: map<Id, seq<Id>>, id: Id, macro: Id, level: Id, n: NodeRecord, shunt: Id)
    requires AsksForShunts(doc, libraryExists, id, macro, level)
    requires n in nodes && n.voltageLevel == level && shunt in n.shunts
    ensures id in WalkedModels(doc, libraryExists, nodes, levelNodes)
  {
    WalkIsDirectScan(doc, libraryExists, nodes, levelNodes, id);
    assert OfferedBy(n, levelNodes, ShuntLevel(level), SHUNT, shunt);
    assert Offered(nodes, levelNodes, ShuntLevel(level), SHUNT, shunt);
    assert Requested(doc, libraryExists, Ref(id, macro), ShuntLevel(level));
    assert Wanted(doc, libraryExists, nodes, levelNodes, id, MacroConnection(macro, SHUNT, shunt));
  }

  /** If they do not agree, here is a network in which the DYD file holds one index
      and the PAR file the count zero. */
  lemma RepeatedIdsDiffer(doc: AssemblingDocument, libraryExists: string -> bool, levelNodes: map<Id, seq<Id>>, id: Id,
                          macro: Id, level: Id, earlier: Id, c: Count)
    returns (nodes: seq<NodeRecord>, nbShunts: map<Id, nat>)
    requires AsksForShunts(doc, libraryExists, id, macro, level)
    requires FirstMultiple(doc.multipleAssociations, c.id) == Some(MultipleAssociation(c.id, earlier))
    requires earlier != level
    ensures Counts(nbShunts, nodes) && NoDuplicates(LevelShunts(nodes, level)) && level in nbShunts
    ensures id in WalkedModels(doc, libraryExists, nodes, levelNodes)
    ensures IndexesAre(WalkedModels(doc, libraryExists, nodes, levelNodes)[id], macro, 1)
    ensures ParameterOf(doc.multipleAssociations, nbShunts, c) == [Parameter(c.name, 0)]
  {
    nodes, nbShunts := TwoLevels(level, earlier), map[level := 1, earlier := 0];
    TwoLevelsCount(level, earlier);
    ShuntIsConnected(doc, libraryExists, nodes, levelNodes, id, macro, level, nodes[0], "S");
    IndexesFollowShunts(doc, libraryExists, nodes, levelNodes, nbShunts, id, macro, level);
  }

  lemma OneIndex(m: DynamicModelDefinition, macro: Id, n: nat)
    requires IndexesAre(m, macro, 1) && IndexesAre(m, macro, n)
    ensures n == 1
  {
    assert HasIndex(m, macro, 0) && !HasIndex(m, macro, 1);
  }

  lemma RepeatedIdsDoNotMatch(doc: AssemblingDocument, libraryExists: string -> bool, id: Id, macro: Id, level: Id, c: Count)
    returns (nodes: seq<NodeRecord>, nbShunts: map<Id, nat>)
    requires AsksForShunts(doc, libraryExists, id, macro, level)
    requires FindMultiple(doc.multipleAssociations, c.id) == Some(MultipleAssociation(c.id, level))
    requires !EndsAgree(doc.multipleAssociations, c.id)
    ensures !Match(doc, libraryExists, nodes, map[], nbShunts, id, macro, level, c)
  {
    SameAssociation(doc.multipleAssociations, c.id);
    FirstIsFound(doc.multipleAssociations, c.id);
    LastIsFound(doc.multipleAssociations, c.id);
    var earlier := FirstMultiple(doc.multipleAssociations, c.id).value;
    nodes, nbShunts := RepeatedIdsDiffer(doc, libraryExists, map[], id, macro, level, earlier.shuntLevel, c);
    if Match(doc, libraryExists, nodes, map[], nbShunts, id, macro, level, c) {
      OneIndex(WalkedModels(doc, libraryExists, nodes, map[])[id], macro, NbShunts(nbShunts, level));
    }
  }

  /** Indexes and counts match in every network exactly if the two associations
      agree. */
  lemma CountsFollowIndexes(doc: AssemblingDocument, libraryExists: string -> bool, id: Id, macro: Id, level: Id, c: Count)
    requires AsksForShunts(doc, libraryExists, id, macro, level)
    requires FindMultiple(doc.multipleAssociations, c.id) == Some(MultipleAssociation(c.id, level))
    ensures (forall nodes, levelNodes, nbShunts ::
               Match(doc, libraryExists, nodes, levelNodes, nbShunts, id, macro, level, c))
       <==> EndsAgree(doc.multipleAssociations, c.id)
  {
    if EndsAgree(doc.multipleAssociations, c.id) {
      forall nodes, levelNodes, nbShunts ensures Match(doc, libraryExists, nodes, levelNodes, nbShunts, id, macro, level, c) {
        IndexesMatchCounts(doc, libraryExists, nodes, levelNodes, nbShunts, id, macro, level, c);
      }
    } else {
      var nodes, nbShunts := RepeatedIdsDoNotMatch(doc, libraryExists, id, macro, level, c);
    }
  }

  /** A document with a repeated id in which they differ. */
  lemma RepeatedIdsDisagree(libraryExists: string -> bool, lib: string, earlier: Id, later: Id)
    returns (doc: AssemblingDocument, nodes: seq<NodeRecord>, nbShunts: map<Id, nat>)
    requires libraryExists(lib) && earlier != later
    ensures Counts(nbShunts, nodes) && NoDuplicates(LevelShunts(nodes, later))
    ensures "A" in WalkedModels(doc, libraryExists, nodes, map[])
    ensures IndexesAre(WalkedModels(doc, libraryExists, nodes, map[])["A"], "M", 1)
    ensures ParameterOf(doc.multipleAssociations, nbShunts, Count("n", "S")) == [Parameter("n", 0)]
  {
    var a := DynamicAutomaton("A", lib, [MacroConnect("M", "S")]);
    var multiples := [MultipleAssociation("S", earlier), MultipleAssociation("S", later)];
    doc := AssemblingDocument([], [a], [], multiples);
    assert multiples[..1] == [MultipleAssociation("S", earlier)];
    assert FirstMultiple(multiples[..1], "S") == Some(MultipleAssociation("S", earlier));
    var m := a.macroConnects[0];
    assert Resolve(doc, m) == Some(ShuntLevel(later));
    assert RequestedBy(doc, libraryExists, Ref("A", "M"), ShuntLevel(later), a, m);
    assert MacroIdsOf(doc, "A") == {"M"};
    nodes, nbShunts := RepeatedIdsDiffer(doc, libraryExists, map[], "A", "M", later, earlier, Count("n", "S"));
  }

  lemma IndexesRange(m: DynamicModelDefinition, macro: Id, i: nat)
    ensures HasIndex(m, macro, i) <==> i < CountOf(m.nodeConnections, macro)
  {
    var conns := m.nodeConnections;
    if HasIndex(m, macro, i) {
      var k: nat :| k < |conns| && MacroConnectAt(m, k).connector == macro && MacroConnectAt(m, k).index1 == Some(i);
      assert conns[..k + 1][..k] == conns[..k];
      CountGrows(conns, k + 1, macro);
    }
    if i < CountOf(conns, macro) {
      var k := IndexIsTaken(conns, macro, i);
      assert MacroConnectAt(m, k).connector == macro && MacroConnectAt(m, k).index1 == Some(i);
    }
  }
}
