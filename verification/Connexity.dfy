/** MainConnexComponentAlgorithm: the largest connected component of the network. */
module Connexity {
  import opened Reachability

  // ---------------------------------------------------------------------------
  // The depth-first search

  /** The nodes the search adds from a list of nodes, in the order it adds them. */
  ghost function Search(g: Graph, marked: set<Id>, nodes: seq<Id>): (added: seq<Id>)
    requires Closed(g) && marked <= g.Keys && forall u <- nodes :: u in g
    ensures forall v <- added :: v in g && v !in marked
    decreases g.Keys - marked, |nodes|
  {
    if nodes == [] then []
    else
      var node := nodes[0];
      if node in marked then Search(g, marked, nodes[1..])
      else
        var deeper := Search(g, marked + {node}, g[node]);
        [node] + deeper + Search(g, marked + {node} + Elements(deeper), nodes[1..])
  }

  ghost predicate ReachedFrom(g: Graph, before: set<Id>, sources: seq<Id>, v: Id)
    requires before <= g.Keys
  {
    exists u :: u in sources && Reaches(g, g.Keys - before, u, v)
  }

  /** No neighbour of an added node is left unmarked. */
  ghost predicate LeavesNoNeighbour(g: Graph, before: set<Id>, added: seq<Id>) {
    forall v, w :: v in added && v in g && w in g[v] ==> w in before || w in added
  }

  lemma {:induction false} SearchHasNoDuplicates(g: Graph, marked: set<Id>, nodes: seq<Id>)
    requires Closed(g) && marked <= g.Keys && forall u <- nodes :: u in g
    ensures NoDuplicates(Search(g, marked, nodes))
    decreases g.Keys - marked, |nodes|
  {
    if nodes != [] {
      var node := nodes[0];
      if node in marked {
        SearchHasNoDuplicates(g, marked, nodes[1..]);
      } else {
        var deeper := Search(g, marked + {node}, g[node]);
        var further := Search(g, marked + {node} + Elements(deeper), nodes[1..]);
        SearchHasNoDuplicates(g, marked + {node}, g[node]);
        SearchHasNoDuplicates(g, marked + {node} + Elements(deeper), nodes[1..]);
        NoDuplicatesJoin([node], deeper);
        NoDuplicatesJoin([node] + deeper, further);
      }
    }
  }

  /** Every source ends up marked, and so does every neighbour of an added node. */
  lemma {:induction false} SearchIsClosed(g: Graph, marked: set<Id>, nodes: seq<Id>)
    requires Closed(g) && marked <= g.Keys && forall u <- nodes :: u in g
    ensures forall u <- nodes :: u in marked || u in Search(g, marked, nodes)
    ensures LeavesNoNeighbour(g, marked, Search(g, marked, nodes))
    decreases g.Keys - marked, |nodes|
  {
    if nodes != [] {
      var node := nodes[0];
      if node in marked {
        SearchIsClosed(g, marked, nodes[1..]);
      } else {
        SearchIsClosed(g, marked + {node}, g[node]);
        SearchIsClosed(g, marked + {node} + Elements(Search(g, marked + {node}, g[node])), nodes[1..]);
      }
    }
  }

  /** Every added node is reachable from a source through unmarked nodes. */
  lemma {:induction false} SearchIsSound(g: Graph, marked: set<Id>, nodes: seq<Id>, v: Id)
    requires Closed(g) && marked <= g.Keys && forall u <- nodes :: u in g
    requires v in Search(g, marked, nodes)
    ensures ReachedFrom(g, marked, nodes, v)
    decreases g.Keys - marked, |nodes|
  {
    var node := nodes[0];
    if node in marked {
      SearchIsSound(g, marked, nodes[1..], v);
    } else {
      var deeper := Search(g, marked + {node}, g[node]);
      var after := marked + {node} + Elements(deeper);
      if v == node {
        ReachesItself(g, g.Keys - marked, node);
      } else if v in deeper {
        SearchIsSound(g, marked + {node}, g[node], v);
        var u :| u in g[node] && Reaches(g, g.Keys - (marked + {node}), u, v);
        ReachesWidens(g, g.Keys - (marked + {node}), g.Keys - marked, u, v);
        ReachesByEdge(g, g.Keys - marked, node, u, v);
      } else {
        SearchIsSound(g, after, nodes[1..], v);
        var u :| u in nodes[1..] && Reaches(g, g.Keys - after, u, v);
        ReachesWidens(g, g.Keys - after, g.Keys - marked, u, v);
      }
    }
  }

  /** The search adds exactly the nodes its sources reach through nodes that were
      unmarked on entry, each once. */
  lemma SearchExactly(g: Graph, marked: set<Id>, nodes: seq<Id>)
    requires Closed(g) && marked <= g.Keys && forall u <- nodes :: u in g
    ensures forall v :: v in Search(g, marked, nodes) <==> ReachedFrom(g, marked, nodes, v)
    ensures NoDuplicates(Search(g, marked, nodes))
  {
    SearchHasNoDuplicates(g, marked, nodes);
    SearchIsClosed(g, marked, nodes);
    var added := Search(g, marked, nodes);
    var unmarked := g.Keys - marked;
    assert ClosedWithin(g, unmarked, Elements(added));
    forall v ensures v in added <==> ReachedFrom(g, marked, nodes, v) {
      if v in added {
        SearchIsSound(g, marked, nodes, v);
      }
      if ReachedFrom(g, marked, nodes, v) {
        var u :| u in nodes && Reaches(g, unmarked, u, v);
        var p: seq<Id> :| PathBetween(g, unmarked, u, v, p);
        assert u !in marked && u in Elements(added);
        ReachesStays(g, unmarked, Elements(added), u, v);
      }
    }
  }

  // ---------------------------------------------------------------------------
  // The walk over the nodes

  datatype Progress = Progress(marked: set<Id>, main: seq<Id>)

  ghost function Visited(g: Graph, p: Progress, node: Id): Progress
    requires Closed(g) && p.marked <= g.Keys && node in g
  {
    var group := Search(g, p.marked, [node]);
    Progress(p.marked + Elements(group), if |p.main| < |group| then group else p.main)
  }

  /** What visiting nodes in the given order leaves behind. */
  ghost function Walk(g: Graph, order: seq<Id>): (p: Progress)
    requires Closed(g) && forall u <- order :: u in g
    ensures p.marked <= g.Keys
  {
    if order == [] then Progress({}, [])
    else Visited(g, Walk(g, order[..|order| - 1]), order[|order| - 1])
  }

  ghost predicate InSomeComponent(g: Graph, order: seq<Id>, v: Id) {
    exists u :: u in order && v in Component(g, u)
  }

  /** Marked are exactly the components of the visited nodes. */
  ghost predicate MarksComponents(g: Graph, order: seq<Id>, marked: set<Id>) {
    forall v :: v in marked <==> InSomeComponent(g, order, v)
  }

  /** The k-th visited node is the first whose component is largest, and main is
      that whole component, without duplicates. */
  ghost predicate FirstLargest(g: Graph, order: seq<Id>, main: seq<Id>, k: nat) {
    && k < |order| && NoDuplicates(main) && Elements(main) == Component(g, order[k])
    && (forall j :: 0 <= j < |order| ==> |Component(g, order[j])| <= |main|)
    && (forall j :: 0 <= j < k ==> |Component(g, order[j])| < |main|)
  }

  ghost predicate IsFirstLargest(g: Graph, order: seq<Id>, main: seq<Id>) {
    if order == [] then main == [] else exists k: nat :: FirstLargest(g, order, main, k)
  }

  lemma MarkedWithComponent(g: Graph, order: seq<Id>, marked: set<Id>, v: Id)
    requires Symmetric(g) && (forall u <- order :: u in g) && MarksComponents(g, order, marked)
    requires v in marked
    ensures v in g && Component(g, v) <= marked
  {
    var u :| u in order && v in Component(g, u);
    ComponentsMeet(g, u, v);
  }

  lemma FoundIsConnected(g: Graph, marked: set<Id>, node: Id)
    requires Closed(g) && node in g && node !in marked && marked <= g.Keys
    ensures node in Elements(Search(g, marked, [node]))
    ensures forall v <- Elements(Search(g, marked, [node])) :: v !in marked && v in Component(g, node)
  {
    SearchExactly(g, marked, [node]);
    forall v <- Elements(Search(g, marked, [node])) ensures v in Component(g, node) {
      ReachesWidens(g, g.Keys - marked, g.Keys, node, v);
    }
  }

  /** From an unmarked node, the search finds its whole component. */
  lemma SearchFindsComponent(g: Graph, order: seq<Id>, marked: set<Id>, node: Id)
    requires Symmetric(g) && node in g && node !in marked && marked <= g.Keys
    requires (forall u <- order :: u in g) && MarksComponents(g, order, marked)
    ensures Elements(Search(g, marked, [node])) == Component(g, node)
  {
    var group := Elements(Search(g, marked, [node]));
    FoundIsConnected(g, marked, node);
    SearchIsClosed(g, marked, [node]);
    forall x, y | x in group && x in g && y in g[x] ensures y !in marked {
      if y in marked {
        MarkedWithComponent(g, order, marked, y);
        ComponentIsClosed(g, y);
      }
    }
    assert ClosedWithin(g, g.Keys, group);
    forall v | v in Component(g, node) ensures v in group {
      ReachesStays(g, g.Keys, group, node, v);
    }
  }

  /** A visit marks the component of its node, whether or not it was marked. */
  lemma VisitMarksComponent(g: Graph, order: seq<Id>, before: Progress, node: Id)
    requires Symmetric(g) && node in g && before.marked <= g.Keys
    requires (forall u <- order :: u in g) && MarksComponents(g, order, before.marked)
    ensures Visited(g, before, node).marked == before.marked + Component(g, node)
    ensures node in before.marked ==> Visited(g, before, node) == before
  {
    if node in before.marked {
      assert [node][1..] == [] && Search(g, before.marked, [node]) == [];
      MarkedWithComponent(g, order, before.marked, node);
    } else {
      SearchFindsComponent(g, order, before.marked, node);
    }
  }

  lemma {:induction false} WalkMarksComponents(g: Graph, order: seq<Id>)
    requires Symmetric(g) && forall u <- order :: u in g
    ensures MarksComponents(g, order, Walk(g, order).marked)
    decreases |order|
  {
    if order != [] {
      var n := |order| - 1;
      WalkMarksComponents(g, order[..n]);
      VisitMarksComponent(g, order[..n], Walk(g, order[..n]), order[n]);
      forall v ensures InSomeComponent(g, order, v) <==> InSomeComponent(g, order[..n], v) || v in Component(g, order[n]) {
        assert order == order[..n] + [order[n]];
      }
    }
  }

  /** One visit keeps main the first largest. */
  lemma VisitKeepsFirstLargest(g: Graph, prefix: seq<Id>, before: Progress, node: Id)
    requires Symmetric(g) && (forall u <- prefix :: u in g) && MarksComponents(g, prefix, before.marked)
    requires node in g && before.marked <= g.Keys && IsFirstLargest(g, prefix, before.main)
    ensures IsFirstLargest(g, prefix + [node], Visited(g, before, node).main)
  {
    if node in before.marked {
      VisitMarksComponent(g, prefix, before, node);
      OldComponent(g, prefix, before.main, node);
    } else {
      NewComponent(g, prefix, before, node);
    }
  }

  /** The walk in any order leaves in main the first largest of the components it
      visited. */
  lemma {:induction false} WalkFindsFirstLargest(g: Graph, order: seq<Id>)
    requires Symmetric(g) && forall u <- order :: u in g
    ensures IsFirstLargest(g, order, Walk(g, order).main)
    decreases |order|
  {
    if order != [] {
      var prefix, node := order[..|order| - 1], order[|order| - 1];
      var before := Walk(g, prefix);
      assert order == prefix + [node];
      assert MarksComponents(g, prefix, before.marked) by {
        WalkMarksComponents(g, prefix);
      }
      WalkFindsFirstLargest(g, prefix);
      VisitKeepsFirstLargest(g, prefix, before, node);
    }
  }

  /** Visiting a node of a known component changes nothing. */
  lemma OldComponent(g: Graph, prefix: seq<Id>, main: seq<Id>, node: Id)
    requires Symmetric(g) && (forall u <- prefix :: u in g) && InSomeComponent(g, prefix, node)
    requires IsFirstLargest(g, prefix, main)
    ensures IsFirstLargest(g, prefix + [node], main)
  {
    var u :| u in prefix && node in Component(g, u);
    ComponentsMeet(g, u, node);
    var i :| 0 <= i < |prefix| && prefix[i] == u;
    var k: nat :| FirstLargest(g, prefix, main, k);
    assert |Component(g, prefix[i])| <= |main|;
    assert FirstLargest(g, prefix + [node], main, k);
  }

  /** A new component replaces main only if it is larger. */
  lemma NewComponent(g: Graph, prefix: seq<Id>, before: Progress, node: Id)
    requires Symmetric(g) && (forall u <- prefix :: u in g) && MarksComponents(g, prefix, before.marked)
    requires node in g && node !in before.marked && before.marked <= g.Keys
    requires IsFirstLargest(g, prefix, before.main)
    ensures IsFirstLargest(g, prefix + [node], Visited(g, before, node).main)
  {
    var n, group, order := |prefix|, Search(g, before.marked, [node]), prefix + [node];
    SearchFindsComponent(g, prefix, before.marked, node);
    SearchHasNoDuplicates(g, before.marked, [node]);
    NoDuplicatesCount(group);
    assert order[n] == node && |Component(g, node)| == |group|;
    assert forall j :: 0 <= j < n ==> order[j] == prefix[j];
    if |before.main| < |group| {
      forall j | 0 <= j < n ensures |Component(g, order[j])| < |group| {
        var k: nat :| FirstLargest(g, prefix, before.main, k);
        assert |Component(g, prefix[j])| <= |before.main|;
      }
      assert FirstLargest(g, order, group, n);
    } else {
      assert node in group by {
        ComponentIsClosed(g, node);
      }
      var k: nat :| FirstLargest(g, prefix, before.main, k);
      assert FirstLargest(g, order, before.main, k);
    }
  }

  /** Main result. Once every node has been visited, in any order, main is one
      whole component without duplicates, and no component is larger. */
  lemma MainIsLargestComponent(g: Graph, order: seq<Id>)
    requires Symmetric(g) && Elements(order) == g.Keys && order != []
    ensures var main := Walk(g, order).main;
            && NoDuplicates(main)
            && (exists u :: u in g && Elements(main) == Component(g, u))
            && (forall u <- g :: |Component(g, u)| <= |main|)
  {
    assert forall u <- order :: u in Elements(order);
    WalkFindsFirstLargest(g, order);
    var main := Walk(g, order).main;
    var k: nat :| FirstLargest(g, order, main, k);
    assert order[k] in g && Elements(main) == Component(g, order[k]);
    forall u <- g ensures |Component(g, u)| <= |main| {
      assert u in Elements(order);
      var j :| 0 <= j < |order| && order[j] == u;
    }
  }

  /** One turn of the search, at a position of its list whose node is marked. */
  lemma SearchSkips(g: Graph, marked: set<Id>, nodes: seq<Id>, k: nat)
    requires Closed(g) && marked <= g.Keys && (forall u <- nodes :: u in g) && k < |nodes| && nodes[k] in marked
    ensures Search(g, marked, nodes[k..]) == Search(g, marked, nodes[k + 1..])
  {
    assert nodes[k..][1..] == nodes[k + 1..];
  }

  /** One turn of the search, at a position of its list whose node is not. */
  lemma SearchDeepens(g: Graph, marked: set<Id>, nodes: seq<Id>, k: nat, deeper: seq<Id>)
    requires Closed(g) && marked <= g.Keys && (forall u <- nodes :: u in g) && k < |nodes| && nodes[k] !in marked
    requires deeper == Search(g, marked + {nodes[k]}, g[nodes[k]])
    ensures Search(g, marked, nodes[k..])
         == [nodes[k]] + deeper + Search(g, marked + {nodes[k]} + Elements(deeper), nodes[k + 1..])
  {
    assert nodes[k..][0] == nodes[k] && nodes[k..][1..] == nodes[k + 1..];
  }

  class MainConnexComponentAlgorithm {
    const graph: Graph
    var markedNodes: set<Id>
    var mainConnexity: seq<Id>

    ghost predicate Valid()
      reads this
    {
      Closed(graph) && markedNodes <= graph.Keys
    }

    constructor (graph: Graph)
      requires Closed(graph)
      ensures this.graph == graph && markedNodes == {} && mainConnexity == [] && Valid()
    {
      this.graph := graph;
      markedNodes, mainConnexity := {}, [];
    }

    method UpdateConnexGroup(group: seq<Id>, nodes: seq<Id>) returns (updated: seq<Id>)
      requires Valid() && forall u <- nodes :: u in graph
      modifies this`markedNodes
      ensures Valid()
      ensures updated == group + Search(graph, old(markedNodes), nodes)
      ensures markedNodes == old(markedNodes) + Elements(Search(graph, old(markedNodes), nodes))
      decreases graph.Keys - markedNodes
    {
      updated := group;
      ghost var all := Search(graph, markedNodes, nodes);
      ghost var added: seq<Id> := [];
      for k := 0 to |nodes|
        invariant Valid() && updated == group + added
        invariant markedNodes == old(markedNodes) + Elements(added)
        invariant all == added + Search(graph, markedNodes, nodes[k..])
      {
        var node := nodes[k];
        if node in markedNodes {
          SearchSkips(graph, markedNodes, nodes, k);
        } else {
          ghost var deeper := Search(graph, markedNodes + {node}, graph[node]);
          SearchDeepens(graph, markedNodes, nodes, k, deeper);
          Reassociate(added, [node], deeper, Search(graph, markedNodes + {node} + Elements(deeper), nodes[k + 1..]));
          markedNodes := markedNodes + {node};
          updated := updated + [node];
          updated := UpdateConnexGroup(updated, graph[node]);
          Reassociate(group, added, [node], deeper);
          added := added + [node] + deeper;
        }
      }
    }

    /** Visits one node of the network. */
    method Visit(node: Id)
      requires Valid() && node in graph
      modifies this
      ensures Valid()
      ensures Progress(markedNodes, mainConnexity)
           == Visited(graph, Progress(old(markedNodes), old(mainConnexity)), node)
    {
      assert [node][1..] == [] && Elements<Id>([]) == {};
      if node in markedNodes {
        assert Search(graph, markedNodes, [node]) == [];
        return;
      }
      ghost var deeper := Search(graph, markedNodes + {node}, graph[node]);
      assert Search(graph, markedNodes, [node]) == [node] + deeper;
      var group: seq<Id> := [];
      markedNodes := markedNodes + {node};
      group := group + [node];
      assert [] + [node] == [node];
      group := UpdateConnexGroup(group, graph[node]);
      if |mainConnexity| < |group| {
        mainConnexity := group;
      }
    }
  }

  /** The walk over the nodes of a graph. */
  method WalkGraph(g: Graph, order: seq<Id>) returns (main: seq<Id>)
    requires Closed(g) && forall u <- order :: u in g
    ensures main == Walk(g, order).main
  {
    var component := new MainConnexComponentAlgorithm(g);
    for k := 0 to |order|
      invariant component.graph == g && component.Valid()
      invariant Progress(component.markedNodes, component.mainConnexity) == Walk(g, order[..k])
    {
      assert order[..k + 1][..k] == order[..k] && order[k] in order;
      component.Visit(order[k]);
    }
    assert order[..|order|] == order;
    return component.mainConnexity;
  }
}
