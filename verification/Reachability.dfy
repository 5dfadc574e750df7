/** Neighbour graphs, paths in them, and connected components. */
module Reachability {

  type Id = string

  /** The neighbour list of every node, by node id. */
  type Graph = map<Id, seq<Id>>

  ghost predicate Closed(g: Graph) {
    forall u, v :: u in g && v in g[u] ==> v in g
  }

  ghost predicate Symmetric(g: Graph) {
    && Closed(g)
    && forall u, v {:trigger v in g[u]} :: u in g && v in g[u] ==> u in g[v]
  }

  /** A nonempty path through the nodes of a set. */
  ghost predicate Path(g: Graph, within: set<Id>, p: seq<Id>)
    requires within <= g.Keys
  {
    && p != [] && p[0] in within
    && (|p| > 1 ==> p[1] in g[p[0]] && Path(g, within, p[1..]))
  }

  ghost predicate PathBetween(g: Graph, within: set<Id>, u: Id, v: Id, p: seq<Id>)
    requires within <= g.Keys
  {
    Path(g, within, p) && p[0] == u && p[|p| - 1] == v
  }

  ghost predicate Reaches(g: Graph, within: set<Id>, u: Id, v: Id)
    requires within <= g.Keys
  {
    exists p: seq<Id> :: PathBetween(g, within, u, v, p)
  }

  ghost predicate Connected(g: Graph, u: Id, v: Id) {
    Reaches(g, g.Keys, u, v)
  }

  /** The whole connected component of a node. */
  ghost function Component(g: Graph, u: Id): set<Id> {
    set v | v in g.Keys && Connected(g, u, v)
  }

  lemma ReachesItself(g: Graph, within: set<Id>, u: Id)
    requires within <= g.Keys && u in within
    ensures Reaches(g, within, u, u)
  {
    assert PathBetween(g, within, u, u, [u]);
  }

  lemma ReachesByEdge(g: Graph, within: set<Id>, u: Id, w: Id, v: Id)
    requires within <= g.Keys && u in within && w in g[u] && Reaches(g, within, w, v)
    ensures Reaches(g, within, u, v)
  {
    var p: seq<Id> :| PathBetween(g, within, w, v, p);
    assert ([u] + p)[1..] == p;
    assert PathBetween(g, within, u, v, [u] + p);
  }

  lemma {:induction false} PathWidens(g: Graph, within: set<Id>, wider: set<Id>, p: seq<Id>)
    requires within <= wider <= g.Keys && Path(g, within, p)
    ensures Path(g, wider, p)
    decreases |p|
  {
    if |p| > 1 {
      PathWidens(g, within, wider, p[1..]);
    }
  }

  lemma ReachesWidens(g: Graph, within: set<Id>, wider: set<Id>, u: Id, v: Id)
    requires within <= wider <= g.Keys && Reaches(g, within, u, v)
    ensures Reaches(g, wider, u, v)
  {
    var p: seq<Id> :| PathBetween(g, within, u, v, p);
    PathWidens(g, within, wider, p);
    assert PathBetween(g, wider, u, v, p);
  }

  /** A set of nodes no edge leaves, except to nodes outside `within`. */
  ghost predicate ClosedWithin(g: Graph, within: set<Id>, s: set<Id>) {
    forall x, y :: x in s && x in g && y in g[x] && y in within ==> y in s
  }

  lemma {:induction false} PathStays(g: Graph, within: set<Id>, s: set<Id>, p: seq<Id>)
    requires within <= g.Keys && Path(g, within, p) && ClosedWithin(g, within, s) && p[0] in s
    ensures p[|p| - 1] in s && p[|p| - 1] in within
    decreases |p|
  {
    if |p| > 1 {
      assert p[1] in g[p[0]] && p[1..][0] in within;
      PathStays(g, within, s, p[1..]);
    }
  }

  lemma ReachesStays(g: Graph, within: set<Id>, s: set<Id>, u: Id, v: Id)
    requires within <= g.Keys && Reaches(g, within, u, v) && ClosedWithin(g, within, s) && u in s
    ensures v in s && v in within && u in within
  {
    var p: seq<Id> :| PathBetween(g, within, u, v, p);
    PathStays(g, within, s, p);
  }

  // ---------------------------------------------------------------------------
  // In a symmetric graph, components partition the nodes

  lemma ComponentIsClosed(g: Graph, u: Id)
    requires Symmetric(g) && u in g
    ensures u in Component(g, u)
    ensures ClosedWithin(g, g.Keys, Component(g, u))
  {
    ReachesItself(g, g.Keys, u);
    forall x, y | x in Component(g, u) && y in g[x] ensures y in Component(g, u) {
      var p: seq<Id> :| PathBetween(g, g.Keys, u, x, p);
      PathExtends(g, p, y);
      assert PathBetween(g, g.Keys, u, y, p + [y]);
    }
  }

  lemma {:induction false} PathExtends(g: Graph, p: seq<Id>, y: Id)
    requires Path(g, g.Keys, p) && p[|p| - 1] in g && y in g[p[|p| - 1]] && y in g
    ensures Path(g, g.Keys, p + [y])
    decreases |p|
  {
    if |p| == 1 {
      assert (p + [y])[1..] == [y];
    } else {
      PathExtends(g, p[1..], y);
      assert (p + [y])[1..] == p[1..] + [y];
    }
  }

  lemma ConnectedIsSymmetric(g: Graph, u: Id, v: Id)
    requires Symmetric(g) && Connected(g, u, v)
    ensures u in g && v in g && Connected(g, v, u)
  {
    var p: seq<Id> :| PathBetween(g, g.Keys, u, v, p);
    PathLeadsBack(g, p);
  }

  lemma {:induction false} PathLeadsBack(g: Graph, p: seq<Id>)
    requires Symmetric(g) && Path(g, g.Keys, p)
    ensures p[|p| - 1] in g && Connected(g, p[|p| - 1], p[0])
    decreases |p|
  {
    if |p| == 1 {
      ReachesItself(g, g.Keys, p[0]);
    } else {
      var v := p[|p| - 1];
      PathLeadsBack(g, p[1..]);
      ComponentIsClosed(g, v);
      assert p[1] in Component(g, v) && p[0] in g[p[1]];
    }
  }

  /** Two components that meet are one. */
  lemma ComponentsMeet(g: Graph, u: Id, v: Id)
    requires Symmetric(g) && u in g && v in Component(g, u)
    ensures Component(g, u) == Component(g, v)
  {
    ConnectedIsSymmetric(g, u, v);
    ComponentIsClosed(g, u);
    ComponentIsClosed(g, v);
    forall w ensures w in Component(g, u) <==> w in Component(g, v) {
      if w in Component(g, u) {
        ReachesStays(g, g.Keys, Component(g, v), u, w);
      }
      if w in Component(g, v) {
        ReachesStays(g, g.Keys, Component(g, u), v, w);
      }
    }
  }

  // ---------------------------------------------------------------------------
  // Sequences without duplicates

  ghost predicate NoDuplicates<T>(s: seq<T>) {
    forall i, j :: 0 <= i < j < |s| ==> s[i] != s[j]
  }

  function Elements<T>(s: seq<T>): set<T> {
    set x | x in s
  }

  lemma Reassociate<T>(s: seq<T>, a: seq<T>, b: seq<T>, c: seq<T>)
    ensures s + a + b + c == s + (a + b + c)
  {
  }

  lemma NoDuplicatesJoin<T>(s: seq<T>, t: seq<T>)
    requires NoDuplicates(s) && NoDuplicates(t) && forall x <- t :: x !in s
    ensures NoDuplicates(s + t)
  {
    forall i, j | 0 <= i < j < |s + t| ensures (s + t)[i] != (s + t)[j] {
      if i < |s| <= j {
        assert t[j - |s|] in t;
      }
    }
  }

  lemma {:induction false} NoDuplicatesCount<T>(s: seq<T>)
    requires NoDuplicates(s)
    ensures |Elements(s)| == |s|
    decreases |s|
  {
    if s != [] {
      var n := |s| - 1;
      NoDuplicatesCount(s[..n]);
      assert Elements(s) == Elements(s[..n]) + {s[n]};
    }
  }
}
