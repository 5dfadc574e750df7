/** SlackNodeAlgorithm: the node with the highest voltage, then most neighbours. */
module Slack {
  import opened Wrappers
  import opened Network

  /** The comparison of the walk, of (nominal voltage, number of neighbours). */
  predicate Below(a: NodeRecord, b: NodeRecord) {
    || a.nominalVoltage < b.nominalVoltage
    || (a.nominalVoltage == b.nominalVoltage && |a.neighbours| < |b.neighbours|)
  }

  /** No node of a higher voltage, and none of the same with more neighbours. */
  predicate NoneHigher(s: NodeRecord, n: NodeRecord) {
    && n.nominalVoltage <= s.nominalVoltage
    && (n.nominalVoltage == s.nominalVoltage ==> |n.neighbours| <= |s.neighbours|)
  }

  /** The k-th node is the first that none is higher than. */
  ghost predicate FirstHighest(nodes: seq<NodeRecord>, k: nat) {
    && k < |nodes|
    && (forall j :: 0 <= j < |nodes| ==> NoneHigher(nodes[k], nodes[j]))
    && (forall j :: 0 <= j < k ==> !NoneHigher(nodes[j], nodes[k]))
  }

  ghost predicate IsSlack(nodes: seq<NodeRecord>, slack: Option<NodeRecord>) {
    match slack
    case None => nodes == []
    case Some(s) => exists k: nat :: FirstHighest(nodes, k) && nodes[k] == s
  }

  class SlackNodeAlgorithm {
    var slackNode: Option<NodeRecord>

    constructor ()
      ensures slackNode == None && IsSlack([], slackNode)
    {
      slackNode := None;
    }

    method Visit(ghost visited: seq<NodeRecord>, node: NodeRecord)
      requires IsSlack(visited, slackNode)
      modifies this
      ensures IsSlack(visited + [node], slackNode)
    {
      SlackStep(visited, slackNode, node);
      if slackNode == None {
        slackNode := Some(node);
      } else if Below(slackNode.value, node) {
        slackNode := Some(node);
      }
    }
  }

  lemma SlackStep(visited: seq<NodeRecord>, slack: Option<NodeRecord>, node: NodeRecord)
    requires IsSlack(visited, slack)
    ensures IsSlack(visited + [node], if slack == None || Below(slack.value, node) then Some(node) else slack)
  {
    var all, n := visited + [node], |visited|;
    if slack == None {
      assert FirstHighest(all, 0) && all[0] == node;
    } else {
      var k: nat :| FirstHighest(visited, k) && visited[k] == slack.value;
      if Below(slack.value, node) {
        forall j | 0 <= j < n ensures NoneHigher(node, all[j]) && !NoneHigher(all[j], node) {
          assert NoneHigher(visited[k], visited[j]);
        }
        assert FirstHighest(all, n) && all[n] == node;
      } else {
        assert FirstHighest(all, k) && all[k] == slack.value;
      }
    }
  }

  /** A highest node of all nodes that lies among some of them is highest there. */
  lemma HighestAmongFewer(nodes: seq<NodeRecord>, s: NodeRecord, fewer: seq<NodeRecord>)
    requires IsSlack(nodes, Some(s)) && forall n <- fewer :: n in nodes
    ensures forall n <- fewer :: NoneHigher(s, n)
  {
    var k: nat :| FirstHighest(nodes, k) && nodes[k] == s;
    forall n <- fewer ensures NoneHigher(s, n) {
      var j :| 0 <= j < |nodes| && nodes[j] == n;
    }
  }
}
