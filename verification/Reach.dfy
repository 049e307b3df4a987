/** Reachability along a set of steps, as the diagrams of
    terminal_mcp/archify_source.py walk them. */
module Reach {
  type Node = string
  type Steps = set<(Node, Node)>

  ghost predicate Distinct(s: seq<Node>) { forall i, j :: 0 <= i < j < |s| ==> s[i] != s[j] }

  ghost predicate IsPath(steps: Steps, p: seq<Node>) {
    p != [] && forall i :: 0 <= i < |p| - 1 ==> (p[i], p[i + 1]) in steps
  }

  ghost predicate Joins(steps: Steps, a: Node, b: Node, p: seq<Node>) {
    IsPath(steps, p) && p[0] == a && p[|p| - 1] == b
  }

  ghost predicate Reachable(steps: Steps, a: Node, b: Node) { exists p :: Joins(steps, a, b, p) }

  ghost predicate Closed(steps: Steps, s: set<Node>) {
    forall e :: e in steps && e.0 in s ==> e.1 in s
  }

  lemma ReachesItself(steps: Steps, a: Node)
    ensures Reachable(steps, a, a)
  {
    assert Joins(steps, a, a, [a]);
  }

  lemma ReachesNext(steps: Steps, a: Node, b: Node, c: Node)
    requires Reachable(steps, a, b) && (b, c) in steps
    ensures Reachable(steps, a, c)
  {
    var p :| Joins(steps, a, b, p);
    assert Joins(steps, a, c, p + [c]);
  }

  lemma {:induction false} PathStaysInside(steps: Steps, s: set<Node>, p: seq<Node>)
    requires Closed(steps, s) && IsPath(steps, p) && p[0] in s
    ensures p[|p| - 1] in s
  {
    if |p| > 1 {
      assert (p[0], p[1]) in steps;
      assert forall i :: 0 <= i < |p[1..]| - 1 ==> (p[1..][i], p[1..][i + 1]) == (p[i + 1], p[i + 2]);
      PathStaysInside(steps, s, p[1..]);
    }
  }

  /** A closed set holds everything reachable from its members. */
  lemma ClosedHoldsReachable(steps: Steps, s: set<Node>, a: Node, b: Node)
    requires Closed(steps, s) && a in s && Reachable(steps, a, b)
    ensures b in s
  {
    var p :| Joins(steps, a, b, p);
    PathStaysInside(steps, s, p);
  }
}
