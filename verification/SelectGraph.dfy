/** The bounded breadth-first tree behind every architecture, workflow,
    sequence and dataflow diagram (terminal_mcp/archify_source.py). The modules
    come in rank order and the prompt's terms as a score on edges. */
module SelectGraph {
  import opened Reach
  import opened SortedKeys

  const MAX_NODES: nat := 8

  datatype Edge = Edge(source: Node, target: Node, evidence: string)

  /** The edges a diagram may use; an undirected pool can be walked both ways. */
  datatype Pool = Pool(edges: seq<Edge>, directed: bool)

  function StepsOf(g: Pool): Steps {
    (set e | e in g.edges :: (e.source, e.target))
    + (if g.directed then {} else set e | e in g.edges :: (e.target, e.source))
  }

  predicate HasDegree(g: Pool, n: Node) {
    exists e :: e in g.edges && (e.source == n || e.target == n)
  }

  predicate MayStart(g: Pool, starts: set<Node>, n: Node) {
    if starts != {} then n in starts else g.directed ==> exists e :: e in g.edges && e.source == n
  }

  /** adjacency[n]: in an undirected pool a loop at n is listed twice. */
  function Adjacent(g: Pool, es: seq<Edge>, n: Node): seq<Edge> {
    if es == [] then []
    else (if es[0].source == n then [es[0]] else []) + (if !g.directed && es[0].target == n then [es[0]] else [])
         + Adjacent(g, es[1..], n)
  }

  /** The other end of an edge listed at n, as _select_graph computes it. */
  function Other(e: Edge, n: Node): Node { if e.source == n then e.target else e.source }

  // --------------------------------------------------------------- sorting

  predicate Precedes(score: Edge -> int, a: Edge, b: Edge) {
    || score(a) > score(b)
    || (score(a) == score(b) && (Less(a.source, b.source) || (a.source == b.source && Less(a.target, b.target))))
  }

  /** Stable: after everything that does not come later. */
  function InsertEdge(score: Edge -> int, s: seq<Edge>, e: Edge): seq<Edge> {
    if s == [] || Precedes(score, e, s[0]) then [e] + s else [s[0]] + InsertEdge(score, s[1..], e)
  }

  function SortEdges(score: Edge -> int, es: seq<Edge>): seq<Edge> {
    if es == [] then [] else InsertEdge(score, SortEdges(score, es[..|es| - 1]), es[|es| - 1])
  }

  lemma {:induction false} InsertKeepsAll(score: Edge -> int, s: seq<Edge>, e: Edge)
    ensures multiset(InsertEdge(score, s, e)) == multiset(s) + multiset{e}
  {
    if s != [] && !Precedes(score, e, s[0]) {
      InsertKeepsAll(score, s[1..], e);
      assert s == [s[0]] + s[1..];
    }
  }

  /** Sorting permutes. */
  lemma {:induction false} SortKeepsAll(score: Edge -> int, es: seq<Edge>)
    ensures multiset(SortEdges(score, es)) == multiset(es)
  {
    if es != [] {
      SortKeepsAll(score, es[..|es| - 1]);
      InsertKeepsAll(score, SortEdges(score, es[..|es| - 1]), es[|es| - 1]);
      assert es == es[..|es| - 1] + [es[|es| - 1]];
    }
  }

  ghost predicate InOrder(score: Edge -> int, s: seq<Edge>) {
    |s| < 2 || (!Precedes(score, s[1], s[0]) && InOrder(score, s[1..]))
  }

  lemma PrecedesIsStrict(score: Edge -> int, a: Edge, b: Edge)
    requires Precedes(score, a, b)
    ensures !Precedes(score, b, a)
  {
    if Less(a.source, b.source) {
      LessIsStrict(a.source, b.source);
    } else if Less(a.target, b.target) {
      LessIsStrict(a.target, b.target);
    }
  }

  lemma {:induction false} InsertKeepsOrder(score: Edge -> int, s: seq<Edge>, e: Edge)
    requires InOrder(score, s)
    ensures InOrder(score, InsertEdge(score, s, e))
  {
    hide Precedes;
    if s == [] {
    } else if Precedes(score, e, s[0]) {
      PrecedesIsStrict(score, e, s[0]);
      assert ([e] + s)[1..] == s;
    } else {
      InsertKeepsOrder(score, s[1..], e);
      var t := InsertEdge(score, s[1..], e);
      assert t[0] == e || (|s| > 1 && t[0] == s[1]);
      assert ([s[0]] + t)[1..] == t;
    }
  }

  /** Neighbours are taken by falling score, then by source, then by target. */
  lemma {:induction false} SortOrders(score: Edge -> int, es: seq<Edge>)
    ensures InOrder(score, SortEdges(score, es))
  {
    if es != [] {
      SortOrders(score, es[..|es| - 1]);
      InsertKeepsOrder(score, SortEdges(score, es[..|es| - 1]), es[|es| - 1]);
    }
  }

  lemma {:induction false} AdjacentIs(g: Pool, es: seq<Edge>, n: Node, e: Edge)
    ensures e in Adjacent(g, es, n) <==> e in es && (e.source == n || (!g.directed && e.target == n))
  {
    if es != [] {
      AdjacentIs(g, es[1..], n, e);
      assert es == [es[0]] + es[1..];
    }
  }

  /** Edge e may be walked from a to b. */
  predicate Leads(g: Pool, e: Edge, a: Node, b: Node) {
    (e.source == a && e.target == b) || (!g.directed && e.target == a && e.source == b)
  }

  lemma LeadsAreSteps(g: Pool, e: Edge, a: Node, b: Node)
    requires e in g.edges && Leads(g, e, a, b)
    ensures (a, b) in StepsOf(g)
  {
  }

  /** The sorted neighbour edges of n are exactly the pool's edges that may be
      walked out of n, each leading to its other end; so their other ends are
      exactly the pool's steps out of n. */
  lemma {:induction false} NeighborsAreSteps(g: Pool, score: Edge -> int, n: Node)
    ensures forall e :: e in SortEdges(score, Adjacent(g, g.edges, n)) <==> e in g.edges && Leads(g, e, n, Other(e, n))
    ensures forall m :: (n, m) in StepsOf(g) ==> exists e :: e in SortEdges(score, Adjacent(g, g.edges, n)) && Other(e, n) == m
  {
    hide Adjacent, SortEdges;
    var adj := Adjacent(g, g.edges, n);
    var ordered := SortEdges(score, adj);
    SortKeepsAll(score, adj);
    forall e
      ensures e in ordered <==> e in g.edges && (e.source == n || (!g.directed && e.target == n))
    {
      AdjacentIs(g, g.edges, n, e);
      assert e in ordered <==> e in multiset(ordered);
      assert e in adj <==> e in multiset(adj);
    }
    forall m | (n, m) in StepsOf(g)
      ensures exists e :: e in ordered && Other(e, n) == m
    {
      if e :| e in g.edges && (e.source, e.target) == (n, m) {
        assert e in ordered && Other(e, n) == m;
      } else {
        var e :| e in g.edges && (e.target, e.source) == (n, m);
        assert e in ordered && Other(e, n) == m;
      }
    }
  }

  // ------------------------------------------------------------------- tree

  /** Tree edge i brings in node i + 1: it is an edge of the pool and itself
      leads, the right way round, from an earlier node to the new one. */
  ghost predicate Grows(g: Pool, selected: seq<Node>, e: Edge, i: nat)
    requires i + 1 < |selected|
  {
    e in g.edges && exists j :: 0 <= j <= i && Leads(g, e, selected[j], selected[i + 1])
  }

  ghost predicate IsTree(g: Pool, start: Node, selected: seq<Node>, tree: seq<Edge>) {
    && selected != [] && selected[0] == start && Distinct(selected)
    && |tree| == |selected| - 1
    && forall i :: 0 <= i < |tree| ==> Grows(g, selected, tree[i], i)
  }

  lemma TreeGrows(g: Pool, start: Node, selected: seq<Node>, tree: seq<Edge>, j: nat, e: Edge, n: Node)
    requires IsTree(g, start, selected, tree) && j < |selected| && n !in selected
    requires e in g.edges && Leads(g, e, selected[j], n)
    ensures IsTree(g, start, selected + [n], tree + [e])
  {
    var s, t := selected + [n], tree + [e];
    forall i | 0 <= i < |t|
      ensures Grows(g, s, t[i], i)
    {
      if i < |tree| {
        assert Grows(g, selected, tree[i], i);
        var k :| 0 <= k <= i && Leads(g, tree[i], selected[k], selected[i + 1]);
        assert s[k] == selected[k] && s[i + 1] == selected[i + 1];
      } else {
        assert s[j] == selected[j] && s[i + 1] == n;
      }
    }
  }

  lemma {:induction false} TreeIsReachable(g: Pool, start: Node, selected: seq<Node>, tree: seq<Edge>, i: nat)
    requires IsTree(g, start, selected, tree) && i < |selected|
    ensures Reachable(StepsOf(g), start, selected[i])
  {
    if i == 0 {
      ReachesItself(StepsOf(g), start);
    } else {
      assert Grows(g, selected, tree[i - 1], i - 1);
      var j :| 0 <= j <= i - 1 && Leads(g, tree[i - 1], selected[j], selected[i]);
      LeadsAreSteps(g, tree[i - 1], selected[j], selected[i]);
      TreeIsReachable(g, start, selected, tree, j);
      ReachesNext(StepsOf(g), start, selected[j], selected[i]);
    }
  }

  // --------------------------------------------------- distance from the root

  /** n is reached from the start in at most k steps. */
  ghost predicate Within(g: Pool, start: Node, k: nat, n: Node) {
    if k == 0 then n == start
    else Within(g, start, k - 1, n) || exists m :: Within(g, start, k - 1, m) && (m, n) in StepsOf(g)
  }

  lemma {:induction false} WithinGrows(g: Pool, start: Node, k: nat, l: nat, n: Node)
    requires k <= l && Within(g, start, k, n)
    ensures Within(g, start, l, n)
  {
    if k < l {
      WithinGrows(g, start, k, l - 1, n);
    }
  }

  /** No node comes before one that is nearer to the start. */
  ghost predicate ByDistance(g: Pool, start: Node, s: seq<Node>) {
    forall i, j, k: nat :: 0 <= i < j < |s| && Within(g, start, k, s[j]) ==> Within(g, start, k, s[i])
  }

  /** The first `done` nodes are all that lie within d steps; the others lie one
      step further. */
  ghost predicate Levels(g: Pool, start: Node, s: seq<Node>, d: nat, done: nat) {
    && done <= |s|
    && (forall i :: 0 <= i < |s| ==> Within(g, start, if i < done then d else d + 1, s[i]))
    && (forall n :: Within(g, start, d, n) ==> n in s[..done])
  }

  lemma {:induction false} NewNodeIsFurther(g: Pool, start: Node, s: seq<Node>, d: nat, done: nat, n: Node)
    requires Levels(g, start, s, d, done) && n !in s
    ensures !Within(g, start, d, n)
  {
    hide Within;
    assert n in s[..done] ==> n in s;
  }

  lemma {:induction false} FurtherThan(g: Pool, start: Node, d: nat, k: nat, n: Node)
    requires !Within(g, start, d, n) && Within(g, start, k, n)
    ensures d < k
  {
    if k <= d {
      WithinGrows(g, start, k, d, n);
    }
  }

  lemma OneMoreByDistance(g: Pool, start: Node, s: seq<Node>, d: nat, done: nat, m: Node, n: Node)
    requires ByDistance(g, start, s) && Levels(g, start, s, d, done)
    requires n !in s && m in s[..done] && (m, n) in StepsOf(g)
    ensures ByDistance(g, start, s + [n]) && Levels(g, start, s + [n], d, done)
  {
    hide Within, StepsOf;
    var more := s + [n];
    assert more[..done] == s[..done];
    NextStep(g, start, d, m, n);
    NewNodeIsFurther(g, start, s, d, done, n);
    forall i, j, k: nat | 0 <= i < j < |more| && Within(g, start, k, more[j])
      ensures Within(g, start, k, more[i])
    {
      if j == |s| {
        FurtherThan(g, start, d, k, n);
        WithinGrows(g, start, if i < done then d else d + 1, k, s[i]);
      }
    }
  }

  lemma NextStep(g: Pool, start: Node, d: nat, m: Node, n: Node)
    requires Within(g, start, d, m) && (m, n) in StepsOf(g)
    ensures Within(g, start, d + 1, n)
  {
  }

  /** When the nodes within d steps have all their neighbours, those within d + 1
      steps are there. */
  lemma NextLevel(g: Pool, start: Node, s: seq<Node>, d: nat, done: nat)
    requires Levels(g, start, s, d, done) && Processed(g, s, done)
    ensures Levels(g, start, s, d + 1, |s|)
  {
    hide StepsOf;
    assert s[..|s|] == s;
    forall i | 0 <= i < |s|
      ensures Within(g, start, d + 1, s[i])
    {
      WithinGrows(g, start, if i < done then d else d + 1, d + 1, s[i]);
    }
    forall n | Within(g, start, d + 1, n)
      ensures n in s
    {
      if !Within(g, start, d, n) {
        var m :| Within(g, start, d, m) && (m, n) in StepsOf(g);
        assert m in s[..done];
        var i :| 0 <= i < done && s[i] == m;
        assert Expanded(g, s, s[i]);
      }
    }
  }

  lemma RootAlone(g: Pool, start: Node)
    ensures ByDistance(g, start, [start]) && Levels(g, start, [start], 0, 1)
  {
    assert [start][..1] == [start];
  }

  // ------------------------------------------------------- the best neighbours

  lemma {:induction false} ScoresFall(score: Edge -> int, s: seq<Edge>, a: nat, b: nat)
    requires InOrder(score, s) && a <= b < |s|
    ensures score(s[a]) >= score(s[b])
  {
    if a < b {
      if a == 0 {
        ScoresFall(score, s[1..], 0, b - 1);
      } else {
        ScoresFall(score, s[1..], a - 1, b - 1);
      }
    }
  }

  /** Tree edge i was taken from a node none of whose neighbours left out has a
      better edge. */
  ghost predicate BestTaken(g: Pool, score: Edge -> int, selected: seq<Node>, e: Edge, i: nat)
    requires i + 1 < |selected|
  {
    exists j :: 0 <= j <= i && Leads(g, e, selected[j], selected[i + 1]) && NothingBetter(g, score, selected, selected[j], score(e))
  }

  ghost predicate NothingBetter(g: Pool, score: Edge -> int, selected: seq<Node>, n: Node, best: int) {
    forall f :: f in g.edges && (exists m :: Leads(g, f, n, m) && m !in selected) ==> score(f) <= best
  }

  ghost predicate AllBest(g: Pool, score: Edge -> int, selected: seq<Node>, tree: seq<Edge>) {
    |tree| < |selected| && forall i :: 0 <= i < |tree| ==> BestTaken(g, score, selected, tree[i], i)
  }

  lemma BestStays(g: Pool, score: Edge -> int, selected: seq<Node>, more: seq<Node>, e: Edge, i: nat)
    requires i + 1 < |selected| && selected <= more && BestTaken(g, score, selected, e, i)
    ensures BestTaken(g, score, more, e, i)
  {
    hide Leads;
    var j :| 0 <= j <= i && Leads(g, e, selected[j], selected[i + 1]) && NothingBetter(g, score, selected, selected[j], score(e));
    assert more[j] == selected[j] && more[i + 1] == selected[i + 1];
    assert NothingBetter(g, score, more, more[j], score(e));
  }

  predicate Among(neighbors: seq<Edge>, n: nat, e: Edge) {
    n <= |neighbors| && e in neighbors[..n]
  }

  /** The tree edges from number `first` on were taken from node number `at`, out
      of the first n of its sorted neighbour edges. */
  ghost predicate TakenFrom(g: Pool, selected: seq<Node>, tree: seq<Edge>, first: nat, at: nat, neighbors: seq<Edge>, n: nat) {
    && first <= |tree| < |selected| && at <= first && n <= |neighbors|
    && (forall t :: first <= t < |tree| ==> Leads(g, tree[t], selected[at], selected[t + 1]))
    && (forall t :: first <= t < |tree| ==> Among(neighbors, n, tree[t]))
  }

  lemma {:induction false} TakenAreBest(
    g: Pool, score: Edge -> int, selected: seq<Node>, tree: seq<Edge>, first: nat, at: nat, neighbors: seq<Edge>, n: nat)
    requires at < |selected| && neighbors == SortEdges(score, Adjacent(g, g.edges, selected[at]))
    requires TakenFrom(g, selected, tree, first, at, neighbors, n)
    requires forall k :: 0 <= k < n ==> Other(neighbors[k], selected[at]) in selected
    ensures forall t :: first <= t < |tree| ==> BestTaken(g, score, selected, tree[t], t)
  {
    hide SortEdges, Adjacent, InOrder;
    SortOrders(score, Adjacent(g, g.edges, selected[at]));
    NeighborsAreSteps(g, score, selected[at]);
    forall t | first <= t < |tree|
      ensures BestTaken(g, score, selected, tree[t], t)
    {
      assert Among(neighbors, n, tree[t]);
      var a :| 0 <= a < n && neighbors[..n][a] == tree[t];
      forall f | f in g.edges && exists m :: Leads(g, f, selected[at], m) && m !in selected
        ensures score(f) <= score(tree[t])
      {
        var m :| Leads(g, f, selected[at], m) && m !in selected;
        assert selected[at] in selected;
        assert m == Other(f, selected[at]);
        assert f in neighbors;
        var b :| 0 <= b < |neighbors| && neighbors[b] == f;
        assert b >= n;
        ScoresFall(score, neighbors, a, b);
      }
      assert NothingBetter(g, score, selected, selected[at], score(tree[t]));
    }
  }

  // -------------------------------------------------------------------- loops

  ghost predicate Expanded(g: Pool, selected: seq<Node>, n: Node) {
    forall m :: (n, m) in StepsOf(g) ==> m in selected
  }

  /** The first k nodes have all their neighbours selected. */
  ghost predicate Processed(g: Pool, selected: seq<Node>, k: nat) {
    k <= |selected| && forall i :: 0 <= i < k ==> Expanded(g, selected, selected[i])
  }

  ghost predicate IsFirstStart(g: Pool, ranked: seq<Node>, starts: set<Node>, start: Node) {
    exists i :: 0 <= i < |ranked| && ranked[i] == start && NoneBefore(g, ranked, starts, i)
  }

  predicate NoneBefore(g: Pool, ranked: seq<Node>, starts: set<Node>, i: nat)
    requires i <= |ranked|
  {
    forall j :: 0 <= j < i ==> !(MayStart(g, starts, ranked[j]) && HasDegree(g, ranked[j]))
  }

  method FindStart(g: Pool, ranked: seq<Node>, starts: set<Node>) returns (found: bool, start: Node)
    ensures found <==> exists n :: n in ranked && MayStart(g, starts, n) && HasDegree(g, n)
    ensures found ==> start in ranked && MayStart(g, starts, start) && HasDegree(g, start)
    ensures found ==> IsFirstStart(g, ranked, starts, start)
  {
    for i := 0 to |ranked|
      invariant NoneBefore(g, ranked, starts, i)
    {
      if MayStart(g, starts, ranked[i]) && HasDegree(g, ranked[i]) {
        return true, ranked[i];
      }
    }
    return false, "";
  }

  lemma NothingTaken(g: Pool, selected: seq<Node>, tree: seq<Edge>, at: nat, neighbors: seq<Edge>)
    requires |tree| < |selected| && at <= |tree|
    ensures TakenFrom(g, selected, tree, |tree|, at, neighbors, 0)
  {
  }

  lemma TakenStays(g: Pool, selected: seq<Node>, tree: seq<Edge>, first: nat, at: nat, neighbors: seq<Edge>, n: nat)
    requires TakenFrom(g, selected, tree, first, at, neighbors, n) && n < |neighbors|
    ensures TakenFrom(g, selected, tree, first, at, neighbors, n + 1)
  {
    hide Leads;
    assert neighbors[..n + 1] == neighbors[..n] + [neighbors[n]];
  }

  lemma OneMoreTaken(g: Pool, selected: seq<Node>, tree: seq<Edge>, first: nat, at: nat, neighbors: seq<Edge>, n: nat, other: Node)
    requires TakenFrom(g, selected, tree, first, at, neighbors, n) && n < |neighbors| && |tree| == |selected| - 1
    requires Leads(g, neighbors[n], selected[at], other)
    ensures TakenFrom(g, selected + [other], tree + [neighbors[n]], first, at, neighbors, n + 1)
  {
    hide Leads;
    var s, t := selected + [other], tree + [neighbors[n]];
    assert neighbors[..n + 1] == neighbors[..n] + [neighbors[n]];
    assert s[at] == selected[at];
    forall k | first <= k < |t|
      ensures Leads(g, t[k], s[at], s[k + 1]) && Among(neighbors, n + 1, t[k])
    {
      if k < |tree| {
        assert t[k] == tree[k] && s[k + 1] == selected[k + 1] && Among(neighbors, n, tree[k]);
      }
    }
  }

  /** What the inner loop keeps after n neighbour edges of node number `at`. */
  ghost predicate Growing(
    g: Pool, start: Node, selected: seq<Node>, tree: seq<Edge>, s: seq<Node>, t: seq<Edge>, at: nat, d: nat, done: nat,
    neighbors: seq<Edge>, n: nat)
    requires at < |selected|
  {
    && selected <= s && tree <= t && |tree| == |selected| - 1 && |t| == |s| - 1 && n <= |neighbors|
    && IsTree(g, start, s, t) && ByDistance(g, start, s) && Levels(g, start, s, d, done)
    && TakenFrom(g, s, t, |tree|, at, neighbors, n)
    && (forall k :: 0 <= k < n ==> Other(neighbors[k], selected[at]) in s)
  }

  lemma GrowingOn(
    g: Pool, start: Node, selected: seq<Node>, tree: seq<Edge>, s: seq<Node>, t: seq<Edge>, at: nat, d: nat, done: nat,
    neighbors: seq<Edge>, n: nat)
    requires at < done <= |selected| && n < |neighbors| && Growing(g, start, selected, tree, s, t, at, d, done, neighbors, n)
    requires neighbors[n] in g.edges && Leads(g, neighbors[n], selected[at], Other(neighbors[n], selected[at]))
    ensures var other := Other(neighbors[n], selected[at]);
            if other in s then Growing(g, start, selected, tree, s, t, at, d, done, neighbors, n + 1)
            else Growing(g, start, selected, tree, s + [other], t + [neighbors[n]], at, d, done, neighbors, n + 1)
  {
    hide IsTree, StepsOf, ByDistance, Levels, TakenFrom, Leads;
    var other := Other(neighbors[n], selected[at]);
    if other in s {
      TakenStays(g, s, t, |tree|, at, neighbors, n);
    } else {
      assert s[at] == selected[at] && s[at] in s[..done];
      LeadsAreSteps(g, neighbors[n], selected[at], other);
      TreeGrows(g, start, s, t, at, neighbors[n], other);
      OneMoreByDistance(g, start, s, d, done, selected[at], other);
      OneMoreTaken(g, s, t, |tree|, at, neighbors, n, other);
    }
  }

  /** The inner loop: the neighbours of node number `at`, until the diagram is
      full. */
  method Expand(g: Pool, score: Edge -> int, ghost start: Node, selected: seq<Node>, tree: seq<Edge>, frontier: seq<Node>, current: Node,
                ghost at: nat, ghost d: nat, ghost done: nat)
    returns (selected': seq<Node>, tree': seq<Edge>, frontier': seq<Node>)
    requires IsTree(g, start, selected, tree) && |selected| < MAX_NODES
    requires ByDistance(g, start, selected) && Levels(g, start, selected, d, done) && AllBest(g, score, selected, tree)
    requires at < done <= |selected| && current == selected[at]
    ensures IsTree(g, start, selected', tree') && |selected'| <= MAX_NODES
    ensures selected <= selected' && frontier <= frontier' && selected' == selected + frontier'[|frontier|..]
    ensures |selected'| == MAX_NODES || Expanded(g, selected', current)
    ensures ByDistance(g, start, selected') && Levels(g, start, selected', d, done) && AllBest(g, score, selected', tree')
  {
    assert |tree| == |selected| - 1;
    hide IsTree, Distinct, StepsOf, Adjacent, SortEdges, ByDistance, Levels, AllBest, TakenFrom, Leads;
    selected', tree', frontier' := selected, tree, frontier;
    var neighbors := SortEdges(score, Adjacent(g, g.edges, current));
    NeighborsAreSteps(g, score, current);
    NothingTaken(g, selected, tree, at, neighbors);
    for i := 0 to |neighbors|
      invariant Growing(g, start, selected, tree, selected', tree', at, d, done, neighbors, i) && |selected'| < MAX_NODES
      invariant frontier <= frontier' && selected' == selected + frontier'[|frontier|..]
    {
      var edge := neighbors[i];
      var other := Other(edge, current);
      GrowingOn(g, start, selected, tree, selected', tree', at, d, done, neighbors, i);
      if other in selected' {
        continue;
      }
      selected', tree', frontier' := selected' + [other], tree' + [edge], frontier' + [other];
      if |selected'| >= MAX_NODES {
        BestSoFar(g, score, selected, tree, selected', tree', at, neighbors, i + 1);
        return;
      }
    }
    BestSoFar(g, score, selected, tree, selected', tree', at, neighbors, |neighbors|);
  }

  lemma {:induction false} BestSoFar(
    g: Pool, score: Edge -> int, selected: seq<Node>, tree: seq<Edge>, selected': seq<Node>, tree': seq<Edge>, at: nat,
    neighbors: seq<Edge>, n: nat)
    requires AllBest(g, score, selected, tree) && selected <= selected' && tree <= tree'
    requires |tree| == |selected| - 1 && |tree'| == |selected'| - 1 && at < |selected|
    requires neighbors == SortEdges(score, Adjacent(g, g.edges, selected[at]))
    requires TakenFrom(g, selected', tree', |tree|, at, neighbors, n)
    requires forall k :: 0 <= k < n ==> Other(neighbors[k], selected[at]) in selected'
    ensures AllBest(g, score, selected', tree')
  {
    hide BestTaken, TakenFrom, SortEdges, Adjacent;
    TakenAreBest(g, score, selected', tree', |tree|, at, neighbors, n);
    forall i | 0 <= i < |tree'|
      ensures BestTaken(g, score, selected', tree'[i], i)
    {
      if i < |tree| {
        assert BestTaken(g, score, selected, tree[i], i);
        BestStays(g, score, selected, selected', tree[i], i);
      }
    }
  }

  lemma ProcessedAfter(g: Pool, selected: seq<Node>, selected': seq<Node>, k: nat)
    requires Processed(g, selected, k) && selected <= selected' && k < |selected| && Expanded(g, selected', selected[k])
    ensures Processed(g, selected', k + 1)
  {
    forall i | 0 <= i < k + 1
      ensures Expanded(g, selected', selected'[i])
    {
      if i < k {
        assert Expanded(g, selected, selected[i]);
      }
    }
  }

  /** _select_graph. The result is a tree of the pool, rooted at the first
      permitted module with an edge, of at most MAX_NODES nodes, which come by
      their distance from the root; no edge of a node to a neighbour left out has a
      higher score than one that was taken from that node; and when the tree has
      fewer nodes, they are exactly what can be reached from the root. */
  method SelectTree(g: Pool, ranked: seq<Node>, starts: set<Node>, score: Edge -> int)
    returns (selected: seq<Node>, tree: seq<Edge>)
    ensures (forall n :: n in ranked ==> !(MayStart(g, starts, n) && HasDegree(g, n))) ==> selected == [] && tree == []
    ensures (exists n :: n in ranked && MayStart(g, starts, n) && HasDegree(g, n)) ==>
              && selected != [] && IsFirstStart(g, ranked, starts, selected[0])
              && IsTree(g, selected[0], selected, tree) && |selected| <= MAX_NODES
              && ByDistance(g, selected[0], selected) && AllBest(g, score, selected, tree)
              && (forall i :: 0 <= i < |selected| ==> Reachable(StepsOf(g), selected[0], selected[i]))
              && (|selected| < MAX_NODES ==> forall n :: Reachable(StepsOf(g), selected[0], n) ==> n in selected)
  {
    var found, start := FindStart(g, ranked, starts);
    if !found {
      return [], [];
    }
    selected, tree := GrowTree(g, score, start);
  }

  method GrowTree(g: Pool, score: Edge -> int, start: Node) returns (selected: seq<Node>, tree: seq<Edge>)
    ensures IsTree(g, start, selected, tree) && |selected| <= MAX_NODES
    ensures ByDistance(g, start, selected) && AllBest(g, score, selected, tree)
    ensures forall i :: 0 <= i < |selected| ==> Reachable(StepsOf(g), start, selected[i])
    ensures |selected| < MAX_NODES ==> forall n :: Reachable(StepsOf(g), start, n) ==> n in selected
  {
    hide ByDistance, Levels, BestTaken, Expanded;
    selected, tree := [start], [];
    var frontier := [start];
    ghost var d: nat, done: nat := 0, 1;
    RootAlone(g, start);
    while frontier != [] && |selected| < MAX_NODES
      invariant IsTree(g, start, selected, tree) && |selected| <= MAX_NODES
      invariant |frontier| <= |selected| && frontier == selected[|selected| - |frontier|..]
      invariant |selected| < MAX_NODES ==> Processed(g, selected, |selected| - |frontier|)
      invariant ByDistance(g, start, selected) && Levels(g, start, selected, d, done) && AllBest(g, score, selected, tree)
      invariant |selected| - |frontier| <= done <= |selected|
      decreases MAX_NODES - |selected|, |frontier|
    {
      ghost var at, before := |selected| - |frontier|, selected;
      if at == done {
        NextLevel(g, start, selected, d, done);
        d, done := d + 1, |selected|;
      }
      var current := frontier[0];
      assert frontier[1..] == selected[at + 1..];
      selected, tree, frontier := Expand(g, score, start, selected, tree, frontier[1..], current, at, d, done);
      FrontierIsTail(before, at + 1, selected, frontier);
      if |selected| < MAX_NODES {
        ProcessedAfter(g, before, selected, at);
      }
    }
    TreeHoldsReachable(g, start, selected, tree, frontier);
  }

  lemma FrontierIsTail(before: seq<Node>, k: nat, selected: seq<Node>, frontier: seq<Node>)
    requires k <= |before| && before[k..] <= frontier && selected == before + frontier[|before| - k..]
    ensures |selected| - |frontier| == k && frontier == selected[k..]
  {
  }

  lemma TreeHoldsReachable(g: Pool, start: Node, selected: seq<Node>, tree: seq<Edge>, frontier: seq<Node>)
    requires IsTree(g, start, selected, tree)
    requires |selected| < MAX_NODES ==> frontier == [] && Processed(g, selected, |selected|)
    ensures forall i :: 0 <= i < |selected| ==> Reachable(StepsOf(g), start, selected[i])
    ensures |selected| < MAX_NODES ==> forall n :: Reachable(StepsOf(g), start, n) ==> n in selected
  {
    forall i | 0 <= i < |selected|
      ensures Reachable(StepsOf(g), start, selected[i])
    {
      TreeIsReachable(g, start, selected, tree, i);
    }
    if |selected| < MAX_NODES {
      var inside := set n | n in selected;
      assert Closed(StepsOf(g), inside) by {
        forall e | e in StepsOf(g) && e.0 in inside
          ensures e.1 in inside
        {
          var i :| 0 <= i < |selected| && selected[i] == e.0;
          assert Expanded(g, selected, selected[i]);
          assert (e.0, e.1) in StepsOf(g);
        }
      }
      forall n | Reachable(StepsOf(g), start, n)
        ensures n in selected
      {
        assert start == selected[0];
        ClosedHoldsReachable(StepsOf(g), inside, start, n);
      }
    }
  }
}
