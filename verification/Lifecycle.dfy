/** The state ordering of a lifecycle diagram (terminal_mcp/archify_source.py).
    The declared states come sorted and distinct, as the inspection gives them. */
module Lifecycle {
  import opened Reach
  import opened SortedKeys

  type Transition = (Node, Node)

  function StepsOf(ts: seq<Transition>): Steps { set t | t in ts }

  function EndsOf(ts: seq<Transition>): set<Node> { (set t | t in ts :: t.0) + (set t | t in ts :: t.1) }

  function Targets(ts: seq<Transition>): set<Node> { set t | t in ts :: t.1 }

  function Select(states: seq<Node>, keep: set<Node>): seq<Node> {
    if states == [] then [] else (if states[0] in keep then [states[0]] else []) + Select(states[1..], keep)
  }

  function Omit(states: seq<Node>, drop: set<Node>): seq<Node> {
    if states == [] then [] else (if states[0] in drop then [] else [states[0]]) + Omit(states[1..], drop)
  }

  /** The targets of one state, in transition order. */
  function Successors(ts: seq<Transition>, n: Node): seq<Node> {
    if ts == [] then [] else (if ts[0].0 == n then [ts[0].1] else []) + Successors(ts[1..], n)
  }

  function Elements(s: seq<Node>): set<Node> { set n | n in s }

  datatype Result = NoTransitionMap | StatesDoNotMatch | Diagram(ordered: seq<Node>, transitions: seq<Transition>)

  lemma {:induction false} SelectIs(states: seq<Node>, keep: set<Node>, n: Node)
    ensures n in Select(states, keep) <==> n in states && n in keep
    ensures n in Omit(states, keep) <==> n in states && n !in keep
  {
    if states != [] {
      SelectIs(states[1..], keep, n);
      assert states == [states[0]] + states[1..];
    }
  }

  lemma {:induction false} OmitIsDistinct(states: seq<Node>, drop: set<Node>)
    requires Distinct(states)
    ensures Distinct(Omit(states, drop))
  {
    if states != [] {
      var rest := states[1..];
      assert forall i, j :: 0 <= i < j < |rest| ==> rest[i] == states[i + 1] && rest[j] == states[j + 1];
      OmitIsDistinct(rest, drop);
      if states[0] !in drop {
        forall i | 0 <= i < |Omit(rest, drop)|
          ensures Omit(rest, drop)[i] != states[0]
        {
          SelectIs(rest, drop, Omit(rest, drop)[i]);
          var k :| 0 <= k < |rest| && rest[k] == Omit(rest, drop)[i];
          assert states[k + 1] != states[0];
        }
      }
    }
  }

  lemma {:induction false} SuccessorsAre(ts: seq<Transition>, n: Node, m: Node)
    ensures m in Successors(ts, n) <==> (n, m) in ts
  {
    if ts != [] {
      SuccessorsAre(ts[1..], n, m);
      assert ts == [ts[0]] + ts[1..];
    }
  }

  /** Where the walk starts: declared, connected states nothing leads to. */
  function Entries(states: seq<Node>, ts: seq<Transition>): seq<Node> {
    Omit(Select(states, EndsOf(ts)), Targets(ts))
  }

  ghost predicate FromAnEntry(states: seq<Node>, ts: seq<Transition>, n: Node) {
    exists e :: e in Entries(states, ts) && Reachable(StepsOf(ts), e, n)
  }

  /** What the queue loop keeps. */
  ghost predicate Walk(states: seq<Node>, ts: seq<Transition>, ordered: seq<Node>, queue: seq<Node>) {
    && Distinct(ordered)
    && (forall n :: n in ordered || n in queue ==> FromAnEntry(states, ts, n))
    && (forall n :: n in Entries(states, ts) ==> n in ordered || n in queue)
    && (forall t :: t in ts && t.0 in ordered ==> t.1 in ordered || t.1 in queue)
  }

  lemma WalkStarts(states: seq<Node>, ts: seq<Transition>)
    ensures Walk(states, ts, [], Entries(states, ts))
  {
    forall n | n in Entries(states, ts)
      ensures FromAnEntry(states, ts, n)
    {
      ReachesItself(StepsOf(ts), n);
    }
  }

  lemma WalkSkips(states: seq<Node>, ts: seq<Transition>, ordered: seq<Node>, queue: seq<Node>)
    requires queue != [] && Walk(states, ts, ordered, queue) && queue[0] in ordered
    ensures Walk(states, ts, ordered, queue[1..])
  {
    hide FromAnEntry, Entries;
    assert queue == [queue[0]] + queue[1..];
  }

  lemma {:induction false} WalkVisits(states: seq<Node>, ts: seq<Transition>, ordered: seq<Node>, queue: seq<Node>)
    requires queue != [] && Walk(states, ts, ordered, queue) && queue[0] !in ordered
    ensures Walk(states, ts, ordered + [queue[0]], queue[1..] + Successors(ts, queue[0]))
  {
    hide Entries, FromAnEntry;
    var n := queue[0];
    assert queue == [n] + queue[1..];
    forall m
      ensures m in Successors(ts, n) <==> (n, m) in ts
    {
      SuccessorsAre(ts, n, m);
    }
    forall m | m in Successors(ts, n)
      ensures FromAnEntry(states, ts, m)
    {
      LeadsOn(states, ts, n, m);
    }
  }

  lemma LeadsOn(states: seq<Node>, ts: seq<Transition>, n: Node, m: Node)
    requires FromAnEntry(states, ts, n) && (n, m) in ts
    ensures FromAnEntry(states, ts, m)
  {
    var e :| e in Entries(states, ts) && Reachable(StepsOf(ts), e, n);
    ReachesNext(StepsOf(ts), e, n, m);
  }

  /** At the end the walk has exactly what the entries lead to. */
  lemma WalkEnds(states: seq<Node>, ts: seq<Transition>, ordered: seq<Node>, n: Node)
    requires Walk(states, ts, ordered, [])
    ensures n in ordered <==> FromAnEntry(states, ts, n)
  {
    if FromAnEntry(states, ts, n) {
      var e :| e in Entries(states, ts) && Reachable(StepsOf(ts), e, n);
      assert Closed(StepsOf(ts), Elements(ordered));
      ClosedHoldsReachable(StepsOf(ts), Elements(ordered), e, n);
    }
  }

  // ------------------------------------------------------------ breadth first

  /** n is reached from some entry in at most k transitions. */
  ghost predicate Within(states: seq<Node>, ts: seq<Transition>, k: nat, n: Node) {
    if k == 0 then n in Entries(states, ts)
    else Within(states, ts, k - 1, n) || exists m :: Within(states, ts, k - 1, m) && (m, n) in ts
  }

  lemma {:induction false} WithinGrows(states: seq<Node>, ts: seq<Transition>, k: nat, l: nat, n: Node)
    requires k <= l && Within(states, ts, k, n)
    ensures Within(states, ts, l, n)
  {
    if k < l {
      WithinGrows(states, ts, k, l - 1, n);
    }
  }

  lemma NextStep(states: seq<Node>, ts: seq<Transition>, k: nat, m: Node, n: Node)
    requires Within(states, ts, k, m) && (m, n) in ts
    ensures Within(states, ts, k + 1, n)
  {
  }

  /** No state comes before one that is nearer to the entries. */
  ghost predicate ByDistance(states: seq<Node>, ts: seq<Transition>, s: seq<Node>) {
    forall i, j, k: nat :: 0 <= i < j < |s| && Within(states, ts, k, s[j]) ==> Within(states, ts, k, s[i])
  }

  /** The queue holds `now` states of distance d or less, and then states one step
      further; the states nearer than d are ordered, and those of distance d are
      ordered or among the first `now`. */
  ghost predicate Levels(states: seq<Node>, ts: seq<Transition>, ordered: seq<Node>, queue: seq<Node>, d: nat, now: nat) {
    && now <= |queue|
    && (forall n :: n in ordered || n in queue[..now] ==> Within(states, ts, d, n))
    && (forall n :: n in queue ==> Within(states, ts, d + 1, n))
    && (forall n :: d > 0 && Within(states, ts, d - 1, n) ==> n in ordered)
    && (forall n :: Within(states, ts, d, n) ==> n in ordered || n in queue[..now])
  }

  lemma LevelsStart(states: seq<Node>, ts: seq<Transition>)
    ensures Levels(states, ts, [], Entries(states, ts), 0, |Entries(states, ts)|) && ByDistance(states, ts, [])
  {
    var queue := Entries(states, ts);
    assert queue[..|queue|] == queue;
    forall n | n in queue
      ensures Within(states, ts, 1, n)
    {
      WithinGrows(states, ts, 0, 1, n);
    }
  }

  /** When no state of distance d waits any more, those of distance d + 1 are next. */
  lemma LevelsNext(states: seq<Node>, ts: seq<Transition>, ordered: seq<Node>, queue: seq<Node>, d: nat)
    requires Levels(states, ts, ordered, queue, d, 0) && Walk(states, ts, ordered, queue)
    ensures Levels(states, ts, ordered, queue, d + 1, |queue|)
  {
    hide FromAnEntry, Entries;
    assert queue[..|queue|] == queue;
    forall n | n in ordered || n in queue
      ensures Within(states, ts, d + 1, n) && Within(states, ts, d + 2, n)
    {
      if n in ordered {
        WithinGrows(states, ts, d, d + 1, n);
      }
      WithinGrows(states, ts, d + 1, d + 2, n);
    }
    forall n | Within(states, ts, d + 1, n)
      ensures n in ordered || n in queue
    {
      if !Within(states, ts, d, n) {
        var m :| Within(states, ts, d, m) && (m, n) in ts;
        assert m in ordered;
      }
    }
  }

  /** The queue without its first state. */
  lemma QueueTail(queue: seq<Node>, now: nat, n: Node)
    requires 0 < now <= |queue|
    ensures n in queue[..now] <==> n == queue[0] || n in queue[1..][..now - 1]
    ensures n in queue <==> n == queue[0] || n in queue[1..]
  {
    assert queue[..now] == [queue[0]] + queue[1..][..now - 1] && queue == [queue[0]] + queue[1..];
  }

  lemma LevelsSkip(states: seq<Node>, ts: seq<Transition>, ordered: seq<Node>, queue: seq<Node>, d: nat, now: nat)
    requires 0 < now && Levels(states, ts, ordered, queue, d, now) && queue[0] in ordered
    ensures Levels(states, ts, ordered, queue[1..], d, now - 1)
  {
    hide Within;
    forall n
      ensures n in queue[..now] <==> n == queue[0] || n in queue[1..][..now - 1]
      ensures n in queue <==> n == queue[0] || n in queue[1..]
    {
      QueueTail(queue, now, n);
    }
  }

  lemma LevelsVisit(
    states: seq<Node>, ts: seq<Transition>, ordered: seq<Node>, queue: seq<Node>, d: nat, now: nat, more: seq<Node>)
    requires 0 < now && Levels(states, ts, ordered, queue, d, now) && queue[0] !in ordered
    requires forall m :: m in more ==> (queue[0], m) in ts
    ensures Levels(states, ts, ordered + [queue[0]], queue[1..] + more, d, now - 1)
  {
    hide Within;
    var first, rest := queue[0], queue[1..];
    forall n
      ensures n in queue[..now] <==> n == first || n in rest[..now - 1]
      ensures n in queue <==> n == first || n in rest
    {
      QueueTail(queue, now, n);
    }
    assert (rest + more)[..now - 1] == rest[..now - 1];
    forall m | m in more
      ensures Within(states, ts, d + 1, m)
    {
      NextStep(states, ts, d, first, m);
    }
  }

  /** A state visited at distance d is not nearer, and none visited before is
      further. */
  lemma VisitByDistance(
    states: seq<Node>, ts: seq<Transition>, ordered: seq<Node>, queue: seq<Node>, d: nat, now: nat)
    requires 0 < now && Levels(states, ts, ordered, queue, d, now) && queue[0] !in ordered && ByDistance(states, ts, ordered)
    ensures ByDistance(states, ts, ordered + [queue[0]])
  {
    hide Within;
    var n, s := queue[0], ordered + [queue[0]];
    forall i, j, k: nat | 0 <= i < j < |s| && Within(states, ts, k, s[j])
      ensures Within(states, ts, k, s[i])
    {
      if j == |ordered| {
        NotNearer(states, ts, ordered, d, k, n);
        assert s[i] in ordered;
        WithinGrows(states, ts, d, k, s[i]);
      }
    }
  }

  lemma NotNearer(states: seq<Node>, ts: seq<Transition>, ordered: seq<Node>, d: nat, k: nat, n: Node)
    requires n !in ordered && Within(states, ts, k, n) && forall m :: d > 0 && Within(states, ts, d - 1, m) ==> m in ordered
    ensures d <= k
  {
    if k < d {
      WithinGrows(states, ts, k, d - 1, n);
    }
  }

  /** The states that may still be visited. */
  ghost predicate Unseen(ts: seq<Transition>, ordered: seq<Node>, queue: seq<Node>, unseen: set<Node>) {
    && (forall n :: (n in queue || n in EndsOf(ts)) && n !in ordered ==> n in unseen)
    && (forall n :: n in ordered ==> n !in unseen)
  }

  lemma UnseenSkips(ts: seq<Transition>, ordered: seq<Node>, queue: seq<Node>, unseen: set<Node>)
    requires queue != [] && Unseen(ts, ordered, queue, unseen)
    ensures Unseen(ts, ordered, queue[1..], unseen)
  {
  }

  lemma {:induction false} UnseenVisits(ts: seq<Transition>, ordered: seq<Node>, queue: seq<Node>, unseen: set<Node>)
    requires queue != [] && queue[0] !in ordered && Unseen(ts, ordered, queue, unseen)
    ensures queue[0] in unseen
    ensures Unseen(ts, ordered + [queue[0]], queue[1..] + Successors(ts, queue[0]), unseen - {queue[0]})
  {
    hide Successors;
    assert queue[0] in queue;
    forall m | m in Successors(ts, queue[0])
      ensures m in EndsOf(ts)
    {
      SuccessorsAre(ts, queue[0], m);
    }
  }

  method WalkFrom(states: seq<Node>, ts: seq<Transition>) returns (ordered: seq<Node>)
    ensures Distinct(ordered) && forall n :: n in ordered <==> FromAnEntry(states, ts, n)
    ensures ByDistance(states, ts, ordered)
  {
    hide Walk, FromAnEntry, Entries, Levels, ByDistance, Unseen, Successors, Distinct;
    ordered := [];
    var queue := Entries(states, ts);
    ghost var unseen := Elements(queue) + EndsOf(ts);
    ghost var d: nat, now: nat := 0, |queue|;
    WalkStarts(states, ts);
    LevelsStart(states, ts);
    AllUnseen(ts, queue);
    while queue != []
      invariant Walk(states, ts, ordered, queue)
      invariant Levels(states, ts, ordered, queue, d, now) && ByDistance(states, ts, ordered) && now <= |queue|
      invariant Unseen(ts, ordered, queue, unseen)
      decreases |unseen|, |queue|
    {
      if now == 0 {
        LevelsNext(states, ts, ordered, queue, d);
        d, now := d + 1, |queue|;
      }
      var state := queue[0];
      if state in ordered {
        WalkSkips(states, ts, ordered, queue);
        LevelsSkip(states, ts, ordered, queue, d, now);
        UnseenSkips(ts, ordered, queue, unseen);
        queue, now := queue[1..], now - 1;
        continue;
      }
      WalkVisits(states, ts, ordered, queue);
      SuccessorsLead(ts, state);
      LevelsVisit(states, ts, ordered, queue, d, now, Successors(ts, state));
      VisitByDistance(states, ts, ordered, queue, d, now);
      UnseenVisits(ts, ordered, queue, unseen);
      ordered := ordered + [state];
      queue, now := queue[1..] + Successors(ts, state), now - 1;
      unseen := unseen - {state};
    }
    forall n
      ensures n in ordered <==> FromAnEntry(states, ts, n)
    {
      WalkEnds(states, ts, ordered, n);
    }
    WalkIsDistinct(states, ts, ordered);
  }

  lemma AllUnseen(ts: seq<Transition>, queue: seq<Node>)
    ensures Unseen(ts, [], queue, Elements(queue) + EndsOf(ts))
  {
  }

  lemma {:induction false} SuccessorsLead(ts: seq<Transition>, n: Node)
    ensures forall m :: m in Successors(ts, n) ==> (n, m) in ts
  {
    forall m | m in Successors(ts, n)
      ensures (n, m) in ts
    {
      SuccessorsAre(ts, n, m);
    }
  }

  lemma WalkIsDistinct(states: seq<Node>, ts: seq<Transition>, ordered: seq<Node>)
    requires Walk(states, ts, ordered, [])
    ensures Distinct(ordered)
  {
  }

  // ---------------------------------------------------------------- the diagram

  /** a leaves out some of b and keeps the order. */
  ghost predicate InOrderOf(a: seq<Node>, b: seq<Node>) {
    a == [] || (b != [] && ((a[0] == b[0] && InOrderOf(a[1..], b[1..])) || InOrderOf(a, b[1..])))
  }

  lemma {:induction false} SelectKeepsOrder(states: seq<Node>, keep: set<Node>)
    ensures InOrderOf(Select(states, keep), states) && InOrderOf(Omit(states, keep), states)
  {
    if states != [] {
      SelectKeepsOrder(states[1..], keep);
      var a, b := Select(states[1..], keep), Omit(states[1..], keep);
      assert ([states[0]] + a)[1..] == a && ([states[0]] + b)[1..] == b && [] + a == a && [] + b == b;
    }
  }

  lemma {:induction false} InOrderComposes(a: seq<Node>, b: seq<Node>, c: seq<Node>)
    requires InOrderOf(a, b) && InOrderOf(b, c)
    ensures InOrderOf(a, c)
    decreases |c|
  {
    if a != [] {
      if b[0] == c[0] && InOrderOf(b[1..], c[1..]) {
        if a[0] == b[0] && InOrderOf(a[1..], b[1..]) {
          InOrderComposes(a[1..], b[1..], c[1..]);
        } else {
          InOrderComposes(a, b[1..], c[1..]);
        }
      } else {
        InOrderComposes(a, b, c[1..]);
      }
    }
  }

  /** First the states that the entries lead to, breadth first; then the others in
      the order of their declaration. */
  ghost predicate WalkThenRest(states: seq<Node>, ts: seq<Transition>, ordered: seq<Node>) {
    exists k :: 0 <= k <= |ordered|
      && (forall i :: 0 <= i < |ordered| ==> (i < k <==> FromAnEntry(states, ts, ordered[i])))
      && ByDistance(states, ts, ordered[..k]) && InOrderOf(ordered[k..], states)
  }

  /** _lifecycle. */
  method Build(states: seq<Node>, ts: seq<Transition>) returns (r: Result)
    requires Distinct(states)
    ensures r == NoTransitionMap <==> |states| < 2 || ts == []
    ensures r == StatesDoNotMatch <==> |states| >= 2 && ts != [] && |Select(states, EndsOf(ts))| < 2
    ensures r.Diagram? ==> Distinct(r.ordered) && r.transitions == ts
    ensures r.Diagram? ==> WalkThenRest(states, ts, r.ordered)
    ensures r.Diagram? ==> forall n :: n in r.ordered <==> (n in states && n in EndsOf(ts)) || FromAnEntry(states, ts, n)
  {
    if |states| < 2 || ts == [] {
      return NoTransitionMap;
    }
    var connected := Select(states, EndsOf(ts));
    if |connected| < 2 {
      return StatesDoNotMatch;
    }
    var walked := WalkFrom(states, ts);
    var rest := Omit(connected, Elements(walked));
    var emitted := [];
    for i := 0 to |ts|
      invariant emitted == ts[..i]
    {
      assert ts[i] in ts;
      if ts[i].0 in EndsOf(ts) && ts[i].1 in EndsOf(ts) {
        emitted := emitted + [ts[i]];
      }
    }
    hide FromAnEntry, ByDistance, InOrderOf, WalkThenRest;
    assert ts[..|ts|] == ts;
    r := Diagram(walked + rest, emitted);
    SelectIsDistinct(states, EndsOf(ts));
    OmitIsDistinct(connected, Elements(walked));
    forall n
      ensures n in rest <==> n in states && n in EndsOf(ts) && n !in walked
      ensures n in r.ordered <==> n in walked || n in rest
    {
      SelectIs(connected, Elements(walked), n);
      SelectIs(states, EndsOf(ts), n);
    }
    AppendDistinct(walked, rest);
    SelectKeepsOrder(states, EndsOf(ts));
    SelectKeepsOrder(connected, Elements(walked));
    InOrderComposes(rest, connected, states);
    WalkedComeFirst(states, ts, walked, rest);
  }

  lemma {:induction false} WalkedComeFirst(states: seq<Node>, ts: seq<Transition>, walked: seq<Node>, rest: seq<Node>)
    requires forall n :: n in walked <==> FromAnEntry(states, ts, n)
    requires ByDistance(states, ts, walked) && InOrderOf(rest, states) && forall n :: n in rest ==> n !in walked
    ensures WalkThenRest(states, ts, walked + rest)
  {
    hide FromAnEntry, ByDistance, InOrderOf;
    var all, k := walked + rest, |walked|;
    assert all[..k] == walked && all[k..] == rest;
    forall i | 0 <= i < |all|
      ensures i < k <==> FromAnEntry(states, ts, all[i])
    {
      if i >= k {
        assert all[i] == rest[i - k];
      }
    }
  }

  lemma AppendDistinct(a: seq<Node>, b: seq<Node>)
    requires Distinct(a) && Distinct(b) && forall n :: n in b ==> n !in a
    ensures Distinct(a + b)
  {
    assert forall i :: 0 <= i < |b| ==> b[i] in b;
    assert forall i :: 0 <= i < |a| ==> a[i] in a;
  }

  lemma {:induction false} SelectIsDistinct(states: seq<Node>, keep: set<Node>)
    requires Distinct(states)
    ensures Distinct(Select(states, keep))
  {
    if states != [] {
      var rest := states[1..];
      assert forall i, j :: 0 <= i < j < |rest| ==> rest[i] == states[i + 1] && rest[j] == states[j + 1];
      SelectIsDistinct(rest, keep);
      if states[0] in keep {
        forall i | 0 <= i < |Select(rest, keep)|
          ensures Select(rest, keep)[i] != states[0]
        {
          SelectIs(rest, keep, Select(rest, keep)[i]);
          var k :| 0 <= k < |rest| && rest[k] == Select(rest, keep)[i];
          assert states[k + 1] != states[0];
        }
      }
    }
  }

  /** Every transition is drawn, so its ends should be drawn too: an end is,
      exactly when it is a declared state or some entry leads to it. */
  lemma EndIsDrawnIff(states: seq<Node>, ts: seq<Transition>, ordered: seq<Node>, t: Transition)
    requires t in ts
    requires forall n :: n in ordered <==> (n in states && n in EndsOf(ts)) || FromAnEntry(states, ts, n)
    ensures t.0 in ordered <==> t.0 in states || FromAnEntry(states, ts, t.0)
    ensures t.1 in ordered <==> t.1 in states || FromAnEntry(states, ts, t.1)
    ensures t.0 in ordered && FromAnEntry(states, ts, t.0) ==> t.1 in ordered
  {
    hide FromAnEntry;
    assert t.0 in EndsOf(ts) && t.1 in EndsOf(ts);
    if FromAnEntry(states, ts, t.0) {
      LeadsOn(states, ts, t.0, t.1);
    }
  }

  /** It can be missing: an undeclared source is drawn as an arrow from a state
      that is not there. */
  lemma UndeclaredSourceIsNotDrawn(a: Node, b: Node, x: Node)
    requires a != b && x != a && x != b
    ensures var states, ts := [a, b], [(a, b), (x, a)];
            Distinct(states) && |Select(states, EndsOf(ts))| == 2 && x in EndsOf(ts) && x !in states && !FromAnEntry(states, ts, x)
  {
    var states, ts := [a, b], [(a, b), (x, a)];
    assert ts[0] in ts && ts[1] in ts;
    assert (a, b) in ts && (x, a) in ts;
    assert a in EndsOf(ts) && b in EndsOf(ts) && x in EndsOf(ts) && a in Targets(ts) && b in Targets(ts);
    assert {a, b, x} <= EndsOf(ts) && {a, b} <= Targets(ts);
    var last := [b];
    assert states[1..] == last && last[1..] == [];
    assert Select(last, EndsOf(ts)) == [b] && Select(states, EndsOf(ts)) == [a] + [b];
    assert Omit(last, Targets(ts)) == [] && Omit(states, Targets(ts)) == [];
  }
}
