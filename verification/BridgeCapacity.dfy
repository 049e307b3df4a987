/** What the bridge's concurrency gate really promises (terminal_mcp/bridge.py).
    The gate counts, the claim inserts, and nothing holds the table in between. */
module BridgeCapacity {
  import opened Collections
  import opened Options
  import opened BridgeStore
  import opened BridgeProtocol
  import opened BridgeRuns

  /** Callers past the concurrency gate whose INSERT is still to come. */
  function InWindow(callers: map<nat, Caller>): set<nat> {
    set c | c in callers && callers[c].pc == Window
  }

  /** Whether a label inserts a new row. */
  ghost predicate Inserts(s: Sys, l: Label) {
    && l.CallerGo? && l.c in s.callers && s.callers[l.c].pc == Window && l.choice != Fail
    && !HasKey(s.rows, s.callers[l.c].key)
  }

  ghost predicate PassesGate(s: Sys, l: Label) {
    l.CallerGo? && l.c in s.callers && s.callers[l.c].pc == Gate && |NonTerminal(s.rows)| < s.limit
  }

  lemma RowsOnlyComeFromInserts(s: Sys, l: Label)
    requires Inv(s) && Enabled(s, l)
    ensures Inserts(s, l) ==> Do(s, l).rows.Keys == s.rows.Keys + {l.uuid}
    ensures !Inserts(s, l) ==> Do(s, l).rows.Keys == s.rows.Keys
  {
    hide CallerOk, RowsOk, NoKeyTwice, DistinctOwners, RowMoves;
    if l.CallerGo? && Owned(s.callers[l.c].pc).Some? && !s.callers[l.c].pc.ClaimRead? {
      CallerRowStepKeepsInv(s, l.c, l.choice, l.uuid, l.expiresAt);
    }
  }

  lemma NonTerminalOnlyGrowsByInsert(s: Sys, l: Label)
    requires Inv(s) && Enabled(s, l)
    ensures Inserts(s, l) ==> |NonTerminal(Do(s, l).rows)| <= |NonTerminal(s.rows)| + 1
    ensures !Inserts(s, l) ==> |NonTerminal(Do(s, l).rows)| <= |NonTerminal(s.rows)|
  {
    RowsOnlyComeFromInserts(s, l);
    StepKeepsInv(s, l);
    var extra := if Inserts(s, l) then {l.uuid} else {};
    NonTerminalShrinks(s.rows, Do(s, l).rows, extra);
    SubsetSize(NonTerminal(Do(s, l).rows), NonTerminal(s.rows) + extra);
  }

  lemma NonTerminalShrinks(t: Table, t': Table, extra: set<TurnId>)
    requires t'.Keys == t.Keys + extra
    requires forall id :: id in t ==> id in t' && RowMoves(t[id], t'[id])
    ensures NonTerminal(t') <= NonTerminal(t) + extra
  {
    forall id | id in NonTerminal(t') && id !in extra
      ensures id in NonTerminal(t)
    {
      assert RowMoves(t[id], t'[id]);
    }
  }

  lemma OnlyTheGateLeadsIn(limit: nat, t: Table, k: Caller, ch: Choice, uuid: TurnId, ex: int)
    requires Advance(limit, t, k, ch, uuid, ex).pc == Window
    ensures k.pc == Gate && |NonTerminal(t)| < limit
  {
  }

  /** One caller moves to another program point. */
  lemma WindowAfterMove(callers: map<nat, Caller>, c: nat, pc: Pc)
    requires c in callers
    ensures var after := InWindow(callers[c := callers[c].(pc := pc)]);
            && (pc != Window || callers[c].pc == Window ==> |after| <= |InWindow(callers)|)
            && (pc != Window && callers[c].pc == Window ==> |after| == |InWindow(callers)| - 1)
  {
    var before, after := InWindow(callers), InWindow(callers[c := callers[c].(pc := pc)]);
    if callers[c].pc == Window {
      assert after == if pc == Window then before else before - {c};
    } else if pc != Window {
      assert after == before;
    }
  }

  lemma WindowOnlyGrowsByGate(s: Sys, l: Label)
    requires Enabled(s, l)
    ensures !PassesGate(s, l) ==> |InWindow(Do(s, l).callers)| <= |InWindow(s.callers)|
    ensures Inserts(s, l) ==> |InWindow(Do(s, l).callers)| == |InWindow(s.callers)| - 1
  {
    hide Advance, NonTerminal, HasKey, InWindow;
    if l.CallerGo? {
      var k := s.callers[l.c];
      var pc := Advance(s.limit, s.rows, k, l.choice, l.uuid, l.expiresAt).pc;
      WindowAfterMove(s.callers, l.c, pc);
      if pc == Window {
        OnlyTheGateLeadsIn(s.limit, s.rows, k, l.choice, l.uuid, l.expiresAt);
      }
    } else {
      WindowStays(s, l);
    }
  }

  lemma WindowStays(s: Sys, l: Label)
    requires Enabled(s, l) && !l.CallerGo?
    ensures |InWindow(Do(s, l).callers)| == |InWindow(s.callers)|
  {
    assert InWindow(Do(s, l).callers) == InWindow(s.callers);
  }

  lemma LimitStays(s: Sys, l: Label)
    requires Enabled(s, l)
    ensures Do(s, l).limit == s.limit
  {
  }

  lemma CountsAfter(s: Sys, l: Label, window: nat)
    requires Inv(s) && Enabled(s, l) && |InWindow(Do(s, l).callers)| <= window
    requires |NonTerminal(s.rows)| + |InWindow(s.callers)| <= s.limit - 1 + window
    ensures |NonTerminal(Do(s, l).rows)| + |InWindow(Do(s, l).callers)| <= s.limit - 1 + window
  {
    hide Do, Inv, InWindow, NonTerminal;
    NonTerminalOnlyGrowsByInsert(s, l);
    WindowOnlyGrowsByGate(s, l);
  }

  /** If at most `window` callers are ever between the gate and their claim, the
      turns in flight together with those callers stay within
      limit - 1 + window. */
  lemma {:induction false} CapacityBound(limit: nat, window: nat, tr: seq<Sys>, ls: seq<Label>, i: nat)
    requires Behavior(limit, tr, ls) && i < |tr| && 1 <= limit
    requires forall n :: 0 <= n < |tr| ==> |InWindow(tr[n].callers)| <= window
    ensures tr[i].limit == limit
    ensures |NonTerminal(tr[i].rows)| + |InWindow(tr[i].callers)| <= limit - 1 + window
  {
    hide *;
    if i == 0 {
      StartsEmpty(limit, tr, ls);
    } else {
      CapacityBound(limit, window, tr, ls, i - 1);
      InvariantHolds(limit, tr, ls, i - 1);
      OneStep(limit, tr, ls, i);
      LimitStays(tr[i - 1], ls[i - 1]);
      CountsAfter(tr[i - 1], ls[i - 1], window);
    }
  }

  lemma StartsEmpty(limit: nat, tr: seq<Sys>, ls: seq<Label>)
    requires Behavior(limit, tr, ls)
    ensures tr != [] && tr[0].limit == limit && |NonTerminal(tr[0].rows)| == 0 && |InWindow(tr[0].callers)| == 0
  {
    assert NonTerminal(tr[0].rows) == {} && InWindow(tr[0].callers) == {};
  }

  lemma OneStep(limit: nat, tr: seq<Sys>, ls: seq<Label>, i: nat)
    requires Behavior(limit, tr, ls) && 0 < i < |tr|
    ensures i <= |ls| && Enabled(tr[i - 1], ls[i - 1]) && tr[i] == Do(tr[i - 1], ls[i - 1])
  {
    assert tr[i - 1 + 1] == tr[i];
  }

  // ------------------------------------------------------ the bound is reached

  /** n claimed turns in flight and w callers in the window, numbered in order. */
  ghost predicate Crowd(s: Sys, limit: nat, n: nat, w: nat) {
    && s.limit == limit
    && (forall id :: id in s.rows <==> 0 <= id < n)
    && (forall id :: id in s.rows ==> s.rows[id].key == id && s.rows[id].state == Preparing)
    && (forall c :: c in s.callers <==> 0 <= c < n + w)
    && (forall c :: c in s.callers ==> s.callers[c].key == c && (s.callers[c].pc == Window <==> n <= c))
  }

  function Range(lo: nat, hi: nat): (r: set<nat>)
    requires lo <= hi
    ensures |r| == hi - lo
    ensures forall k :: k in r <==> lo <= k < hi
  {
    if lo == hi then {} else Range(lo, hi - 1) + {hi - 1}
  }

  lemma CrowdSize(s: Sys, limit: nat, n: nat, w: nat)
    requires Crowd(s, limit, n, w)
    ensures |NonTerminal(s.rows)| == n && |InWindow(s.callers)| == w
  {
    assert NonTerminal(s.rows) == Range(0, n);
    assert InWindow(s.callers) == Range(n, n + w);
  }

  /** A run that ends in a given crowd and never holds more than `window`
      callers between gate and claim. */
  ghost predicate Reaches(limit: nat, window: nat, tr: seq<Sys>, ls: seq<Label>, n: nat, w: nat) {
    && Behavior(limit, tr, ls)
    && (forall m :: 0 <= m < |tr| ==> |InWindow(tr[m].callers)| <= window)
    && Crowd(tr[|tr| - 1], limit, n, w)
  }

  /** Extend a run by one label. */
  lemma Extend(limit: nat, window: nat, tr: seq<Sys>, ls: seq<Label>, l: Label)
    returns (tr': seq<Sys>, ls': seq<Label>)
    requires Behavior(limit, tr, ls) && Enabled(tr[|tr| - 1], l)
    requires forall m :: 0 <= m < |tr| ==> |InWindow(tr[m].callers)| <= window
    requires |InWindow(Do(tr[|tr| - 1], l).callers)| <= window
    ensures Behavior(limit, tr', ls') && tr'[|tr'| - 1] == Do(tr[|tr| - 1], l)
    ensures forall m :: 0 <= m < |tr'| ==> |InWindow(tr'[m].callers)| <= window
  {
    tr', ls' := tr + [Do(tr[|tr| - 1], l)], ls + [l];
  }

  /** The same crowd with one more caller, on its way to the window. */
  ghost predicate CrowdAnd(s: Sys, limit: nat, n: nat, w: nat, pc: Pc) {
    && n + w in s.callers && s.callers[n + w] == Caller(n + w, 0, None, pc) && pc != Window
    && Crowd(s.(callers := s.callers - {n + w}), limit, n, w)
  }

  lemma CrowdAndSize(s: Sys, limit: nat, n: nat, w: nat, pc: Pc)
    requires CrowdAnd(s, limit, n, w, pc)
    ensures |NonTerminal(s.rows)| == n && |InWindow(s.callers)| == w
  {
    var rest := s.(callers := s.callers - {n + w});
    CrowdSize(rest, limit, n, w);
    assert InWindow(s.callers) == InWindow(rest.callers);
  }

  lemma NextArrives(s: Sys, limit: nat, n: nat, w: nat, l: Label)
    requires Crowd(s, limit, n, w) && l == Arrive(n + w, n + w, 0, None)
    ensures Enabled(s, l) && CrowdAnd(Do(s, l), limit, n, w, Lookup)
  {
    assert Do(s, l).callers - {n + w} == s.callers;
  }

  /** Neither its key nor its trace is in the table, so it walks on. */
  lemma NextWalks(s: Sys, limit: nat, n: nat, w: nat, pc: Pc, l: Label)
    requires CrowdAnd(s, limit, n, w, pc) && pc in {Lookup, CycleCheck} && l == CallerGo(n + w, Succeed, n, 0)
    ensures Enabled(s, l) && CrowdAnd(Do(s, l), limit, n, w, if pc == Lookup then CycleCheck else Gate)
  {
    assert !HasKey(s.rows, n + w);
    var rest := s.callers - {n + w};
    assert Do(s, l).callers - {n + w} == rest;
    assert Do(s, l).(callers := rest) == s.(callers := rest);
  }

  lemma OpenGateLeadsIn(limit: nat, t: Table, k: Caller, ch: Choice, uuid: TurnId, ex: int)
    requires k.pc == Gate && |NonTerminal(t)| < limit
    ensures Advance(limit, t, k, ch, uuid, ex) == Outcome(t, Window)
  {
  }

  lemma NextEnters(s: Sys, limit: nat, n: nat, w: nat, l: Label)
    requires CrowdAnd(s, limit, n, w, Gate) && n < limit && l == CallerGo(n + w, Succeed, n, 0)
    ensures Enabled(s, l) && Crowd(Do(s, l), limit, n, w + 1)
  {
    hide Advance, NonTerminal;
    CrowdAndSize(s, limit, n, w, Gate);
    OpenGateLeadsIn(s.limit, s.rows, s.callers[n + w], Succeed, n, 0);
    CrowdGrows(s.(callers := s.callers - {n + w}), limit, n, w);
    hide Crowd;
    var rest := s.callers - {n + w};
    var entered := s.callers[n + w := Caller(n + w, 0, None, Window)];
    assert entered == rest[n + w := Caller(n + w, 0, None, Window)];
    assert Do(s, l) == s.(callers := entered);
  }

  lemma CrowdGrows(s: Sys, limit: nat, n: nat, w: nat)
    requires Crowd(s, limit, n, w)
    ensures Crowd(s.(callers := s.callers[n + w := Caller(n + w, 0, None, Window)]), limit, n, w + 1)
  {
  }

  /** The next caller arrives and walks through the open gate. */
  lemma EnterWindow(limit: nat, window: nat, tr: seq<Sys>, ls: seq<Label>, n: nat, w: nat)
    returns (tr': seq<Sys>, ls': seq<Label>)
    requires Reaches(limit, window, tr, ls, n, w) && n < limit && w < window
    ensures Reaches(limit, window, tr', ls', n, w + 1)
  {
    assert |tr| > 0;
    hide Behavior, Enabled, Do, Crowd, CrowdAnd, InWindow, NonTerminal;
    var arrive, go := Arrive(n + w, n + w, 0, None), CallerGo(n + w, Succeed, n, 0);
    var s := tr[|tr| - 1];
    NextArrives(s, limit, n, w, arrive);
    CrowdAndSize(Do(s, arrive), limit, n, w, Lookup);
    tr', ls' := Extend(limit, window, tr, ls, arrive);
    s := Do(s, arrive);
    NextWalks(s, limit, n, w, Lookup, go);
    CrowdAndSize(Do(s, go), limit, n, w, CycleCheck);
    tr', ls' := Extend(limit, window, tr', ls', go);
    s := Do(s, go);
    NextWalks(s, limit, n, w, CycleCheck, go);
    CrowdAndSize(Do(s, go), limit, n, w, Gate);
    tr', ls' := Extend(limit, window, tr', ls', go);
    s := Do(s, go);
    NextEnters(s, limit, n, w, go);
    CrowdSize(Do(s, go), limit, n, w + 1);
    tr', ls' := Extend(limit, window, tr', ls', go);
  }

  /** The first caller of the window inserts its row. */
  lemma LeaveWindow(limit: nat, window: nat, tr: seq<Sys>, ls: seq<Label>, n: nat, w: nat)
    returns (tr': seq<Sys>, ls': seq<Label>)
    requires Reaches(limit, window, tr, ls, n, w) && 1 <= w
    ensures Reaches(limit, window, tr', ls', n + 1, w - 1)
  {
    var s := tr[|tr| - 1];
    var go := CallerGo(n, Succeed, n, 0);
    assert !HasKey(s.rows, n);
    CrowdSize(s, limit, n, w);
    assert w == |InWindow(tr[|tr| - 1].callers)| <= window;
    var s1 := Do(s, go);
    assert Crowd(s1, limit, n + 1, w - 1);
    CrowdSize(s1, limit, n + 1, w - 1);
    tr', ls' := Extend(limit, window, tr, ls, go);
  }

  lemma {:induction false} FillTo(limit: nat, window: nat, n: nat) returns (tr: seq<Sys>, ls: seq<Label>)
    requires n < limit && 1 <= window
    ensures Reaches(limit, window, tr, ls, n, 0)
  {
    if n == 0 {
      tr, ls := [Init(limit)], [];
      CrowdSize(Init(limit), limit, 0, 0);
    } else {
      tr, ls := FillTo(limit, window, n - 1);
      tr, ls := EnterWindow(limit, window, tr, ls, n - 1, 0);
      tr, ls := LeaveWindow(limit, window, tr, ls, n - 1, 1);
    }
  }

  /** The bound is exact: for every limit and every window size some run has
      limit - 1 + window turns in flight. So the configured limit holds in all
      runs if and only if no two callers are ever in the window together. */
  lemma CapacityBoundIsReached(limit: nat, window: nat) returns (tr: seq<Sys>, ls: seq<Label>)
    requires 1 <= limit && 1 <= window
    ensures Behavior(limit, tr, ls)
    ensures forall m :: 0 <= m < |tr| ==> |InWindow(tr[m].callers)| <= window
    ensures |NonTerminal(tr[|tr| - 1].rows)| == limit - 1 + window
  {
    tr, ls := FillTo(limit, window, limit - 1);
    var w := 0;
    while w < window
      invariant 0 <= w <= window
      invariant Reaches(limit, window, tr, ls, limit - 1, w)
    {
      tr, ls := EnterWindow(limit, window, tr, ls, limit - 1, w);
      w := w + 1;
    }
    var n := limit - 1;
    while w > 0
      invariant 0 <= w && n + w == limit - 1 + window
      invariant Reaches(limit, window, tr, ls, n, w)
      decreases w
    {
      tr, ls := LeaveWindow(limit, window, tr, ls, n, w);
      n, w := n + 1, w - 1;
    }
    CrowdSize(tr[|tr| - 1], limit, n, 0);
  }
}
