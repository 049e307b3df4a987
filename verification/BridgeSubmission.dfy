/** Whether the prompt of a turn may still be submitted (terminal_mcp/bridge.py):
    the pipeline never looks at the result of a compare-and-swap. */
module BridgeSubmission {
  import opened Options
  import opened BridgeStore
  import opened BridgeProtocol
  import opened BridgeRuns

  ghost predicate Continues(limit: nat, tr: seq<Sys>, ls: seq<Label>, tr': seq<Sys>, ls': seq<Label>) {
    Behavior(limit, tr', ls') && tr <= tr' && ls <= ls'
  }

  ghost predicate SubmittedSince(s: Sys, s': Sys, key: Key) {
    exists i :: |s.log| <= i < |s'.log| && s'.log[i].key == key
  }

  /** Some continuation of the run submits the prompt of `key` after its end. */
  ghost predicate MayBeSubmitted(limit: nat, tr: seq<Sys>, ls: seq<Label>, key: Key)
    requires tr != []
  {
    exists tr', ls' :: Continues(limit, tr, ls, tr', ls') && tr' != [] && SubmittedSince(tr[|tr| - 1], tr'[|tr'| - 1], key)
  }

  ghost predicate OwnerBeforeSubmit(s: Sys, id: TurnId) {
    exists c :: c in s.callers && Owned(s.callers[c].pc) == Some(id) && MayStillSubmit(s.callers[c].pc)
  }

  /** No step brings back an owner that may still submit. */
  lemma StaysSpent(s: Sys, l: Label, id: TurnId)
    requires Inv(s) && Enabled(s, l) && id in s.rows && !OwnerBeforeSubmit(s, id)
    ensures !OwnerBeforeSubmit(Do(s, l), id)
  {
    hide Inv, Enabled, Do;
    if l.CallerGo? {
      CallerStaysSpent(s, l, id);
    } else {
      OthersLeaveCallers(s, l);
    }
  }

  lemma OthersLeaveCallers(s: Sys, l: Label)
    requires Enabled(s, l) && !l.CallerGo?
    ensures Do(s, l).callers == if l.Arrive? then s.callers[l.c := Caller(l.key, l.who, l.trace, Lookup)] else s.callers
  {
    hide CasRow, RevokeRow, Expired;
  }

  lemma CallerStaysSpent(s: Sys, l: Label, id: TurnId)
    requires Inv(s) && Enabled(s, l) && l.CallerGo? && id in s.rows && !OwnerBeforeSubmit(s, id)
    ensures !OwnerBeforeSubmit(Do(s, l), id)
  {
    var k := s.callers[l.c];
    assert CallerOk(s.rows, Keys(s.log), k);
    OnlyOwnersGoOn(s.limit, s.rows, Keys(s.log), k, l.choice, l.uuid, l.expiresAt, id);
    hide Inv, CallerOk, Advance, MayStillSubmit, Owned, Submits;
    var s' := Do(s, l);
    assert s'.callers[l.c].pc == Advance(s.limit, s.rows, k, l.choice, l.uuid, l.expiresAt).pc;
    assert forall c :: c in s.callers && c != l.c ==> s'.callers[c] == s.callers[c];
  }

  lemma OnlyOwnersGoOn(
    limit: nat, t: Table, keys: set<Key>, k: Caller, ch: Choice, uuid: TurnId, ex: int, id: TurnId)
    requires CallerOk(t, keys, k) && UniqueKeys(t) && id in t && uuid !in t
    ensures var pc := Advance(limit, t, k, ch, uuid, ex).pc;
            Owned(pc) == Some(id) && MayStillSubmit(pc) ==> Owned(k.pc) == Some(id) && MayStillSubmit(k.pc)
  {
    if k.pc.ClaimRead? && k.pc.inserted {
      assert IdOf(t, k.key) == k.pc.newId;
    }
  }

  lemma StepSubmitsAnother(s: Sys, l: Label, id: TurnId)
    requires Inv(s) && Enabled(s, l) && id in s.rows && !OwnerBeforeSubmit(s, id)
    ensures s.log <= Do(s, l).log && !SubmittedSince(s, Do(s, l), s.rows[id].key)
  {
    hide Advance;
    if l.CallerGo? && Submits(s.callers[l.c].pc) {
      var k := s.callers[l.c];
      assert CallerOk(s.rows, Keys(s.log), k);
      assert k.pc.id != id;
      assert k.key != s.rows[id].key;
      assert Do(s, l).log == s.log + [Submission(l.c, k.key)];
    } else {
      assert Do(s, l).log == s.log;
    }
  }

  lemma SinceThenStill(s: Sys, t: Sys, u: Sys, key: Key)
    requires s.log <= t.log <= u.log && !SubmittedSince(s, t, key) && !SubmittedSince(t, u, key)
    ensures !SubmittedSince(s, u, key)
  {
    forall i | |s.log| <= i < |u.log|
      ensures u.log[i].key != key
    {
      if i < |t.log| {
        assert t.log[i].key != key && t.log[i] == u.log[i];
      }
    }
  }

  lemma StepHere(limit: nat, tr: seq<Sys>, ls: seq<Label>, i: nat)
    requires Behavior(limit, tr, ls) && i + 1 < |tr|
    ensures i < |ls| && Enabled(tr[i], ls[i]) && tr[i + 1] == Do(tr[i], ls[i])
  {
  }

  lemma SpentAfterStep(s: Sys, t: Sys, l: Label, id: TurnId)
    requires Inv(t) && Enabled(t, l) && id in t.rows && !OwnerBeforeSubmit(t, id)
    requires s.log <= t.log && !SubmittedSince(s, t, t.rows[id].key)
    ensures var u := Do(t, l);
            && id in u.rows && u.rows[id].key == t.rows[id].key && s.log <= u.log
            && !OwnerBeforeSubmit(u, id) && !SubmittedSince(s, u, t.rows[id].key)
  {
    hide Inv, Enabled, Do, Edge, OwnerBeforeSubmit, SubmittedSince;
    StepKeepsInv(t, l);
    StaysSpent(t, l, id);
    StepSubmitsAnother(t, l, id);
    SinceThenStill(s, t, Do(t, l), t.rows[id].key);
  }

  lemma NothingSince(s: Sys, key: Key)
    ensures !SubmittedSince(s, s, key)
  {
  }

  lemma {:induction false} SpentForGood(limit: nat, tr: seq<Sys>, ls: seq<Label>, n: nat, m: nat, id: TurnId)
    requires Behavior(limit, tr, ls) && n <= m < |tr| && id in tr[n].rows && !OwnerBeforeSubmit(tr[n], id)
    ensures id in tr[m].rows && tr[m].rows[id].key == tr[n].rows[id].key && tr[n].log <= tr[m].log
    ensures !OwnerBeforeSubmit(tr[m], id) && !SubmittedSince(tr[n], tr[m], tr[n].rows[id].key)
  {
    hide *;
    if n == m {
      NothingSince(tr[n], tr[n].rows[id].key);
    } else {
      SpentForGood(limit, tr, ls, n, m - 1, id);
      InvariantHolds(limit, tr, ls, m - 1);
      StepHere(limit, tr, ls, m - 1);
      SpentAfterStep(tr[n], tr[m - 1], ls[m - 1], id);
    }
  }

  ghost predicate Leads(s: Sys, l: Label, s': Sys) {
    Enabled(s, l) && Do(s, l) == s'
  }

  lemma Then(limit: nat, tr: seq<Sys>, ls: seq<Label>, l: Label, s: Sys)
    returns (tr': seq<Sys>, ls': seq<Label>)
    requires Behavior(limit, tr, ls) && Leads(tr[|tr| - 1], l, s)
    ensures Continues(limit, tr, ls, tr', ls') && tr' == tr + [s] && tr'[|tr'| - 1] == s
  {
    tr', ls' := tr + [s], ls + [l];
  }

  /** Steps left to the submission. */
  function StepsToSubmit(pc: Pc): nat {
    match pc
    case ClaimRead(_, _) => 4
    case Run(_, p) => if p == AtPrepare then 3 else if p == AtComposer then 2 else if p == AtWriting then 1 else 0
    case _ => 0
  }

  /** Nothing in the table keeps a caller from its submission. */
  lemma NextPoint(limit: nat, t: Table, keys: set<Key>, k: Caller, uuid: TurnId)
    requires CallerOk(t, keys, k) && MayStillSubmit(k.pc) && !Submits(k.pc)
    ensures var pc := Advance(limit, t, k, Succeed, uuid, 0).pc;
            MayStillSubmit(pc) && StepsToSubmit(pc) < StepsToSubmit(k.pc)
  {
    hide RowFits;
  }

  lemma NextTowardsSubmit(s: Sys, c: nat, uuid: TurnId)
    requires Inv(s) && c in s.callers && MayStillSubmit(s.callers[c].pc) && uuid !in s.rows
    ensures var k := s.callers[c];
            var s' := Do(s, CallerGo(c, Succeed, uuid, 0));
            if Submits(k.pc) then s'.log == s.log + [Submission(c, k.key)]
            else
              && s'.log == s.log && c in s'.callers && s'.callers[c].key == k.key
              && MayStillSubmit(s'.callers[c].pc) && StepsToSubmit(s'.callers[c].pc) < StepsToSubmit(k.pc)
  {
    assert CallerOk(s.rows, Keys(s.log), s.callers[c]);
    hide Inv, CallerOk, Advance, MayStillSubmit, Submits, StepsToSubmit;
    if !Submits(s.callers[c].pc) {
      NextPoint(s.limit, s.rows, Keys(s.log), s.callers[c], uuid);
    }
  }

  lemma {:induction false} FreshId(ids: set<TurnId>) returns (next: TurnId)
    ensures forall id :: id in ids ==> id < next
  {
    next := 0;
    if ids != {} {
      var id :| id in ids;
      var rest := FreshId(ids - {id});
      assert forall other :: other in ids ==> other == id || other in ids - {id};
      next := if rest <= id then id + 1 else rest;
    }
  }

  lemma {:induction false} DriveToSubmit(limit: nat, tr: seq<Sys>, ls: seq<Label>, c: nat) returns (tr': seq<Sys>, ls': seq<Label>)
    requires Behavior(limit, tr, ls) && c in tr[|tr| - 1].callers && MayStillSubmit(tr[|tr| - 1].callers[c].pc)
    ensures Continues(limit, tr, ls, tr', ls')
    ensures SubmittedSince(tr[|tr| - 1], tr'[|tr'| - 1], tr[|tr| - 1].callers[c].key)
    decreases StepsToSubmit(tr[|tr| - 1].callers[c].pc)
  {
    hide Inv, Enabled, Do, MayStillSubmit, StepsToSubmit;
    var s := tr[|tr| - 1];
    InvariantHolds(limit, tr, ls, |tr| - 1);
    var uuid := FreshId(s.rows.Keys);
    NextTowardsSubmit(s, c, uuid);
    var s' := GoOn(s, c, uuid);
    tr', ls' := Then(limit, tr, ls, CallerGo(c, Succeed, uuid, 0), s');
    if Submits(s.callers[c].pc) {
      assert s'.log[|s.log|].key == s.callers[c].key;
    } else {
      tr', ls' := DriveToSubmit(limit, tr', ls', c);
    }
  }

  lemma GoOn(s: Sys, c: nat, uuid: TurnId) returns (s': Sys)
    requires c in s.callers && uuid !in s.rows
    ensures Leads(s, CallerGo(c, Succeed, uuid, 0), s')
  {
    s' := Do(s, CallerGo(c, Succeed, uuid, 0));
  }

  /** Whatever the state of its row, CANCELLED and revoked included: from a
      reachable state on, the prompt of turn `id` can still be submitted if and
      only if the caller that owns the turn has not yet come past its submission.
      Nothing the table says about a cancellation decides it. */
  lemma SubmissionMayFollowIff(limit: nat, tr: seq<Sys>, ls: seq<Label>, id: TurnId)
    requires Behavior(limit, tr, ls) && id in tr[|tr| - 1].rows
    ensures MayBeSubmitted(limit, tr, ls, tr[|tr| - 1].rows[id].key) <==> OwnerBeforeSubmit(tr[|tr| - 1], id)
  {
    var n := |tr| - 1;
    var key := tr[n].rows[id].key;
    assert n >= 0;
    hide Inv, Enabled, Do, SubmittedSince;
    if OwnerBeforeSubmit(tr[n], id) {
      var c :| c in tr[n].callers && Owned(tr[n].callers[c].pc) == Some(id) && MayStillSubmit(tr[n].callers[c].pc);
      InvariantHolds(limit, tr, ls, n);
      OwnerHasKey(tr[n], c, id);
      var tr', ls' := DriveToSubmit(limit, tr, ls, c);
      assert MayBeSubmitted(limit, tr, ls, key);
    } else {
      hide OwnerBeforeSubmit;
      forall tr', ls' | Continues(limit, tr, ls, tr', ls')
        ensures !SubmittedSince(tr[n], tr'[|tr'| - 1], key)
      {
        assert tr'[n] == tr[n];
        SpentForGood(limit, tr', ls', n, |tr'| - 1, id);
      }
    }
  }

  lemma OwnerHasKey(s: Sys, c: nat, id: TurnId)
    requires Inv(s) && c in s.callers && Owned(s.callers[c].pc) == Some(id)
    ensures id in s.rows && s.rows[id].key == s.callers[c].key
  {
    assert CallerOk(s.rows, Keys(s.log), s.callers[c]);
  }
}
