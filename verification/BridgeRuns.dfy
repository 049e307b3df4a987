/** What the bridge turn protocol promises over whole runs
    (terminal_mcp/bridge.py). */
module BridgeRuns {
  import opened BridgeStore
  import opened BridgeProtocol

  // -------------------------------------------------------------- every state

  lemma StepKeepsInv(s: Sys, l: Label)
    requires Inv(s) && Enabled(s, l)
    ensures Inv(Do(s, l))
    ensures forall id :: id in s.rows ==> id in Do(s, l).rows && RowMoves(s.rows[id], Do(s, l).rows[id])
  {
    match l
    case Arrive(_, _, _, _) =>
    case CallerGo(c, ch, uuid, ex) =>
      if Owned(s.callers[c].pc).Some? && !s.callers[c].pc.ClaimRead? {
        CallerRowStepKeepsInv(s, c, ch, uuid, ex);
      } else {
        CallerGateStepKeepsInv(s, c, ch, uuid, ex);
      }
    case CancelCall(_, _) =>
    case CancelGo(x) => CancelStepKeepsInv(s, x);
    case SweepCall(x, now, todo) =>
      assert SweepOk(Sweeping(todo)) by {
        forall i | 0 <= i < |todo|
          ensures !Terminal(todo[i].1)
        {
          assert todo[i] in todo;
        }
      }
    case SweepGo(x) => SweepStepKeepsInv(s, x);
  }

  lemma {:induction false} InvariantHolds(limit: nat, tr: seq<Sys>, ls: seq<Label>, i: nat)
    requires Behavior(limit, tr, ls) && i < |tr|
    ensures Inv(tr[i])
  {
    if i > 0 {
      InvariantHolds(limit, tr, ls, i - 1);
      StepKeepsInv(tr[i - 1], ls[i - 1]);
    }
  }

  // --------------------------------------------------------------- whole runs

  /** For each idempotency key, transport.submit is called at most once, so by
      at most one caller. */
  lemma AtMostOneSubmit(limit: nat, tr: seq<Sys>, ls: seq<Label>, i: nat, a: nat, b: nat)
    requires Behavior(limit, tr, ls) && i < |tr|
    requires a < |tr[i].log| && b < |tr[i].log| && tr[i].log[a].key == tr[i].log[b].key
    ensures a == b
  {
    InvariantHolds(limit, tr, ls, i);
  }

  /** Rows are never deleted and move only along declared edges; revocation and
      acceptance evidence are never taken back. */
  lemma OnlyDeclaredEdges(limit: nat, tr: seq<Sys>, ls: seq<Label>, i: nat, id: TurnId)
    requires Behavior(limit, tr, ls) && i < |ls| && id in tr[i].rows
    ensures id in tr[i + 1].rows && RowMoves(tr[i].rows[id], tr[i + 1].rows[id])
  {
    InvariantHolds(limit, tr, ls, i);
    StepKeepsInv(tr[i], ls[i]);
  }

  /** A terminal row keeps its state for the rest of the run. */
  lemma {:induction false} TerminalIsForever(limit: nat, tr: seq<Sys>, ls: seq<Label>, i: nat, j: nat, id: TurnId)
    requires Behavior(limit, tr, ls) && i <= j < |tr|
    requires id in tr[i].rows && Terminal(tr[i].rows[id].state)
    ensures id in tr[j].rows && tr[j].rows[id].state == tr[i].rows[id].state
  {
    if i < j {
      TerminalIsForever(limit, tr, ls, i, j - 1, id);
      OnlyDeclaredEdges(limit, tr, ls, j - 1, id);
    }
  }

  /** While a pipeline runs, its row carries the caller's key and is in the
      state the pipeline expects, or is terminal. */
  lemma PipelineStateOrTerminal(limit: nat, tr: seq<Sys>, ls: seq<Label>, i: nat, c: nat)
    requires Behavior(limit, tr, ls) && i < |tr|
    requires c in tr[i].callers && tr[i].callers[c].pc.Run?
    ensures var k := tr[i].callers[c];
            && k.pc.id in tr[i].rows
            && tr[i].rows[k.pc.id].key == k.key
            && (tr[i].rows[k.pc.id].state == Expect(k.pc.at) || Terminal(tr[i].rows[k.pc.id].state))
  {
    InvariantHolds(limit, tr, ls, i);
    assert CallerOk(tr[i].rows, Keys(tr[i].log), tr[i].callers[c]);
  }

  /** A pipeline that returned left its row terminal and revoked; one that was
      unwound by an unexpected exception left it revoked. No caller ever finds
      its row missing after the claim. */
  lemma FinishedPipelineIsSettled(limit: nat, tr: seq<Sys>, ls: seq<Label>, i: nat, c: nat)
    requires Behavior(limit, tr, ls) && i < |tr| && c in tr[i].callers
    ensures tr[i].callers[c].pc != Vanished
    ensures tr[i].callers[c].pc.Returned? ==>
              var id := tr[i].callers[c].pc.id;
              id in tr[i].rows && tr[i].rows[id].key == tr[i].callers[c].key &&
              Terminal(tr[i].rows[id].state) && tr[i].rows[id].revoked
    ensures tr[i].callers[c].pc.Raised? ==>
              tr[i].callers[c].pc.id in tr[i].rows && tr[i].rows[tr[i].callers[c].pc.id].revoked
  {
    InvariantHolds(limit, tr, ls, i);
    assert CallerOk(tr[i].rows, Keys(tr[i].log), tr[i].callers[c]);
  }

  /** A row that shows any progress past WRITING, including COMPLETED and
      UNKNOWN, was submitted, exactly once. */
  lemma ProgressMeansSubmitted(limit: nat, tr: seq<Sys>, ls: seq<Label>, i: nat, id: TurnId)
    requires Behavior(limit, tr, ls) && i < |tr|
    requires id in tr[i].rows && Evidence(tr[i].rows[id].state)
    ensures exists n :: 0 <= n < |tr[i].log| && tr[i].log[n].key == tr[i].rows[id].key &&
                        forall m :: 0 <= m < |tr[i].log| && m != n ==> tr[i].log[m].key != tr[i].rows[id].key
  {
    InvariantHolds(limit, tr, ls, i);
    LoggedOnce(tr[i].log, tr[i].rows[id].key);
  }

  lemma LoggedOnce(log: seq<Submission>, key: Key)
    requires NoKeyTwice(log) && key in Keys(log)
    ensures exists n :: 0 <= n < |log| && log[n].key == key &&
                        forall m :: 0 <= m < |log| && m != n ==> log[m].key != key
  {
    var n :| 0 <= n < |log| && log[n].key == key;
    assert forall m :: 0 <= m < |log| && m != n ==> log[m].key != key;
  }

  // --------------------------------------------------- does a cancel end a turn?

  /** How far a turn has come; no edge leads back. */
  function Rank(s: State): nat {
    match s
    case Preparing => 0
    case ComposerReady => 1
    case Writing => 2
    case Verified => 3
    case Activating => 4
    case Accepted => 5
    case Responding => 6
    case _ => 7
  }

  lemma MovesAreForward(r: Row, r': Row)
    requires RowMoves(r, r')
    ensures Rank(r.state) <= Rank(r'.state)
    ensures r'.state != r.state ==> Rank(r.state) < Rank(r'.state)
  {
  }

  lemma {:induction false} RankGrows(limit: nat, tr: seq<Sys>, ls: seq<Label>, i: nat, j: nat, id: TurnId)
    requires Behavior(limit, tr, ls) && i <= j < |tr| && id in tr[i].rows
    ensures id in tr[j].rows && Rank(tr[i].rows[id].state) <= Rank(tr[j].rows[id].state)
  {
    hide RowMoves, Rank;
    if i < j {
      RankGrows(limit, tr, ls, i, j - 1, id);
      OnlyDeclaredEdges(limit, tr, ls, j - 1, id);
      MovesAreForward(tr[j - 1].rows[id], tr[j].rows[id]);
    }
  }

  /** No compare-and-swap on the turn won in steps i to j - 1. */
  ghost predicate NoSwapWon(tr: seq<Sys>, i: nat, j: nat, id: TurnId) {
    forall k :: i <= k < j && k + 1 < |tr| && id in tr[k].rows && id in tr[k + 1].rows ==>
      tr[k + 1].rows[id].state == tr[k].rows[id].state
  }

  lemma {:induction false} SameStateIff(limit: nat, tr: seq<Sys>, ls: seq<Label>, i: nat, j: nat, id: TurnId)
    requires Behavior(limit, tr, ls) && i <= j < |tr| && id in tr[i].rows
    ensures id in tr[j].rows
    ensures tr[j].rows[id].state == tr[i].rows[id].state <==> NoSwapWon(tr, i, j, id)
  {
    hide RowMoves, Rank, Enabled, Do;
    RankGrows(limit, tr, ls, i, j, id);
    if i < j {
      SameStateIff(limit, tr, ls, i, j - 1, id);
      RankGrows(limit, tr, ls, i, j - 1, id);
      OnlyDeclaredEdges(limit, tr, ls, j - 1, id);
      MovesAreForward(tr[j - 1].rows[id], tr[j].rows[id]);
      assert tr[j - 1 + 1] == tr[j];
    }
  }

  /** A canceller stands still until its next step. */
  lemma {:induction false} CancelWaits(limit: nat, tr: seq<Sys>, ls: seq<Label>, i: nat, j: nat, x: nat)
    requires Behavior(limit, tr, ls) && i <= j < |tr| && x in tr[i].cancels
    requires forall k :: i <= k < j ==> ls[k] != CancelGo(x)
    ensures x in tr[j].cancels && tr[j].cancels[x] == tr[i].cancels[x]
  {
    if i < j {
      CancelWaits(limit, tr, ls, i, j - 1, x);
      CancelWaitsOneStep(tr[j - 1], ls[j - 1], x);
      assert tr[j - 1 + 1] == Do(tr[j - 1], ls[j - 1]);
    }
  }

  lemma CancelWaitsOneStep(s: Sys, l: Label, x: nat)
    requires Enabled(s, l) && x in s.cancels && l != CancelGo(x)
    ensures x in Do(s, l).cancels && Do(s, l).cancels[x] == s.cancels[x]
  {
    hide Advance;
  }

  lemma SwapEndsIff(s: Sys, x: nat, id: TurnId, seen: State)
    requires x in s.cancels && s.cancels[x] == CancelCas(id, seen) && id in s.rows
    ensures Do(s, CancelGo(x)).cancels == s.cancels[x := CancelRevoke(id)] && id in Do(s, CancelGo(x)).rows
    ensures Terminal(Do(s, CancelGo(x)).rows[id].state) <==> s.rows[id].state == seen || Terminal(s.rows[id].state)
  {
  }

  /** cancel_turn read its turn in step i and swaps in step j of some run. It
      leaves the turn over if and only if nobody's swap on that turn won in
      between, or the turn was over by then on its own account. */
  lemma CancelEndsTheTurnIff(limit: nat, tr: seq<Sys>, ls: seq<Label>, x: nat, id: TurnId, i: nat, j: nat)
    requires Behavior(limit, tr, ls) && i < j < |ls| && ls[i] == ls[j] == CancelGo(x)
    requires forall k :: i < k < j ==> ls[k] != CancelGo(x)
    requires x in tr[i].cancels && tr[i].cancels[x] == CancelGet(id) && id in tr[i].rows && !Terminal(tr[i].rows[id].state)
    ensures id in tr[j].rows && id in tr[j + 1].rows
    ensures x in tr[j + 1].cancels && tr[j + 1].cancels[x] == CancelRevoke(id)
    ensures Terminal(tr[j + 1].rows[id].state) <==> NoSwapWon(tr, i, j, id) || Terminal(tr[j].rows[id].state)
  {
    hide NoSwapWon;
    assert tr[i + 1] == Do(tr[i], ls[i]) && tr[j + 1] == Do(tr[j], ls[j]);
    assert tr[i + 1].cancels[x] == CancelCas(id, tr[i].rows[id].state);
    CancelWaits(limit, tr, ls, i + 1, j, x);
    SameStateIff(limit, tr, ls, i, j, id);
    SwapEndsIff(tr[j], x, id, tr[i].rows[id].state);
  }
}
