/** The cycle check, and the stage each ended turn names, over whole runs
    (terminal_mcp/bridge.py). */
module BridgeStages {
  import opened Options
  import opened BridgeStore
  import opened BridgeProtocol
  import opened BridgeRuns

  // -------------------------------------------------------------- cycle check

  /** An open turn of the same trace and identity. */
  ghost predicate OpenTurnOf(t: Table, trace: Trace, who: Identity, id: TurnId) {
    id in t && t[id].trace == Some(trace) && t[id].who == who &&
    t[id].state in {Preparing, ComposerReady, Writing, Verified, Activating, Accepted, Responding}
  }

  /** Whether a call goes past the cycle check: exactly when it has no trace, or no
      turn of its trace and identity is open at that moment. Otherwise it ends
      there, and the table stays as it is. */
  lemma CycleIsRefusedIff(limit: nat, tr: seq<Sys>, ls: seq<Label>, i: nat)
    requires Behavior(limit, tr, ls) && i < |ls| && ls[i].CallerGo?
    requires ls[i].c in tr[i].callers && tr[i].callers[ls[i].c].pc == CycleCheck
    ensures var k := tr[i].callers[ls[i].c];
            && tr[i + 1].rows == tr[i].rows && ls[i].c in tr[i + 1].callers
            && tr[i + 1].callers[ls[i].c].pc in {Refused, Gate}
            && (tr[i + 1].callers[ls[i].c].pc == Refused <==>
                  k.trace.Some? && exists id :: OpenTurnOf(tr[i].rows, k.trace.value, k.who, id))
  {
    var t, k := tr[i].rows, tr[i].callers[ls[i].c];
    assert tr[i + 1] == Do(tr[i], ls[i]);
    if k.trace.Some? {
      if CycleOn(t, k.trace.value, k.who) {
        var id :| id in t && t[id].trace == Some(k.trace.value) && !Terminal(t[id].state) && t[id].who == k.who;
        assert OpenTurnOf(t, k.trace.value, k.who, id);
      }
      if id :| OpenTurnOf(t, k.trace.value, k.who, id) {
        assert !Terminal(t[id].state);
      }
    }
  }

  // ------------------------------------------------------------------- stages

  /** What a row says of its end: a failure or an unknown outcome names the stage,
      by whether the turn had been accepted; a cancelled turn names one only when
      it expired; any other row names none. */
  predicate StageOk(r: Row) {
    match r.state
    case Failed => r.errorStage == Some(if r.accepted then ResponseFailed else TransportError)
    case Unknown => r.errorStage == Some(if r.accepted then ResponseTimeout else ActivationUnconfirmed)
    case Cancelled => r.errorStage == None || r.errorStage == Some(CapabilityExpired)
    case Accepted => r.accepted && r.errorStage == None
    case Responding => r.accepted && r.errorStage == None
    case Completed => r.accepted && r.errorStage == None
    case _ => !r.accepted && r.errorStage == None
  }

  ghost predicate StagesOk(t: Table) { forall id :: id in t ==> StageOk(t[id]) }

  lemma PipelineCasKeepsStage(t: Table, id: TurnId, p: Point)
    requires StagesOk(t) && CasAt(p).Some?
    ensures StagesOk(CasRow(t, id, CasAt(p).value.0, CasAt(p).value.1))
  {
  }

  lemma FinishKeepsStage(t: Table, id: TurnId, verdict: State, expected: State, stage: Stage)
    requires StagesOk(t) && StageFits(verdict, expected, stage)
    ensures StagesOk(CasRow(t, id, expected, Patch(verdict, None, false, Some(stage))))
  {
  }

  lemma OthersKeepStage(t: Table, id: TurnId, seen: State)
    requires StagesOk(t) && !Terminal(seen)
    ensures StagesOk(CasRow(t, id, seen, To(Cancelled)))
    ensures StagesOk(CasRow(t, id, seen, Patch(Cancelled, None, false, Some(CapabilityExpired))))
    ensures StagesOk(RevokeRow(t, id))
  {
  }

  lemma RevokeKeepsStage(t: Table, id: TurnId)
    requires StagesOk(t)
    ensures StagesOk(RevokeRow(t, id))
  {
  }

  lemma InsertKeepsStage(t: Table, id: TurnId, key: Key, who: Identity, trace: Option<Trace>, ex: int)
    requires StagesOk(t)
    ensures StagesOk(InsertRow(t, id, NewRow(key, who, trace, ex)))
  {
  }

  lemma AdvanceKeepsStage(limit: nat, t: Table, keys: set<Key>, k: Caller, ch: Choice, uuid: TurnId, ex: int)
    requires StagesOk(t) && CallerOk(t, keys, k)
    ensures StagesOk(Advance(limit, t, k, ch, uuid, ex).rows)
  {
    hide StagesOk, CasRow, RevokeRow, InsertRow, HasKey, NonTerminal, CycleOn;
    if ch == Raise && InTry(k.pc) {
    } else if k.pc.Window? {
      InsertKeepsStage(t, uuid, k.key, k.who, k.trace, ex);
    } else if k.pc.Run? {
      if CasAt(k.pc.at).Some? {
        PipelineCasKeepsStage(t, k.pc.id, k.pc.at);
      }
    } else if k.pc.Finish? {
      FinishKeepsStage(t, k.pc.id, k.pc.verdict, k.pc.expected, k.pc.stage);
    } else if k.pc.Unwind? {
      RevokeKeepsStage(t, k.pc.id);
    }
  }

  lemma StepKeepsStages(s: Sys, l: Label)
    requires Inv(s) && Enabled(s, l) && StagesOk(s.rows)
    ensures StagesOk(Do(s, l).rows)
  {
    assert l.SweepGo? ==> SweepOk(s.sweeps[l.x]);
    hide StagesOk, Advance, CasRow, RevokeRow, CallerOk, RowsOk, DistinctOwners, NoKeyTwice, Expired;
    match l
    case Arrive(_, _, _, _) =>
    case CallerGo(c, ch, uuid, ex) => AdvanceKeepsStage(s.limit, s.rows, Keys(s.log), s.callers[c], ch, uuid, ex);
    case CancelCall(_, _) =>
    case CancelGo(x) =>
      match s.cancels[x] {
        case CancelCas(id, seen) => OthersKeepStage(s.rows, id, seen);
        case CancelRevoke(id) => RevokeKeepsStage(s.rows, id);
        case _ =>
      }
    case SweepCall(_, _, _) =>
    case SweepGo(x) =>
      match s.sweeps[x] {
        case Sweeping(todo) =>
          if todo != [] {
            OthersKeepStage(s.rows, todo[0].0, todo[0].1);
          }
        case SweepRevoke(id, _) => RevokeKeepsStage(s.rows, id);
      }
  }

  /** In every reachable state each row names the stage that goes with its end. */
  lemma {:induction false} EveryEndNamesItsStage(limit: nat, tr: seq<Sys>, ls: seq<Label>, i: nat)
    requires Behavior(limit, tr, ls) && i < |tr|
    ensures StagesOk(tr[i].rows)
  {
    hide StageOk, Enabled, Do, Inv;
    if i > 0 {
      EveryEndNamesItsStage(limit, tr, ls, i - 1);
      InvariantHolds(limit, tr, ls, i - 1);
      StepKeepsStages(tr[i - 1], ls[i - 1]);
      assert tr[i - 1 + 1] == Do(tr[i - 1], ls[i - 1]);
    }
  }
}
