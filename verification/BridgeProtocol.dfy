/** The bridge turn protocol under every interleaving (terminal_mcp/bridge.py).

    Any number of callers of ask_chatgpt, cancellers and expiry sweepers share
    one table. Every SQL statement and every transport call is one step; a
    process may stop for ever after any step, so crashes are included. */
module BridgeProtocol {
  import opened Options
  import opened BridgeStore

  // ---------------------------------------------------------------- processes

  /** The program points of the pipeline, in the order of _run_pipeline. */
  datatype Point =
    | AtPrepare | AtComposer | AtWriting | AtSubmit | AtVerified | AtActivating | AtProve
    | AtAccepted | AtResponding | AtObserve | AtCollect | AtCompleted | AtReadBack

  datatype Pc =
    | Lookup
    | CycleCheck
    | Gate
    | Window                                      // past the gate, INSERT not yet issued
    | ClaimRead(newId: TurnId, inserted: bool)    // INSERT done, read by key pending
    | Vanished                                    // the read found nothing
    | Refused                                     // an error or a replayed receipt was returned
    | Run(id: TurnId, at: Point)
    | Finish(id: TurnId, verdict: State, expected: State, stage: Stage)
    | FinishRead(id: TurnId)
    | Unwind(id: TurnId, normal: bool)            // the finally block
    | Returned(id: TurnId)
    | Raised(id: TurnId)

  datatype Caller = Caller(key: Key, who: Identity, trace: Option<Trace>, pc: Pc)

  datatype CancelPc =
    | CancelGet(id: TurnId) | CancelCas(id: TurnId, seen: State) | CancelRevoke(id: TurnId) | CancelDone

  datatype SweepPc =
    | Sweeping(todo: seq<(TurnId, State)>) | SweepRevoke(id: TurnId, rest: seq<(TurnId, State)>)

  datatype Submission = Submission(caller: nat, key: Key)

  datatype Sys = Sys(
    limit: nat,
    rows: Table,
    callers: map<nat, Caller>,
    cancels: map<nat, CancelPc>,
    sweeps: map<nat, SweepPc>,
    log: seq<Submission>)       // every call of transport.submit, in order

  /** How a transport call ends, that a call or statement of the pipeline raises
      instead, or what a caller decides when ask_chatgpt leaves it to the clock. */
  datatype Choice = Succeed | Fail | Timeout | Wait | Raise

  datatype Label =
    | Arrive(c: nat, key: Key, who: Identity, trace: Option<Trace>)
    | CallerGo(c: nat, choice: Choice, uuid: TurnId, expiresAt: int)
    | CancelCall(x: nat, id: TurnId)
    | CancelGo(x: nat)
    | SweepCall(x: nat, now: int, todo: seq<(TurnId, State)>)
    | SweepGo(x: nat)

  function Init(limit: nat): Sys {
    Sys(limit, map[], map[], map[], map[], [])
  }

  // -------------------------------------------------------------------- steps

  /** The compare-and-swap issued at a program point, and the next point. */
  function CasAt(p: Point): Option<(State, Patch, Point)> {
    match p
    case AtComposer => Some((Preparing, To(ComposerReady), AtWriting))
    case AtWriting => Some((ComposerReady, To(Writing), AtSubmit))
    case AtVerified => Some((Writing, To(Verified), AtActivating))
    case AtActivating => Some((Verified, Patch(Activating, Some(1), false, None), AtProve))
    case AtAccepted => Some((Activating, Patch(Accepted, None, true, None), AtResponding))
    case AtResponding => Some((Accepted, To(Responding), AtObserve))
    case AtCompleted => Some((Responding, To(Completed), AtReadBack))
    case _ => None
  }

  /** Where a transport call leads. */
  function CallAt(id: TurnId, p: Point, ch: Choice): Pc {
    match p
    case AtPrepare => if ch == Fail then Finish(id, Failed, Preparing, TransportError) else Run(id, AtComposer)
    case AtSubmit => if ch == Fail then Finish(id, Failed, Writing, TransportError) else Run(id, AtVerified)
    case AtProve => if ch == Fail then Finish(id, Unknown, Activating, ActivationUnconfirmed) else Run(id, AtAccepted)
    case AtObserve =>
      if ch == Fail then Finish(id, Failed, Responding, ResponseFailed)
      else if ch == Timeout then Finish(id, Unknown, Responding, ResponseTimeout)
      else if ch == Wait then Run(id, AtObserve)
      else Run(id, AtCollect)
    case AtCollect => Run(id, AtCompleted)
    case _ => Unwind(id, true)
  }

  ghost function IdOf(t: Table, key: Key): TurnId
    requires HasKey(t, key)
  {
    var id :| id in t && t[id].key == key;
    id
  }

  datatype Outcome = Outcome(rows: Table, pc: Pc)

  /** Inside the try of _run_pipeline: an unexpected exception of the transport or
      of the database goes to finally. */
  predicate InTry(pc: Pc) { pc.Run? || pc.Finish? || pc.FinishRead? }

  ghost function Advance(limit: nat, t: Table, k: Caller, ch: Choice, uuid: TurnId, expiresAt: int): Outcome {
    if ch == Raise && InTry(k.pc) then Outcome(t, Unwind(k.pc.id, false)) else
    match k.pc
    case Lookup => Outcome(t, if HasKey(t, k.key) then Refused else CycleCheck)
    case CycleCheck =>
      Outcome(t, if k.trace.Some? && CycleOn(t, k.trace.value, k.who) then Refused else Gate)
    case Gate =>
      Outcome(t, if |NonTerminal(t)| < limit then Window else if ch == Timeout then Refused else Gate)
    case Window =>
      if ch == Fail then Outcome(t, Refused)        // mode, model or effort not available
      else Outcome(InsertRow(t, uuid, NewRow(k.key, k.who, k.trace, expiresAt)),
                   ClaimRead(uuid, !HasKey(t, k.key)))
    case ClaimRead(_, inserted) =>
      Outcome(t, if !HasKey(t, k.key) then Vanished
                 else if inserted then Run(IdOf(t, k.key), AtPrepare) else Refused)
    case Run(id, p) =>
      (match CasAt(p)
       case Some((expected, patch, next)) => Outcome(CasRow(t, id, expected, patch), Run(id, next))
       case None => Outcome(t, CallAt(id, p, ch)))
    case Finish(id, verdict, expected, stage) =>
      Outcome(CasRow(t, id, expected, Patch(verdict, None, false, Some(stage))), FinishRead(id))
    case FinishRead(id) => Outcome(t, Unwind(id, true))
    case Unwind(id, normal) => Outcome(RevokeRow(t, id), if normal then Returned(id) else Raised(id))
    case _ => Outcome(t, k.pc)
  }

  predicate Submits(pc: Pc) { pc.Run? && pc.at == AtSubmit }

  ghost predicate Enabled(s: Sys, l: Label) {
    match l
    case Arrive(c, _, _, _) => c !in s.callers
    case CallerGo(c, _, uuid, _) => c in s.callers && uuid !in s.rows
    case CancelCall(x, _) => x !in s.cancels
    case CancelGo(x) => x in s.cancels
    case SweepCall(x, now, todo) =>
      x !in s.sweeps && forall e :: e in todo ==> e.0 in Expired(s.rows, now) && s.rows[e.0].state == e.1
    case SweepGo(x) => x in s.sweeps
  }

  ghost function Do(s: Sys, l: Label): Sys
    requires Enabled(s, l)
  {
    match l
    case Arrive(c, key, who, trace) => s.(callers := s.callers[c := Caller(key, who, trace, Lookup)])
    case CallerGo(c, ch, uuid, expiresAt) =>
      var k := s.callers[c];
      var o := Advance(s.limit, s.rows, k, ch, uuid, expiresAt);
      s.(rows := o.rows, callers := s.callers[c := k.(pc := o.pc)],
         log := if Submits(k.pc) then s.log + [Submission(c, k.key)] else s.log)
    case CancelCall(x, id) => s.(cancels := s.cancels[x := CancelGet(id)])
    case CancelGo(x) =>
      (match s.cancels[x]
       case CancelGet(id) =>
         s.(cancels := s.cancels[x := if id !in s.rows || Terminal(s.rows[id].state) then CancelDone
                                      else CancelCas(id, s.rows[id].state)])
       case CancelCas(id, seen) =>
         s.(rows := CasRow(s.rows, id, seen, To(Cancelled)), cancels := s.cancels[x := CancelRevoke(id)])
       case CancelRevoke(id) =>
         s.(rows := RevokeRow(s.rows, id), cancels := s.cancels[x := CancelDone])
       case CancelDone => s)
    case SweepCall(x, _, todo) => s.(sweeps := s.sweeps[x := Sweeping(todo)])
    case SweepGo(x) =>
      (match s.sweeps[x]
       case Sweeping(todo) =>
         if todo == [] then s else
         var (id, seen) := todo[0];
         s.(rows := CasRow(s.rows, id, seen, Patch(Cancelled, None, false, Some(CapabilityExpired))),
            sweeps := s.sweeps[x := if CasWins(s.rows, id, seen) then SweepRevoke(id, todo[1..])
                                    else Sweeping(todo[1..])])
       case SweepRevoke(id, rest) =>
         s.(rows := RevokeRow(s.rows, id), sweeps := s.sweeps[x := Sweeping(rest)]))
  }

  /** A run: states linked by enabled labels, from the empty table. */
  ghost predicate Behavior(limit: nat, tr: seq<Sys>, ls: seq<Label>) {
    && |tr| == |ls| + 1
    && tr[0] == Init(limit)
    && forall i :: 0 <= i < |ls| ==> Enabled(tr[i], ls[i]) && tr[i + 1] == Do(tr[i], ls[i])
  }

  // ---------------------------------------------------------------- invariant

  /** The state the pipeline believes its row to be in. */
  function Expect(p: Point): State {
    match p
    case AtPrepare => Preparing
    case AtComposer => Preparing
    case AtWriting => ComposerReady
    case AtSubmit => Writing
    case AtVerified => Writing
    case AtActivating => Verified
    case AtProve => Activating
    case AtAccepted => Activating
    case AtResponding => Accepted
    case AtObserve => Responding
    case AtCollect => Responding
    case AtCompleted => Responding
    case AtReadBack => Completed
  }

  predicate BeforeSubmit(p: Point) {
    p == AtPrepare || p == AtComposer || p == AtWriting || p == AtSubmit
  }

  function Owned(pc: Pc): Option<TurnId> {
    match pc
    case ClaimRead(id, inserted) => if inserted then Some(id) else None
    case Run(id, _) => Some(id)
    case Finish(id, _, _, _) => Some(id)
    case FinishRead(id) => Some(id)
    case Unwind(id, _) => Some(id)
    case Returned(id) => Some(id)
    case Raised(id) => Some(id)
    case _ => None
  }

  /** The verdicts the pipeline can ask for, with the state it asks from. */
  predicate FinishShape(verdict: State, expected: State) {
    || (verdict == Failed && (expected == Preparing || expected == Writing || expected == Responding))
    || (verdict == Unknown && (expected == Activating || expected == Responding))
  }

  /** The stage that goes with each verdict. */
  predicate StageFits(verdict: State, expected: State, stage: Stage) {
    match stage
    case TransportError => verdict == Failed && (expected == Preparing || expected == Writing)
    case ResponseFailed => verdict == Failed && expected == Responding
    case ActivationUnconfirmed => verdict == Unknown && expected == Activating
    case ResponseTimeout => verdict == Unknown && expected == Responding
    case CapabilityExpired => false
  }

  predicate MayStillSubmit(pc: Pc) {
    (pc.ClaimRead? && pc.inserted) || (pc.Run? && BeforeSubmit(pc.at))
  }

  predicate HasSubmitted(pc: Pc) {
    (pc.Run? && !BeforeSubmit(pc.at)) || (pc.Finish? && pc.verdict == Unknown)
  }

  /** What a caller's program point says about its own row. */
  predicate RowFits(pc: Pc, r: Row) {
    match pc
    case ClaimRead(_, _) => r.state == Preparing || Terminal(r.state)
    case Run(_, p) => r.state == Expect(p) || Terminal(r.state)
    case Finish(_, v, e, stage) => FinishShape(v, e) && StageFits(v, e, stage) && (r.state == e || Terminal(r.state))
    case FinishRead(_) => Terminal(r.state)
    case Unwind(_, normal) => normal ==> Terminal(r.state)
    case Returned(_) => Terminal(r.state) && r.revoked
    case Raised(_) => r.revoked
    case _ => true
  }

  ghost predicate CallerOk(t: Table, keys: set<Key>, k: Caller) {
    && k.pc != Vanished
    && (k.pc.ClaimRead? ==> HasKey(t, k.key))
    && (Owned(k.pc).Some? ==>
          var id := Owned(k.pc).value;
          id in t && t[id].key == k.key && RowFits(k.pc, t[id]))
    && (MayStillSubmit(k.pc) ==> k.key !in keys)
    && (HasSubmitted(k.pc) ==> k.key in keys)
  }

  /** States no row reaches before its prompt was submitted. */
  predicate Evidence(s: State) {
    s == Verified || s == Activating || s == Accepted || s == Responding || s == Completed || s == Unknown
  }

  ghost predicate RowsOk(t: Table, keys: set<Key>) {
    && UniqueKeys(t)
    && (forall id :: id in t && Evidence(t[id].state) ==> t[id].key in keys)
    && (forall key :: key in keys ==> HasKey(t, key))
  }

  function Keys(log: seq<Submission>): set<Key> { set i | 0 <= i < |log| :: log[i].key }

  ghost predicate NoKeyTwice(log: seq<Submission>) {
    forall i, j :: 0 <= i < j < |log| ==> log[i].key != log[j].key
  }

  ghost predicate DistinctOwners(callers: map<nat, Caller>) {
    forall c, d :: c in callers && d in callers && c != d && Owned(callers[c].pc).Some? ==>
      Owned(callers[c].pc) != Owned(callers[d].pc)
  }

  predicate CancelOk(p: CancelPc) { p.CancelCas? ==> !Terminal(p.seen) }

  predicate TodoOk(todo: seq<(TurnId, State)>) {
    forall i :: 0 <= i < |todo| ==> !Terminal(todo[i].1)
  }

  predicate SweepOk(p: SweepPc) {
    match p
    case Sweeping(todo) => TodoOk(todo)
    case SweepRevoke(_, rest) => TodoOk(rest)
  }

  ghost predicate Inv(s: Sys) {
    && RowsOk(s.rows, Keys(s.log))
    && (forall c :: c in s.callers ==> CallerOk(s.rows, Keys(s.log), s.callers[c]))
    && DistinctOwners(s.callers)
    && NoKeyTwice(s.log)
    && (forall x :: x in s.cancels ==> CancelOk(s.cancels[x]))
    && (forall x :: x in s.sweeps ==> SweepOk(s.sweeps[x]))
  }

  // --------------------------------------------------- one row changes at most

  /** The declared state edges: the chain, the failure verdicts of the pipeline,
      and cancellation of any turn that is not over. */
  predicate Edge(a: State, b: State) {
    || (a == Preparing && b == ComposerReady) || (a == ComposerReady && b == Writing)
    || (a == Writing && b == Verified) || (a == Verified && b == Activating)
    || (a == Activating && b == Accepted) || (a == Accepted && b == Responding)
    || (a == Responding && b == Completed)
    || FinishShape(b, a)
    || (!Terminal(a) && b == Cancelled)
  }

  predicate RowMoves(r: Row, r': Row) {
    && r'.key == r.key && r'.who == r.who && r'.trace == r.trace && r'.expiresAt == r.expiresAt
    && (r'.state == r.state || Edge(r.state, r'.state))
    && (r.revoked ==> r'.revoked) && (r.accepted ==> r'.accepted)
  }

  /** Everything but row `id` stays, and row `id` moves along an edge. */
  ghost predicate TouchesOnly(t: Table, t': Table, id: TurnId) {
    && t.Keys == t'.Keys
    && (forall j :: j in t && j != id ==> t'[j] == t[j])
    && (id in t ==> RowMoves(t[id], t'[id]))
  }

  lemma TouchKeepsKeys(t: Table, t': Table, id: TurnId)
    requires TouchesOnly(t, t', id)
    ensures forall key :: HasKey(t', key) <==> HasKey(t, key)
    ensures UniqueKeys(t) ==> UniqueKeys(t')
  {
    forall key
      ensures HasKey(t', key) <==> HasKey(t, key)
    {
      if HasKey(t, key) {
        var j :| j in t && t[j].key == key;
        assert t'[j].key == key;
      }
      if HasKey(t', key) {
        var j :| j in t' && t'[j].key == key;
        assert t[j].key == key;
      }
    }
  }

  /** A caller is not disturbed by a step on a row it does not own, whether or
      not that step is a submission of another key. */
  lemma OtherCallerKept(t: Table, t': Table, id: TurnId, keys: set<Key>, keys': set<Key>, k: Caller)
    requires TouchesOnly(t, t', id) && CallerOk(t, keys, k)
    requires Owned(k.pc) != Some(id)
    requires keys <= keys' && (MayStillSubmit(k.pc) ==> k.key !in keys')
    ensures CallerOk(t', keys', k)
  {
    TouchKeepsKeys(t, t', id);
  }

  /** A caller survives the cancellation or revocation of its own row. */
  lemma CallerSurvivesStrike(t: Table, t': Table, id: TurnId, keys: set<Key>, k: Caller)
    requires TouchesOnly(t, t', id) && CallerOk(t, keys, k)
    requires id in t ==> t'[id].state == t[id].state || t'[id].state == Cancelled
    ensures CallerOk(t', keys, k)
  {
    TouchKeepsKeys(t, t', id);
  }

  /** An outside step (cancel or sweep) keeps the invariant. */
  lemma StrikeKeepsInv(s: Sys, s': Sys, id: TurnId)
    requires Inv(s) && TouchesOnly(s.rows, s'.rows, id)
    requires id in s.rows ==> s'.rows[id].state == s.rows[id].state || s'.rows[id].state == Cancelled
    requires s'.callers == s.callers && s'.log == s.log
    requires forall x :: x in s'.cancels ==> CancelOk(s'.cancels[x])
    requires forall x :: x in s'.sweeps ==> SweepOk(s'.sweeps[x])
    ensures Inv(s')
    ensures forall j :: j in s.rows ==> j in s'.rows && RowMoves(s.rows[j], s'.rows[j])
  {
    TouchKeepsKeys(s.rows, s'.rows, id);
    forall c | c in s'.callers
      ensures CallerOk(s'.rows, Keys(s'.log), s'.callers[c])
    {
      CallerSurvivesStrike(s.rows, s'.rows, id, Keys(s.log), s.callers[c]);
    }
  }

  lemma CasTouches(t: Table, id: TurnId, expected: State, p: Patch)
    requires p.state == expected || Edge(expected, p.state)
    ensures TouchesOnly(t, CasRow(t, id, expected, p), id)
    ensures id in t ==> CasRow(t, id, expected, p)[id].state in {t[id].state, p.state}
  {
  }

  lemma RevokeTouches(t: Table, id: TurnId)
    ensures TouchesOnly(t, RevokeRow(t, id), id)
    ensures id in t ==> RevokeRow(t, id)[id].state == t[id].state && RevokeRow(t, id)[id].revoked
  {
  }

  lemma TouchMoves(t: Table, t': Table, id: TurnId)
    requires TouchesOnly(t, t', id)
    ensures forall j :: j in t ==> j in t' && RowMoves(t[j], t'[j])
  {
  }

  lemma Untouched(t: Table, id: TurnId)
    ensures TouchesOnly(t, t, id)
  {
  }

  lemma CancelStepKeepsInv(s: Sys, x: nat)
    requires Inv(s) && Enabled(s, CancelGo(x))
    ensures Inv(Do(s, CancelGo(x)))
    ensures forall id :: id in s.rows ==> id in Do(s, CancelGo(x)).rows && RowMoves(s.rows[id], Do(s, CancelGo(x)).rows[id])
  {
    hide RowsOk, CallerOk, DistinctOwners, NoKeyTwice, TouchesOnly, RowMoves, CasRow, RevokeRow;
    var s' := Do(s, CancelGo(x));
    assert CancelOk(s.cancels[x]);
    match s.cancels[x]
    case CancelGet(id) => Untouched(s.rows, id); StrikeKeepsInv(s, s', id);
    case CancelCas(id, seen) =>
      CasTouches(s.rows, id, seen, To(Cancelled));
      StrikeKeepsInv(s, s', id);
    case CancelRevoke(id) => RevokeTouches(s.rows, id); StrikeKeepsInv(s, s', id);
    case CancelDone => Untouched(s.rows, 0); TouchMoves(s.rows, s.rows, 0);
  }

  lemma SweepStepKeepsInv(s: Sys, x: nat)
    requires Inv(s) && Enabled(s, SweepGo(x))
    ensures Inv(Do(s, SweepGo(x)))
    ensures forall id :: id in s.rows ==> id in Do(s, SweepGo(x)).rows && RowMoves(s.rows[id], Do(s, SweepGo(x)).rows[id])
  {
    hide RowsOk, CallerOk, DistinctOwners, NoKeyTwice, TouchesOnly, RowMoves, CasRow, RevokeRow;
    var s' := Do(s, SweepGo(x));
    assert SweepOk(s.sweeps[x]);
    match s.sweeps[x]
    case Sweeping(todo) =>
      if todo != [] {
        var (id, seen) := todo[0];
        assert !Terminal(seen);
        CasTouches(s.rows, id, seen, Patch(Cancelled, None, false, Some(CapabilityExpired)));
        assert SweepOk(s'.sweeps[x]);
        StrikeKeepsInv(s, s', id);
      } else {
        Untouched(s.rows, 0);
        TouchMoves(s.rows, s.rows, 0);
      }
    case SweepRevoke(id, rest) => RevokeTouches(s.rows, id); StrikeKeepsInv(s, s', id);
  }

  // -------------------------------------------------------------- caller steps

  /** What a caller's step on its own row has to establish. */
  ghost predicate OwnStepOk(t: Table, keys: set<Key>, k: Caller, o: Outcome) {
    var keys' := if Submits(k.pc) then keys + {k.key} else keys;
    && Owned(k.pc).Some?
    && TouchesOnly(t, o.rows, Owned(k.pc).value)
    && Owned(o.pc) == Owned(k.pc)
    && CallerOk(o.rows, keys', k.(pc := o.pc))
    && RowsOk(o.rows, keys')
  }

  lemma OwnCas(t: Table, keys: set<Key>, k: Caller, expected: State, p: Patch, next: Pc)
    requires CallerOk(t, keys, k) && RowsOk(t, keys) && Owned(k.pc).Some? && !Submits(k.pc)
    requires Owned(next) == Owned(k.pc) && !next.ClaimRead?
    requires p.state == expected || Edge(expected, p.state)
    requires var r := t[Owned(k.pc).value]; RowFits(next, if r.state == expected then Patched(r, p) else r)
    requires Evidence(p.state) ==> k.key in keys
    requires (MayStillSubmit(next) ==> MayStillSubmit(k.pc)) && (HasSubmitted(next) ==> HasSubmitted(k.pc))
    ensures OwnStepOk(t, keys, k, Outcome(CasRow(t, Owned(k.pc).value, expected, p), next))
  {
    var id := Owned(k.pc).value;
    CasTouches(t, id, expected, p);
    TouchKeepsKeys(t, CasRow(t, id, expected, p), id);
  }

  /** A step that leaves the table alone. */
  lemma OwnCall(t: Table, keys: set<Key>, k: Caller, next: Pc)
    requires CallerOk(t, keys, k) && RowsOk(t, keys) && Owned(k.pc).Some?
    requires Owned(next) == Owned(k.pc) && !next.ClaimRead?
    requires RowFits(next, t[Owned(k.pc).value])
    requires MayStillSubmit(next) ==> MayStillSubmit(k.pc) && !Submits(k.pc)
    requires HasSubmitted(next) ==> HasSubmitted(k.pc) || Submits(k.pc)
    ensures OwnStepOk(t, keys, k, Outcome(t, next))
  {
  }

  /** A step on one row that adds no evidence of submission keeps the table's
      own invariant. */
  lemma TouchKeepsRows(t: Table, t': Table, id: TurnId, keys: set<Key>)
    requires TouchesOnly(t, t', id) && RowsOk(t, keys) && id in t && t'[id].state == t[id].state
    ensures RowsOk(t', keys)
  {
    TouchKeepsKeys(t, t', id);
  }

  lemma OwnRevoke(t: Table, keys: set<Key>, k: Caller)
    requires CallerOk(t, keys, k) && RowsOk(t, keys) && k.pc.Unwind?
    ensures OwnStepOk(t, keys, k, Outcome(RevokeRow(t, k.pc.id), if k.pc.normal then Returned(k.pc.id) else Raised(k.pc.id)))
  {
    hide RevokeRow, TouchesOnly, RowsOk;
    RevokeTouches(t, k.pc.id);
    TouchMoves(t, RevokeRow(t, k.pc.id), k.pc.id);
    TouchKeepsRows(t, RevokeRow(t, k.pc.id), k.pc.id, keys);
  }

  /** Each compare-and-swap of the pipeline starts where the pipeline believes
      the row to be and ends where the next point expects it. */
  lemma CasShape(p: Point)
    requires CasAt(p).Some?
    ensures var (expected, patch, next) := CasAt(p).value;
            && expected == Expect(p) && patch.state == Expect(next) && Edge(expected, patch.state)
            && p != AtSubmit && (BeforeSubmit(next) <==> BeforeSubmit(p))
            && (Evidence(patch.state) ==> !BeforeSubmit(p))
  {
  }

  lemma CallShape(id: TurnId, p: Point, ch: Choice, r: Row)
    requires CasAt(p).None? && (r.state == Expect(p) || Terminal(r.state))
    ensures var next := CallAt(id, p, ch);
            && Owned(next) == Some(id) && !next.ClaimRead? && RowFits(next, r)
            && (MayStillSubmit(next) ==> BeforeSubmit(p) && p != AtSubmit)
            && (HasSubmitted(next) ==> !BeforeSubmit(p) || p == AtSubmit)
  {
  }

  lemma RowIsThere(t: Table, keys: set<Key>, k: Caller)
    requires CallerOk(t, keys, k) && Owned(k.pc).Some?
    ensures Owned(k.pc).value in t && RowFits(k.pc, t[Owned(k.pc).value])
    ensures HasSubmitted(k.pc) ==> k.key in keys
  {
  }

  /** A caller's step on an existing row touches that row alone and leaves the
      caller fitting its new program point. */
  lemma AdvanceOwnRow(limit: nat, t: Table, keys: set<Key>, k: Caller, ch: Choice, uuid: TurnId, ex: int)
    requires CallerOk(t, keys, k) && RowsOk(t, keys)
    requires Owned(k.pc).Some? && !k.pc.ClaimRead?
    ensures OwnStepOk(t, keys, k, Advance(limit, t, k, ch, uuid, ex))
  {
    hide CallerOk, RowsOk, OwnStepOk;
    RowIsThere(t, keys, k);
    if ch == Raise && InTry(k.pc) {
      OwnCall(t, keys, k, Unwind(k.pc.id, false));
    } else if k.pc.Run? {
      if CasAt(k.pc.at).Some? {
        CasShape(k.pc.at);
        var (expected, patch, next) := CasAt(k.pc.at).value;
        OwnCas(t, keys, k, expected, patch, Run(k.pc.id, next));
      } else {
        CallShape(k.pc.id, k.pc.at, ch, t[k.pc.id]);
        OwnCall(t, keys, k, CallAt(k.pc.id, k.pc.at, ch));
      }
    } else if k.pc.Finish? {
      OwnCas(t, keys, k, k.pc.expected, Patch(k.pc.verdict, None, false, Some(k.pc.stage)), FinishRead(k.pc.id));
    } else if k.pc.Unwind? {
      OwnRevoke(t, keys, k);
    } else {
      OwnCall(t, keys, k, if k.pc.FinishRead? then Unwind(k.pc.id, true) else k.pc);
    }
  }

  lemma CallerRowStepKeepsInv(s: Sys, c: nat, ch: Choice, uuid: TurnId, ex: int)
    requires Inv(s) && Enabled(s, CallerGo(c, ch, uuid, ex))
    requires Owned(s.callers[c].pc).Some? && !s.callers[c].pc.ClaimRead?
    ensures Inv(Do(s, CallerGo(c, ch, uuid, ex)))
    ensures TouchesOnly(s.rows, Do(s, CallerGo(c, ch, uuid, ex)).rows, Owned(s.callers[c].pc).value)
  {
    hide CallerOk, RowsOk, Advance, OwnStepOk, TouchesOnly;
    var k := s.callers[c];
    AdvanceOwnRow(s.limit, s.rows, Keys(s.log), k, ch, uuid, ex);
    OwnStepKeepsInv(s, c, Advance(s.limit, s.rows, k, ch, uuid, ex));
  }

  /** The system after a caller's step with outcome `o`. */
  function Stepped(s: Sys, c: nat, o: Outcome): Sys
    requires c in s.callers
  {
    var k := s.callers[c];
    s.(rows := o.rows, callers := s.callers[c := k.(pc := o.pc)],
       log := if Submits(k.pc) then s.log + [Submission(c, k.key)] else s.log)
  }

  lemma OwnStepKeepsInv(s: Sys, c: nat, o: Outcome)
    requires c in s.callers
    ensures Inv(s) && OwnStepOk(s.rows, Keys(s.log), s.callers[c], o) ==>
              Inv(Stepped(s, c, o)) && TouchesOnly(s.rows, o.rows, Owned(s.callers[c].pc).value)
  {
    hide RowsOk, CallerOk, TouchesOnly, NoKeyTwice, Keys, Owned, CancelOk, SweepOk;
    if Inv(s) && OwnStepOk(s.rows, Keys(s.log), s.callers[c], o) {
      SteppedLog(s, c, o);
      forall d | d in s.callers && d != c
        ensures CallerOk(o.rows, Keys(Stepped(s, c, o).log), s.callers[d])
      {
        BystanderKept(s, c, d, o.rows, Keys(Stepped(s, c, o).log));
      }
    }
  }

  /** The log gains the caller's key when the step submits, and no key twice. */
  lemma SteppedLog(s: Sys, c: nat, o: Outcome)
    requires c in s.callers && Inv(s)
    ensures Keys(Stepped(s, c, o).log)
            == if Submits(s.callers[c].pc) then Keys(s.log) + {s.callers[c].key} else Keys(s.log)
    ensures NoKeyTwice(Stepped(s, c, o).log)
  {
    hide RowsOk, DistinctOwners;
    var k := s.callers[c];
    KeysOfAppend(s.log, Submission(c, k.key));
    if Submits(k.pc) {
      assert MayStillSubmit(k.pc) && CallerOk(s.rows, Keys(s.log), k);
      AppendFreshKey(s.log, Submission(c, k.key));
    }
  }

  lemma BystanderKept(s: Sys, c: nat, d: nat, t': Table, keys': set<Key>)
    requires Inv(s) && c in s.callers && d in s.callers && c != d && Owned(s.callers[c].pc).Some?
    requires TouchesOnly(s.rows, t', Owned(s.callers[c].pc).value)
    requires keys' == if Submits(s.callers[c].pc) then Keys(s.log) + {s.callers[c].key} else Keys(s.log)
    ensures CallerOk(t', keys', s.callers[d])
  {
    hide RowsOk, RowMoves, TouchesOnly;
    var other := s.callers[d];
    if Owned(other.pc).Some? {
      OwnersDiffer(s, c, d);
    }
    OtherCallerKept(s.rows, t', Owned(s.callers[c].pc).value, Keys(s.log), keys', other);
  }

  lemma KeysOfAppend(log: seq<Submission>, e: Submission)
    ensures Keys(log + [e]) == Keys(log) + {e.key}
  {
    var more := log + [e];
    assert more[|log|] == e;
    forall key | key in Keys(log)
      ensures key in Keys(more)
    {
      var i :| 0 <= i < |log| && log[i].key == key;
      assert more[i].key == key;
    }
  }

  lemma AppendFreshKey(log: seq<Submission>, e: Submission)
    requires NoKeyTwice(log) && e.key !in Keys(log)
    ensures NoKeyTwice(log + [e])
  {
  }

  /** Two callers that own rows own different rows with different keys. */
  lemma OwnersDiffer(s: Sys, c: nat, d: nat)
    requires Inv(s) && c in s.callers && d in s.callers && c != d
    requires Owned(s.callers[c].pc).Some? && Owned(s.callers[d].pc).Some?
    ensures Owned(s.callers[c].pc) != Owned(s.callers[d].pc)
    ensures s.callers[c].key != s.callers[d].key
  {
    var i, j := Owned(s.callers[c].pc).value, Owned(s.callers[d].pc).value;
    assert CallerOk(s.rows, Keys(s.log), s.callers[c]);
    assert CallerOk(s.rows, Keys(s.log), s.callers[d]);
    assert i != j;
  }

  /** The steps of a caller that owns no row yet. */
  lemma CallerGateStepKeepsInv(s: Sys, c: nat, ch: Choice, uuid: TurnId, ex: int)
    requires Inv(s) && Enabled(s, CallerGo(c, ch, uuid, ex))
    requires Owned(s.callers[c].pc).None? || s.callers[c].pc.ClaimRead?
    ensures Inv(Do(s, CallerGo(c, ch, uuid, ex)))
    ensures forall id :: id in s.rows ==> id in Do(s, CallerGo(c, ch, uuid, ex)).rows && Do(s, CallerGo(c, ch, uuid, ex)).rows[id] == s.rows[id]
  {
    var s' := Do(s, CallerGo(c, ch, uuid, ex));
    var k := s.callers[c];
    var o := Advance(s.limit, s.rows, k, ch, uuid, ex);
    assert CallerOk(s.rows, Keys(s.log), k);
    if k.pc.Window? && ch != Fail && !HasKey(s.rows, k.key) {
      InsertKeepsInv(s, s', c, uuid, ex);
    } else {
      GateStepOk(s.limit, s.rows, Keys(s.log), k, ch, uuid, ex);
      TableUnchangedKeepsInv(s, s', c, o.pc);
    }
  }

  lemma GateStepOk(limit: nat, t: Table, keys: set<Key>, k: Caller, ch: Choice, uuid: TurnId, ex: int)
    requires CallerOk(t, keys, k) && UniqueKeys(t)
    requires Owned(k.pc).None? || k.pc.ClaimRead?
    requires k.pc.Window? && ch != Fail ==> HasKey(t, k.key)
    ensures var o := Advance(limit, t, k, ch, uuid, ex);
            o.rows == t && CallerOk(t, keys, k.(pc := o.pc)) &&
            (Owned(o.pc).Some? ==> Owned(o.pc) == Owned(k.pc))
  {
    if k.pc.ClaimRead? && k.pc.inserted {
      assert IdOf(t, k.key) == k.pc.newId;
    }
  }

  lemma TableUnchangedKeepsInv(s: Sys, s': Sys, c: nat, next: Pc)
    requires Inv(s) && c in s.callers
    requires s' == s.(callers := s.callers[c := s.callers[c].(pc := next)])
    requires CallerOk(s.rows, Keys(s.log), s'.callers[c])
    requires Owned(next).Some? ==> Owned(next) == Owned(s.callers[c].pc)
    ensures Inv(s')
  {
  }

  lemma InsertKeepsInv(s: Sys, s': Sys, c: nat, uuid: TurnId, ex: int)
    requires Inv(s) && c in s.callers && uuid !in s.rows
    requires var k := s.callers[c];
             && k.pc == Window && !HasKey(s.rows, k.key)
             && s' == s.(rows := s.rows[uuid := NewRow(k.key, k.who, k.trace, ex)],
                         callers := s.callers[c := k.(pc := ClaimRead(uuid, true))])
    ensures Inv(s')
  {
    var k := s.callers[c];
    var keys := Keys(s.log);
    assert s'.rows[uuid].key == k.key;
    assert UniqueKeys(s'.rows);
    forall key | HasKey(s.rows, key)
      ensures HasKey(s'.rows, key)
    {
      var j :| j in s.rows && s.rows[j].key == key;
      assert s'.rows[j].key == key;
    }
    forall d | d in s'.callers
      ensures CallerOk(s'.rows, keys, s'.callers[d])
    {
      if d != c {
        assert CallerOk(s.rows, keys, s.callers[d]);
      } else {
        assert k.key !in keys;
      }
    }
    forall d | d in s.callers && Owned(s.callers[d].pc).Some?
      ensures Owned(s.callers[d].pc) != Some(uuid)
    {
      assert CallerOk(s.rows, keys, s.callers[d]);
    }
  }
}
