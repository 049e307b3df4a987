/** The `bridge_turns` table and the sequential bridge service
    (terminal_mcp/bridge.py).

    Every SQL statement of the store is one function on the table value
    (`InsertRow`, `CasRow`, `RevokeRow`); the class methods are proved against
    these functions, and BridgeProtocol interleaves the same functions.

    Identifiers, idempotency keys, trace ids and caller identities are opaque:
    only equality matters, so they are natural numbers here. */
module BridgeStore {
  import opened Options

  datatype State =
    | Preparing | ComposerReady | Writing | Verified | Activating | Accepted
    | Responding | Completed | Failed | Unknown | Cancelled

  predicate Terminal(s: State) {
    s == Completed || s == Failed || s == Unknown || s == Cancelled
  }

  type TurnId = nat
  type Key = nat
  type Trace = nat
  /** The (source_session, binding) pair a turn is claimed under. */
  type Identity = nat

  datatype Stage =
    | TransportError | ActivationUnconfirmed | ResponseFailed | ResponseTimeout | CapabilityExpired

  datatype Row = Row(
    key: Key,
    who: Identity,
    trace: Option<Trace>,
    state: State,
    activationAttempts: nat,
    accepted: bool,           // accepted_at is not null
    errorStage: Option<Stage>,
    revoked: bool,            // revoked_at is not null
    expiresAt: int)

  type Table = map<TurnId, Row>

  /** The columns one compare-and-swap writes; an absent column stays. */
  datatype Patch = Patch(state: State, attempts: Option<nat>, accept: bool, stage: Option<Stage>)

  function To(s: State): Patch {
    Patch(s, None, false, None)
  }

  function Patched(r: Row, p: Patch): Row {
    r.(state := p.state,
       activationAttempts := if p.attempts.Some? then p.attempts.value else r.activationAttempts,
       accepted := r.accepted || p.accept,
       errorStage := if p.stage.Some? then p.stage else r.errorStage)
  }

  function NewRow(key: Key, who: Identity, trace: Option<Trace>, expiresAt: int): Row {
    Row(key, who, trace, Preparing, 0, false, None, false, expiresAt)
  }

  predicate HasKey(t: Table, key: Key) {
    exists id :: id in t && t[id].key == key
  }

  /** UNIQUE(idempotency_key). */
  ghost predicate UniqueKeys(t: Table) {
    forall i, j :: i in t && j in t && t[i].key == t[j].key ==> i == j
  }

  function InsertRow(t: Table, id: TurnId, row: Row): Table {
    if HasKey(t, row.key) then t else t[id := row]
  }

  predicate CasWins(t: Table, id: TurnId, expected: State) {
    id in t && t[id].state == expected
  }

  function CasRow(t: Table, id: TurnId, expected: State, p: Patch): Table {
    if CasWins(t, id, expected) then t[id := Patched(t[id], p)] else t
  }

  function RevokeRow(t: Table, id: TurnId): Table {
    if id in t && !t[id].revoked then t[id := t[id].(revoked := true)] else t
  }

  function NonTerminal(t: Table): set<TurnId> {
    set id | id in t && !Terminal(t[id].state)
  }

  predicate CycleOn(t: Table, trace: Trace, who: Identity) {
    exists id :: id in t && t[id].trace == Some(trace) && !Terminal(t[id].state) && t[id].who == who
  }

  function Expired(t: Table, now: int): set<TurnId> {
    set id | id in t && t[id].expiresAt < now && !Terminal(t[id].state)
  }

  /** What the concurrency gate counts: a claim adds one turn exactly when its
      key is new, a compare-and-swap takes one away exactly when it wins and ends
      a turn that was not over, and a revocation leaves the count alone. */
  lemma CountFollowsTheTable(t: Table, id: TurnId, row: Row, expected: State, p: Patch)
    requires !Terminal(row.state) && !Terminal(expected)
    ensures id !in t ==> |NonTerminal(InsertRow(t, id, row))| == |NonTerminal(t)| + if HasKey(t, row.key) then 0 else 1
    ensures |NonTerminal(CasRow(t, id, expected, p))|
            == |NonTerminal(t)| - if CasWins(t, id, expected) && Terminal(p.state) then 1 else 0
    ensures |NonTerminal(RevokeRow(t, id))| == |NonTerminal(t)|
  {
    hide *;
    ClaimCounts(t, id, row);
    CasCounts(t, id, expected, p);
    RevokeCounts(t, id);
  }

  lemma ClaimCounts(t: Table, id: TurnId, row: Row)
    requires !Terminal(row.state)
    ensures id !in t ==> |NonTerminal(InsertRow(t, id, row))| == |NonTerminal(t)| + if HasKey(t, row.key) then 0 else 1
  {
    if id !in t && !HasKey(t, row.key) {
      assert NonTerminal(t[id := row]) == NonTerminal(t) + {id};
    }
  }

  lemma CasCounts(t: Table, id: TurnId, expected: State, p: Patch)
    requires !Terminal(expected)
    ensures |NonTerminal(CasRow(t, id, expected, p))|
            == |NonTerminal(t)| - if CasWins(t, id, expected) && Terminal(p.state) then 1 else 0
  {
    var open := NonTerminal(t);
    if CasWins(t, id, expected) {
      assert id in open;
      assert NonTerminal(CasRow(t, id, expected, p)) == if Terminal(p.state) then open - {id} else open;
    }
  }

  lemma RevokeCounts(t: Table, id: TurnId)
    ensures |NonTerminal(RevokeRow(t, id))| == |NonTerminal(t)|
  {
    assert NonTerminal(RevokeRow(t, id)) == NonTerminal(t);
  }

  class BridgeTurnStore {
    var rows: Table

    ghost predicate Valid() reads this { UniqueKeys(rows) }

    constructor ()
      ensures Valid() && rows == map[]
    {
      rows := map[];
    }

    /** One INSERT ... ON CONFLICT DO NOTHING, then a read by key. `id` is the
        fresh uuid. The read always finds a row, so the
        RuntimeError that claim raises for a vanished row is dead. */
    method Claim(id: TurnId, key: Key, who: Identity, trace: Option<Trace>, expiresAt: int)
      returns (found: TurnId, inserted: bool)
      requires Valid() && id !in rows
      modifies this
      ensures Valid()
      ensures inserted <==> !HasKey(old(rows), key)
      ensures rows == InsertRow(old(rows), id, NewRow(key, who, trace, expiresAt))
      ensures found in rows && rows[found].key == key
      ensures inserted ==> found == id && rows[id].state == Preparing
      ensures !inserted ==> rows == old(rows)
    {
      inserted := !HasKey(rows, key);
      if inserted {
        rows := rows[id := NewRow(key, who, trace, expiresAt)];
        assert rows[id].key == key;
      }
      found :| found in rows && rows[found].key == key;
    }

    method GetByIdempotencyKey(key: Key) returns (found: Option<TurnId>)
      requires Valid()
      ensures found.Some? <==> HasKey(rows, key)
      ensures found.Some? ==> found.value in rows && rows[found.value].key == key
      ensures found.Some? ==> forall id :: id in rows && rows[id].key == key ==> id == found.value
    {
      if HasKey(rows, key) {
        var id :| id in rows && rows[id].key == key;
        found := Some(id);
      } else {
        found := None;
      }
    }

    method CasUpdate(id: TurnId, expected: State, p: Patch) returns (won: bool)
      requires Valid()
      modifies this
      ensures Valid()
      ensures won <==> CasWins(old(rows), id, expected)
      ensures rows == CasRow(old(rows), id, expected, p)
    {
      won := CasWins(rows, id, expected);
      rows := CasRow(rows, id, expected, p);
    }

    method Revoke(id: TurnId) returns (first: bool)
      requires Valid()
      modifies this
      ensures Valid()
      ensures first <==> id in old(rows) && !old(rows)[id].revoked
      ensures rows == RevokeRow(old(rows), id)
      ensures id in rows ==> rows[id] == old(rows)[id].(revoked := true)
    {
      first := id in rows && !rows[id].revoked;
      rows := RevokeRow(rows, id);
    }

    method CountNonTerminal() returns (n: nat)
      ensures n == |NonTerminal(rows)|
    {
      n := |NonTerminal(rows)|;
    }
  }

  datatype Poll = StillResponding | PollCompleted | PollFailed

  /** What the transport answers during one pipeline run, and the number of the
      first observation made at or after the deadline. */
  datatype Script = Script(
    prepareOk: bool, submitOk: bool, proved: bool, poll: nat -> Poll, deadlinePoll: nat)

  /** The verdict of the observation loop, starting at poll `i`. */
  function PollVerdict(sc: Script, i: nat): State
    requires i <= sc.deadlinePoll
    decreases sc.deadlinePoll - i
  {
    match sc.poll(i)
    case PollCompleted => Completed
    case PollFailed => Failed
    case StillResponding => if i == sc.deadlinePoll then Unknown else PollVerdict(sc, i + 1)
  }

  /** Polls i to n - 1 all found the turn still responding. */
  predicate Responds(sc: Script, i: nat, n: nat) {
    forall k :: i <= k < n ==> sc.poll(k) == StillResponding
  }

  /** UNKNOWN exactly when every poll up to the deadline still responds; any
      other verdict is that of the first poll that is decisive. */
  lemma {:induction false} FirstDecisivePollDecides(sc: Script, i: nat, n: nat)
    requires i <= n <= sc.deadlinePoll
    ensures PollVerdict(sc, i) == Unknown <==> Responds(sc, i, sc.deadlinePoll + 1)
    ensures Responds(sc, i, n) && sc.poll(n) == PollCompleted ==> PollVerdict(sc, i) == Completed
    ensures Responds(sc, i, n) && sc.poll(n) == PollFailed ==> PollVerdict(sc, i) == Failed
    decreases sc.deadlinePoll - i
  {
    if sc.poll(i) == StillResponding && i < sc.deadlinePoll {
      FirstDecisivePollDecides(sc, i + 1, if n == i then n + 1 else n);
    }
  }

  function Verdict(sc: Script): State {
    if !sc.prepareOk || !sc.submitOk then Failed
    else if !sc.proved then Unknown
    else PollVerdict(sc, 0)
  }

  /** The row of a new turn just before the pipeline writes its verdict. */
  function Reached(r: Row, sc: Script): Row {
    if !sc.prepareOk then r
    else if !sc.submitOk then r.(state := Writing)
    else if !sc.proved then r.(state := Activating, activationAttempts := 1)
    else r.(state := Responding, activationAttempts := 1, accepted := true)
  }

  class BridgeService {
    const store: BridgeTurnStore

    constructor (store: BridgeTurnStore)
      ensures this.store == store
    {
      this.store := store;
    }

    /** The pipeline of the winning caller when nobody else touches the row:
        it leaves the row revoked and in exactly the state the transport's
        answers call for, with the evidence columns telling how far it got. */
    method RunPipeline(id: TurnId, sc: Script)
      requires store.Valid() && id in store.rows
      requires store.rows[id] == NewRow(store.rows[id].key, store.rows[id].who,
                                        store.rows[id].trace, store.rows[id].expiresAt)
      modifies store
      ensures store.Valid()
      ensures store.rows.Keys == old(store.rows.Keys)
      ensures forall j :: j in store.rows && j != id ==> store.rows[j] == old(store.rows)[j]
      ensures store.rows[id].key == old(store.rows)[id].key
      ensures store.rows[id].state == Verdict(sc) && Terminal(store.rows[id].state)
      ensures store.rows[id].revoked
      ensures store.rows[id].accepted <==> sc.prepareOk && sc.submitOk && sc.proved
      ensures store.rows[id].activationAttempts == (if sc.prepareOk && sc.submitOk then 1 else 0)
      ensures store.rows[id].errorStage.None? <==> Verdict(sc) == Completed
      ensures !sc.prepareOk || !sc.submitOk ==> store.rows[id].errorStage == Some(TransportError)
      ensures sc.prepareOk && sc.submitOk && !sc.proved ==> store.rows[id].errorStage == Some(ActivationUnconfirmed)
      ensures sc.prepareOk && sc.submitOk && sc.proved && Verdict(sc) == Failed ==> store.rows[id].errorStage == Some(ResponseFailed)
      ensures sc.prepareOk && sc.submitOk && sc.proved && Verdict(sc) == Unknown ==> store.rows[id].errorStage == Some(ResponseTimeout)
    {
      var stage, verdict, expected := DriveToVerdict(id, sc);
      Advance(id, expected, Patch(verdict, None, false, stage));
      var first := store.Revoke(id);
    }

    /** The pipeline up to its last compare-and-swap. */
    method DriveToVerdict(id: TurnId, sc: Script) returns (stage: Option<Stage>, verdict: State, expected: State)
      requires store.Valid() && id in store.rows
      requires store.rows[id] == NewRow(store.rows[id].key, store.rows[id].who,
                                        store.rows[id].trace, store.rows[id].expiresAt)
      modifies store
      ensures store.Valid()
      ensures store.rows == old(store.rows)[id := Reached(old(store.rows)[id], sc)]
      ensures expected == store.rows[id].state
      ensures verdict == Verdict(sc) && Terminal(verdict) && (stage.None? <==> verdict == Completed)
      ensures !sc.prepareOk || !sc.submitOk ==> stage == Some(TransportError)
      ensures sc.prepareOk && sc.submitOk && !sc.proved ==> stage == Some(ActivationUnconfirmed)
      ensures sc.prepareOk && sc.submitOk && sc.proved && verdict == Failed ==> stage == Some(ResponseFailed)
      ensures sc.prepareOk && sc.submitOk && sc.proved && verdict == Unknown ==> stage == Some(ResponseTimeout)
    {
      if !sc.prepareOk {
        return Some(TransportError), Failed, Preparing;
      }
      AdvanceTwice(id, Preparing, To(ComposerReady), To(Writing));
      if !sc.submitOk {
        return Some(TransportError), Failed, Writing;
      }
      AdvanceTwice(id, Writing, To(Verified), Patch(Activating, Some(1), false, None));
      if !sc.proved {
        return Some(ActivationUnconfirmed), Unknown, Activating;
      }
      AdvanceTwice(id, Activating, Patch(Accepted, None, true, None), To(Responding));
      stage, verdict := ObserveLoop(sc);
      expected := Responding;
    }

    /** One compare-and-swap whose result the pipeline does not look at; alone
        on the table it always wins. */
    method Advance(id: TurnId, expected: State, p: Patch)
      requires store.Valid() && CasWins(store.rows, id, expected)
      modifies store
      ensures store.Valid()
      ensures store.rows == old(store.rows)[id := Patched(old(store.rows)[id], p)]
    {
      var won := store.CasUpdate(id, expected, p);
    }

    /** Two in a row, the second from the state the first one wrote. */
    method AdvanceTwice(id: TurnId, expected: State, first: Patch, second: Patch)
      requires store.Valid() && CasWins(store.rows, id, expected)
      modifies store
      ensures store.Valid()
      ensures store.rows == old(store.rows)[id := Patched(Patched(old(store.rows)[id], first), second)]
    {
      Advance(id, expected, first);
      Advance(id, first.state, second);
    }

    /** while True: observe; COMPLETED and FAILED are decided before the
        deadline is looked at. */
    method ObserveLoop(sc: Script) returns (stage: Option<Stage>, verdict: State)
      ensures verdict == PollVerdict(sc, 0)
      ensures Terminal(verdict) && (stage.None? <==> verdict == Completed)
      ensures verdict == Failed ==> stage == Some(ResponseFailed)
      ensures verdict == Unknown ==> stage == Some(ResponseTimeout)
    {
      var i: nat := 0;
      while true
        invariant i <= sc.deadlinePoll
        invariant PollVerdict(sc, i) == PollVerdict(sc, 0)
        decreases sc.deadlinePoll - i
      {
        match sc.poll(i) {
          case PollCompleted => return None, Completed;
          case PollFailed => return Some(ResponseFailed), Failed;
          case StillResponding =>
        }
        if i == sc.deadlinePoll {
          return Some(ResponseTimeout), Unknown;
        }
        i := i + 1;
      }
    }

    /** list_expired, then one compare-and-swap and one revocation per row. */
    method SweepExpired(now: int) returns (swept: set<TurnId>)
      requires store.Valid()
      modifies store
      ensures store.Valid()
      ensures swept == Expired(old(store.rows), now)
      ensures store.rows.Keys == old(store.rows.Keys)
      ensures forall id :: id in swept ==>
                store.rows[id] == old(store.rows)[id].(state := Cancelled, errorStage := Some(CapabilityExpired), revoked := true)
      ensures forall id :: id in store.rows && id !in swept ==> store.rows[id] == old(store.rows)[id]
      ensures Expired(store.rows, now) == {}
    {
      var expired := Expired(store.rows, now);
      ghost var all := expired;
      swept := {};
      while expired != {}
        invariant store.Valid() && store.rows.Keys == old(store.rows.Keys)
        invariant swept + expired == all && swept !! expired
        invariant forall id :: id in swept ==>
                    store.rows[id] == old(store.rows)[id].(state := Cancelled, errorStage := Some(CapabilityExpired), revoked := true)
        invariant forall id :: id in store.rows && id !in swept ==> store.rows[id] == old(store.rows)[id]
        decreases expired
      {
        var id :| id in expired;
        expired := expired - {id};
        ExpireOne(id);
        swept := swept + {id};
      }
    }

    /** The sweeper's compare-and-swap and revocation of one row; alone on the
        table the swap always wins. */
    method ExpireOne(id: TurnId)
      requires store.Valid() && id in store.rows
      modifies store
      ensures store.Valid()
      ensures store.rows == old(store.rows)[id := old(store.rows)[id].(
                state := Cancelled, errorStage := Some(CapabilityExpired), revoked := true)]
    {
      var won := store.CasUpdate(id, store.rows[id].state, Patch(Cancelled, None, false, Some(CapabilityExpired)));
      if won {
        var first := store.Revoke(id);
      }
    }

    /** Explicit abort, alone on the table: a terminal turn is left as it is. */
    method CancelTurn(id: TurnId) returns (known: bool)
      requires store.Valid()
      modifies store
      ensures store.Valid()
      ensures known <==> id in old(store.rows)
      ensures store.rows.Keys == old(store.rows.Keys)
      ensures forall j :: j in store.rows && j != id ==> store.rows[j] == old(store.rows)[j]
      ensures known && Terminal(old(store.rows)[id].state) ==> store.rows == old(store.rows)
      ensures known && !Terminal(old(store.rows)[id].state) ==>
                store.rows[id] == old(store.rows)[id].(state := Cancelled, revoked := true)
    {
      known := id in store.rows;
      if !known || Terminal(store.rows[id].state) {
        return;
      }
      var won := store.CasUpdate(id, store.rows[id].state, To(Cancelled));
      var first := store.Revoke(id);
    }
  }
}
