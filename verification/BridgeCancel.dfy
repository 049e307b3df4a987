/** Two runs of one caller and one cancel_turn (terminal_mcp/bridge.py): a cancel
    that loses its swap, and one that wins too late. */
module BridgeCancel {
  import opened Options
  import opened BridgeStore
  import opened BridgeProtocol
  import opened BridgeSubmission

  /** The one-caller system used below: key 7, turn 0, and one canceller. */
  ghost function Alone(pc: Pc, rows: Table, cancels: map<nat, CancelPc>, log: seq<Submission>): Sys {
    Sys(1, rows, map[0 := Caller(7, 0, None, pc)], cancels, map[], log)
  }

  function Turn(state: State, revoked: bool): Table {
    map[0 := Row(7, 0, None, state, 0, false, None, revoked, 9)]
  }

  /** The caller's next step, everything going well; its insert takes id 0. */
  const GO := CallerGo(0, Succeed, 1, 9)
  const INSERT := CallerGo(0, Succeed, 0, 9)

  lemma ClaimAlone()
    ensures Leads(Init(1), Arrive(0, 7, 0, None), Alone(Lookup, map[], map[], []))
    ensures Leads(Alone(Lookup, map[], map[], []), GO, Alone(CycleCheck, map[], map[], []))
    ensures Leads(Alone(CycleCheck, map[], map[], []), GO, Alone(Gate, map[], map[], []))
    ensures Leads(Alone(Gate, map[], map[], []), GO, Alone(Window, map[], map[], []))
  {
    var empty: Table := map[];
    assert NonTerminal(empty) == {};
    assert !HasKey(empty, 7);
  }

  lemma InsertAlone()
    ensures Leads(Alone(Window, map[], map[], []), INSERT, Alone(ClaimRead(0, true), Turn(Preparing, false), map[], []))
    ensures Leads(Alone(ClaimRead(0, true), Turn(Preparing, false), map[], []), GO,
                  Alone(Run(0, AtPrepare), Turn(Preparing, false), map[], []))
  {
    var empty: Table := map[];
    assert !HasKey(empty, 7);
    assert Turn(Preparing, false)[0].key == 7;
    assert IdOf(Turn(Preparing, false), 7) == 0;
  }

  lemma CancelReadsTooEarly()
    ensures Leads(Alone(Run(0, AtPrepare), Turn(Preparing, false), map[], []), CancelCall(0, 0),
                  Alone(Run(0, AtPrepare), Turn(Preparing, false), map[0 := CancelGet(0)], []))
    ensures Leads(Alone(Run(0, AtPrepare), Turn(Preparing, false), map[0 := CancelGet(0)], []), CancelGo(0),
                  Alone(Run(0, AtPrepare), Turn(Preparing, false), map[0 := CancelCas(0, Preparing)], []))
  {
  }

  lemma PipelineMovesOn()
    ensures Leads(Alone(Run(0, AtPrepare), Turn(Preparing, false), map[0 := CancelCas(0, Preparing)], []), GO,
                  Alone(Run(0, AtComposer), Turn(Preparing, false), map[0 := CancelCas(0, Preparing)], []))
  {
  }

  lemma ComposerIsReady()
    ensures Leads(Alone(Run(0, AtComposer), Turn(Preparing, false), map[0 := CancelCas(0, Preparing)], []), GO,
                  Alone(Run(0, AtWriting), Turn(ComposerReady, false), map[0 := CancelCas(0, Preparing)], []))
  {
  }

  lemma CancelLosesTheRace()
    ensures Leads(Alone(Run(0, AtWriting), Turn(ComposerReady, false), map[0 := CancelCas(0, Preparing)], []), CancelGo(0),
                  Alone(Run(0, AtWriting), Turn(ComposerReady, false), map[0 := CancelRevoke(0)], []))
    ensures Leads(Alone(Run(0, AtWriting), Turn(ComposerReady, false), map[0 := CancelRevoke(0)], []), CancelGo(0),
                  Alone(Run(0, AtWriting), Turn(ComposerReady, true), map[0 := CancelDone], []))
  {
  }

  lemma CancelWinsTheRace()
    ensures Leads(Alone(Run(0, AtPrepare), Turn(Preparing, false), map[0 := CancelCas(0, Preparing)], []), CancelGo(0),
                  Alone(Run(0, AtPrepare), Turn(Cancelled, false), map[0 := CancelRevoke(0)], []))
    ensures Leads(Alone(Run(0, AtPrepare), Turn(Cancelled, false), map[0 := CancelRevoke(0)], []), CancelGo(0),
                  Alone(Run(0, AtPrepare), Turn(Cancelled, true), map[0 := CancelDone], []))
  {
  }

  lemma ClaimedAlone() returns (tr: seq<Sys>, ls: seq<Label>)
    ensures Behavior(1, tr, ls)
    ensures tr[|tr| - 1] == Alone(Run(0, AtPrepare), Turn(Preparing, false), map[], [])
  {
    ClaimAlone();
    InsertAlone();
    tr, ls := [Init(1)], [];
    tr, ls := Then(1, tr, ls, Arrive(0, 7, 0, None), Alone(Lookup, map[], map[], []));
    tr, ls := Then(1, tr, ls, GO, Alone(CycleCheck, map[], map[], []));
    tr, ls := Then(1, tr, ls, GO, Alone(Gate, map[], map[], []));
    tr, ls := Then(1, tr, ls, GO, Alone(Window, map[], map[], []));
    tr, ls := Then(1, tr, ls, INSERT, Alone(ClaimRead(0, true), Turn(Preparing, false), map[], []));
    tr, ls := Then(1, tr, ls, GO, Alone(Run(0, AtPrepare), Turn(Preparing, false), map[], []));
  }

  /** A cancel may return with its turn revoked but still running. */
  lemma CancelReturnsWhileTurnRuns() returns (tr: seq<Sys>, ls: seq<Label>)
    ensures Behavior(1, tr, ls)
    ensures tr[|tr| - 1] == Alone(Run(0, AtWriting), Turn(ComposerReady, true), map[0 := CancelDone], [])
  {
    tr, ls := ClaimedAlone();
    CancelReadsTooEarly();
    PipelineMovesOn();
    ComposerIsReady();
    CancelLosesTheRace();
    tr, ls := Then(1, tr, ls, CancelCall(0, 0), Alone(Run(0, AtPrepare), Turn(Preparing, false), map[0 := CancelGet(0)], []));
    tr, ls := Then(1, tr, ls, CancelGo(0), Alone(Run(0, AtPrepare), Turn(Preparing, false), map[0 := CancelCas(0, Preparing)], []));
    tr, ls := Then(1, tr, ls, GO, Alone(Run(0, AtComposer), Turn(Preparing, false), map[0 := CancelCas(0, Preparing)], []));
    tr, ls := Then(1, tr, ls, GO, Alone(Run(0, AtWriting), Turn(ComposerReady, false), map[0 := CancelCas(0, Preparing)], []));
    tr, ls := Then(1, tr, ls, CancelGo(0), Alone(Run(0, AtWriting), Turn(ComposerReady, false), map[0 := CancelRevoke(0)], []));
    tr, ls := Then(1, tr, ls, CancelGo(0), Alone(Run(0, AtWriting), Turn(ComposerReady, true), map[0 := CancelDone], []));
  }

  /** A cancel may win, and return with its turn CANCELLED and revoked, and still
      the prompt is submitted afterwards: the pipeline's next two swaps lose and
      it does not notice. */
  lemma CancelledTurnMayStillBeSubmitted() returns (before: seq<Sys>, tr: seq<Sys>, ls: seq<Label>)
    ensures Behavior(1, tr, ls) && before < tr && before != []
    ensures before[|before| - 1] == Alone(Run(0, AtPrepare), Turn(Cancelled, true), map[0 := CancelDone], [])
    ensures tr[|tr| - 1] == Alone(Run(0, AtVerified), Turn(Cancelled, true), map[0 := CancelDone], [Submission(0, 7)])
  {
    tr, ls := ClaimedAlone();
    CancelReadsTooEarly();
    CancelWinsTheRace();
    tr, ls := Then(1, tr, ls, CancelCall(0, 0), Alone(Run(0, AtPrepare), Turn(Preparing, false), map[0 := CancelGet(0)], []));
    tr, ls := Then(1, tr, ls, CancelGo(0), Alone(Run(0, AtPrepare), Turn(Preparing, false), map[0 := CancelCas(0, Preparing)], []));
    tr, ls := Then(1, tr, ls, CancelGo(0), Alone(Run(0, AtPrepare), Turn(Cancelled, false), map[0 := CancelRevoke(0)], []));
    tr, ls := Then(1, tr, ls, CancelGo(0), Alone(Run(0, AtPrepare), Turn(Cancelled, true), map[0 := CancelDone], []));
    before := tr;
    tr, ls := PipelineDoesNotNotice(before, ls);
  }

  lemma PreparesCancelled()
    ensures Leads(Alone(Run(0, AtPrepare), Turn(Cancelled, true), map[0 := CancelDone], []), GO,
                  Alone(Run(0, AtComposer), Turn(Cancelled, true), map[0 := CancelDone], []))
  {
  }

  lemma ComposerSwapLoses()
    ensures Leads(Alone(Run(0, AtComposer), Turn(Cancelled, true), map[0 := CancelDone], []), GO,
                  Alone(Run(0, AtWriting), Turn(Cancelled, true), map[0 := CancelDone], []))
  {
  }

  lemma WritingSwapLoses()
    ensures Leads(Alone(Run(0, AtWriting), Turn(Cancelled, true), map[0 := CancelDone], []), GO,
                  Alone(Run(0, AtSubmit), Turn(Cancelled, true), map[0 := CancelDone], []))
  {
  }

  lemma SubmitsCancelled()
    ensures Leads(Alone(Run(0, AtSubmit), Turn(Cancelled, true), map[0 := CancelDone], []), GO,
                  Alone(Run(0, AtVerified), Turn(Cancelled, true), map[0 := CancelDone], [Submission(0, 7)]))
  {
  }

  lemma PipelineDoesNotNotice(before: seq<Sys>, ls0: seq<Label>) returns (tr: seq<Sys>, ls: seq<Label>)
    requires Behavior(1, before, ls0)
    requires before[|before| - 1] == Alone(Run(0, AtPrepare), Turn(Cancelled, true), map[0 := CancelDone], [])
    ensures Behavior(1, tr, ls) && before < tr
    ensures tr[|tr| - 1] == Alone(Run(0, AtVerified), Turn(Cancelled, true), map[0 := CancelDone], [Submission(0, 7)])
  {
    PreparesCancelled();
    ComposerSwapLoses();
    WritingSwapLoses();
    SubmitsCancelled();
    tr, ls := Then(1, before, ls0, GO, Alone(Run(0, AtComposer), Turn(Cancelled, true), map[0 := CancelDone], []));
    tr, ls := Then(1, tr, ls, GO, Alone(Run(0, AtWriting), Turn(Cancelled, true), map[0 := CancelDone], []));
    tr, ls := Then(1, tr, ls, GO, Alone(Run(0, AtSubmit), Turn(Cancelled, true), map[0 := CancelDone], []));
    tr, ls := Then(1, tr, ls, GO, Alone(Run(0, AtVerified), Turn(Cancelled, true), map[0 := CancelDone], [Submission(0, 7)]));
  }
}
