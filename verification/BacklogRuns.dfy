/** What a successful write guarantees over whole runs of the backlog, with and
    without `validate` (terminal_mcp/backlog_service.py). */
module BacklogRuns {
  import opened Options
  import opened BacklogDb
  import opened BacklogConcurrency

  // --------------------------------------------------- optimistic concurrency

  function Repairs(ls: seq<Label>): nat
    decreases |ls|
  {
    if ls == [] then 0
    else Repairs(ls[..|ls| - 1]) + if ls[|ls| - 1].ValidateWrite? then 1 else 0
  }

  predicate Admitted(s: Sys, p: Client) { p in s.procs && (s.procs[p].Checked? || s.procs[p].Loaded?) }

  lemma RepairOrNothing(s: Sys, l: Label, p: Client)
    requires Inv(s) && Enabled(s, l) && Admitted(s, p) && Admitted(Do(s, l), p)
    ensures Do(s, l).revision == s.revision + if l.ValidateWrite? then 1 else 0
    ensures Do(s, l).procs[p].revision == s.procs[p].revision && Do(s, l).procs[p].job == s.procs[p].job
  {
    assert ProcOk(s, p, s.procs[p]);
    if l.p in s.procs {
      assert ProcOk(s, l.p, s.procs[l.p]);
    }
  }

  lemma AdmittedAtItsRevision(s: Sys, p: Client)
    requires Enabled(s, ReadRevision(p)) && Admitted(Do(s, ReadRevision(p)), p)
    ensures Do(s, ReadRevision(p)).revision == Do(s, ReadRevision(p)).procs[p].revision
  {
  }

  lemma RepairsGrow(ls: seq<Label>, a: nat, j: nat)
    requires a < j <= |ls|
    ensures Repairs(ls[a..j]) == Repairs(ls[a..j - 1]) + if ls[j - 1].ValidateWrite? then 1 else 0
  {
    assert ls[a..j][..j - 1 - a] == ls[a..j - 1] && ls[a..j][j - 1 - a] == ls[j - 1];
  }

  /** From its revision check (step c) to its write, a writer lets nobody in but
      `validate`: the revision grows by the number of repairs. */
  lemma {:induction false} OnlyRepairsGetIn(tr: seq<Sys>, ls: seq<Label>, p: Client, c: nat, j: nat)
    requires Behavior(tr, ls) && c < j <= |ls| && ls[c] == ReadRevision(p)
    requires forall k :: c < k <= j ==> Admitted(tr[k], p)
    ensures Admitted(tr[j], p) && tr[j].revision == tr[j].procs[p].revision + Repairs(ls[c + 1..j])
  {
    hide Do, Enabled, Inv;
    assert Admitted(tr[j], p);
    if j == c + 1 {
      assert ls[c + 1..j] == [];
      AdmittedAtItsRevision(tr[c], p);
    } else {
      OnlyRepairsGetIn(tr, ls, p, c, j - 1);
      assert Admitted(tr[j - 1], p);
      InvariantHolds(tr, ls, j - 1);
      RepairOrNothing(tr[j - 1], ls[j - 1], p);
      RepairsGrow(ls, c + 1, j);
    }
  }

  /** However torn the read was: once `get` has returned revision r with items I,
      a locked write that expects r and was let in by the check at step c makes
      revision r + 1 exactly when `validate` repaired nothing since that check,
      and then it was computed from exactly I. */
  lemma WriteRanOnWhatGetReturnedIff(tr: seq<Sys>, ls: seq<Label>, c: nat, i: nat, g: nat)
    requires Behavior(tr, ls) && c < i < |ls| && ls[i].Write? && ls[c] == ReadRevision(ls[i].p)
    requires forall k :: c < k <= i ==> Admitted(tr[k], ls[i].p)
    requires g < |tr[i].gets| && tr[i].procs[ls[i].p].job.expected == Some(tr[i].gets[g].0)
    ensures tr[i + 1].rows == ls[i].output
    ensures tr[i + 1].revision == tr[i].gets[g].0 + 1 <==> Repairs(ls[c + 1..i]) == 0
    ensures Repairs(ls[c + 1..i]) == 0 ==> tr[i].procs[ls[i].p].input == tr[i].gets[g].1
  {
    var p, s := ls[i].p, tr[i];
    InvariantHolds(tr, ls, i);
    OnlyRepairsGetIn(tr, ls, p, c, i);
    assert ProcOk(s, p, s.procs[p]);
    assert WasContent(s, s.gets[g].0, s.gets[g].1);
  }

  // ------------------------------------------------- runs without `validate`

  predicate Locked(l: Label) { !l.ValidateRead? && !l.ValidateWrite? }

  /** A run in which nobody calls `validate`. */
  ghost predicate Quiet(ls: seq<Label>) { forall i :: 0 <= i < |ls| ==> Locked(ls[i]) }

  ghost predicate ChainInv(s: Sys) {
    && Inv(s)
    && |s.commits| == s.revision
    && (forall k :: 0 <= k < |s.commits| ==>
          && s.commits[k].input == s.contents[k] && s.commits[k].output == s.contents[k + 1]
          && (s.commits[k].job.expected.Some? ==> s.commits[k].job.expected.value == k))
    && (forall p :: p in s.procs ==>
          var pr := s.procs[p];
          && !pr.Validating?
          && (pr.Checked? || pr.Loaded? ==> pr.revision == s.revision)
          && (pr.Loaded? ==> pr.input == s.rows))
  }

  lemma StepKeepsChain(s: Sys, l: Label)
    requires ChainInv(s) && Enabled(s, l) && Locked(l)
    ensures ChainInv(Do(s, l))
  {
    StepKeepsInv(s, l);
    if l.p in s.procs {
      assert ProcOk(s, l.p, s.procs[l.p]);
    }
    forall q | q in s.procs && HoldsLock(s.procs[q])
      ensures s.lock == Some(q)
    {
      assert ProcOk(s, q, s.procs[q]);
    }
  }

  lemma {:induction false} ChainHolds(tr: seq<Sys>, ls: seq<Label>, i: nat)
    requires Behavior(tr, ls) && Quiet(ls) && i < |tr|
    ensures ChainInv(tr[i])
  {
    if i > 0 {
      ChainHolds(tr, ls, i - 1);
      StepKeepsChain(tr[i - 1], ls[i - 1]);
    }
  }

  /** No update is lost: the (k+1)-st revision was computed from the k-th, by a
      writer that expected k or expected nothing. */
  lemma EveryRevisionBuildsOnTheLast(tr: seq<Sys>, ls: seq<Label>, i: nat, k: nat)
    requires Behavior(tr, ls) && Quiet(ls) && i < |tr| && k < tr[i].revision
    ensures |tr[i].commits| == tr[i].revision && |tr[i].contents| == tr[i].revision + 1
    ensures tr[i].commits[k].input == tr[i].contents[k] && tr[i].commits[k].output == tr[i].contents[k + 1]
    ensures tr[i].commits[k].job.expected == None || tr[i].commits[k].job.expected == Some(k)
  {
    ChainHolds(tr, ls, i);
  }

  lemma OthersWaitForTheLock(s: Sys, l: Label, p: Client)
    requires Inv(s) && Enabled(s, l) && Locked(l) && s.lock == Some(p) && !(l.Write? && l.p == p)
    ensures Do(s, l).rows == s.rows && Do(s, l).revision == s.revision
  {
    if l.p in s.procs {
      assert ProcOk(s, l.p, s.procs[l.p]);
    }
  }

  /** From taking the lock until it writes, a writer sees one content and one
      revision; so when it gives up or is refused, nothing has changed. */
  lemma {:induction false} HolderSeesOneContent(tr: seq<Sys>, ls: seq<Label>, p: Client, i: nat, j: nat)
    requires Behavior(tr, ls) && Quiet(ls) && i <= j < |tr|
    requires forall k :: i <= k < j ==> tr[k].lock == Some(p) && !(ls[k].Write? && ls[k].p == p)
    ensures tr[j].rows == tr[i].rows && tr[j].revision == tr[i].revision
  {
    if i < j {
      HolderSeesOneContent(tr, ls, p, i, j - 1);
      InvariantHolds(tr, ls, j - 1);
      OthersWaitForTheLock(tr[j - 1], ls[j - 1], p);
    }
  }

  // -------------------------------------------------- what `validate` breaks

  ghost predicate RunTo(tr: seq<Sys>, ls: seq<Label>, s: Sys) { Behavior(tr, ls) && tr[|ls|] == s }

  lemma Then(tr: seq<Sys>, ls: seq<Label>, s: Sys, l: Label, t: Sys)
    returns (tr': seq<Sys>, ls': seq<Label>)
    requires RunTo(tr, ls, s) && Enabled(s, l) && Do(s, l) == t
    ensures tr' == tr + [t] && ls' == ls + [l] && RunTo(tr', ls', t)
  {
    tr', ls' := tr + [t], ls + [l];
  }

  const FIRST := Job(None, false)
  const SECOND := Job(Some(1), false)

  function AfterMutation(was: Content): Sys {
    Sys(true, 1, was, None, map[], [], [map[], was], [Commit(FIRST, map[], was)])
  }
  function AfterCheck(was: Content): Sys {
    AfterMutation(was).(gets := [(1, was)], lock := Some(2), procs := map[2 := Checked(SECOND, 1)])
  }
  function AfterRepair(was: Content, repaired: Content): Sys {
    AfterCheck(was).(rows := repaired, revision := 2, contents := [map[], was, repaired],
                     procs := map[2 := Loaded(SECOND, 1, repaired)])
  }

  const FIRST_ENSURED := INIT.(known := true, lock := Some(1), procs := map[1 := Ensured(FIRST)])

  lemma RunStart() returns (tr: seq<Sys>, ls: seq<Label>)
    ensures RunTo(tr, ls, FIRST_ENSURED)
  {
    var s1 := INIT.(procs := map[1 := Waiting(FIRST)]);
    var s2 := INIT.(lock := Some(1), procs := map[1 := Holding(FIRST)]);
    tr, ls := Then([INIT], [], INIT, Arrive(1, FIRST), s1);
    tr, ls := Then(tr, ls, s1, Acquire(1), s2);
    tr, ls := Then(tr, ls, s2, Ensure(1), FIRST_ENSURED);
  }

  /** One mutation. */
  lemma RunMutation(was: Content) returns (tr: seq<Sys>, ls: seq<Label>)
    ensures RunTo(tr, ls, AfterMutation(was))
  {
    tr, ls := RunStart();
    var s4 := FIRST_ENSURED.(procs := map[1 := Checked(FIRST, 0)]);
    var s5 := FIRST_ENSURED.(procs := map[1 := Loaded(FIRST, 0, map[])]);
    assert s5.procs - {1} == map[];
    tr, ls := Then(tr, ls, FIRST_ENSURED, ReadRevision(1), s4);
    tr, ls := Then(tr, ls, s4, ReadItems(1), s5);
    tr, ls := Then(tr, ls, s5, Write(1, was), AfterMutation(was));
  }

  /** A `get`, then a mutation that expects what it returned, up to its
      revision check. */
  lemma RunCheck(tr0: seq<Sys>, ls0: seq<Label>, was: Content) returns (tr: seq<Sys>, ls: seq<Label>)
    requires RunTo(tr0, ls0, AfterMutation(was))
    ensures RunTo(tr, ls, AfterCheck(was))
  {
    var s := AfterMutation(was);
    var s1 := Goes(s, 1, Reading(1));
    var s2 := s.(gets := [(1, was)]);
    var s3 := Goes(s2, 2, Waiting(SECOND));
    var s4 := Goes(s3.(lock := Some(2)), 2, Holding(SECOND));
    var s5 := Goes(s4, 2, Ensured(SECOND));
    tr, ls := Then(tr0, ls0, s, GetRow(1), s1);
    tr, ls := Then(tr, ls, s1, GetItems(1), s2);
    tr, ls := Then(tr, ls, s2, Arrive(2, SECOND), s3);
    tr, ls := Then(tr, ls, s3, Acquire(2), s4);
    tr, ls := Then(tr, ls, s4, Ensure(2), s5);
    tr, ls := Then(tr, ls, s5, ReadRevision(2), AfterCheck(was));
  }

  /** A repair by `validate`, between that check and its read of the items. */
  lemma RunRepair(tr0: seq<Sys>, ls0: seq<Label>, was: Content, repaired: Content)
    returns (tr: seq<Sys>, ls: seq<Label>)
    requires RunTo(tr0, ls0, AfterCheck(was)) && was != map[]
    ensures RunTo(tr, ls, AfterRepair(was, repaired))
  {
    var s := AfterCheck(was);
    var s1 := s.(procs := map[2 := Checked(SECOND, 1), 3 := Validating(was)]);
    assert s1.procs - {3} == s.procs;
    tr, ls := Then(tr0, ls0, s, ValidateRead(3), s1);
    tr, ls := Then(tr, ls, s1, ValidateWrite(3, repaired), Replaced(s, repaired));
    tr, ls := Then(tr, ls, Replaced(s, repaired), ReadItems(2), AfterRepair(was, repaired));
  }

  /** With `validate` about, a write can expect what `get` returned and still
      run on something else, two revisions on. */
  lemma ValidateBreaksTheGuarantee(was: Content, repaired: Content, output: Content)
    returns (tr: seq<Sys>, ls: seq<Label>)
    requires repaired != was && was != map[]
    ensures Behavior(tr, ls) && |ls| > 0 && ls[|ls| - 1] == Write(2, output)
    ensures tr[|ls| - 1].gets == [(1, was)]
    ensures 2 in tr[|ls| - 1].procs && tr[|ls| - 1].procs[2] == Loaded(Job(Some(1), false), 1, repaired)
    ensures tr[|ls|].rows == output && tr[|ls|].revision == 3
  {
    tr, ls := RunMutation(was);
    tr, ls := RunCheck(tr, ls, was);
    tr, ls := RunRepair(tr, ls, was, repaired);
    var c := AfterRepair(was, repaired);
    tr, ls := Then(tr, ls, c, Write(2, output), Do(c, Write(2, output)));
  }
}
