/** What a success gives back, and how failures are spaced in time, over all
    runs of the throttle (terminal_mcp/auth_throttle.py). */
module ThrottleBounds {
  import opened Options
  import opened AuthThrottle

  // ----------------------------------------------------------------- recovery

  /** How often k failed, recorded or not, since it last succeeded. */
  function FailuresSinceSuccess(ops: seq<Op>, k: Source): nat {
    if ops == [] then 0
    else if Last(ops).key != k then FailuresSinceSuccess(Front(ops), k)
    else match Last(ops)
      case Check(_, _) => FailuresSinceSuccess(Front(ops), k)
      case Fail(_, _) => FailuresSinceSuccess(Front(ops), k) + 1
      case Succeed(_) => 0
  }

  lemma {:induction false} EntryCountsSinceSuccess(c: Config, ops: seq<Op>, k: Source)
    ensures k in Run(c, ops) ==>
              && Run(c, ops)[k].failures <= FailuresSinceSuccess(ops, k)
              && (Run(c, ops)[k].failures < c.threshold ==> Run(c, ops)[k].lockedUntil == 0.0)
  {
    if ops != [] {
      EntryCountsSinceSuccess(c, Front(ops), k);
      if !Last(ops).Succeed? {
        ReclaimShrinks(c, Run(c, Front(ops)), Last(ops).now);
      }
    }
  }

  /** A success gives the source its whole allowance back: in every run, only a
      source that failed at least `threshold` times since its last success is
      ever told that it is locked out. The monotonic clock is never negative. */
  lemma {:induction false} OnlyFailuresSinceSuccessLock(c: Config, ops: seq<Op>, k: Source, now: real)
    requires now >= 0.0
    ensures var d := Checked(c, Run(c, ops), k, now).1;
            d.Denied? && d.reason.LockedOut? ==> FailuresSinceSuccess(ops, k) >= c.threshold
  {
    EntryCountsSinceSuccess(c, ops, k);
    ReclaimShrinks(c, Run(c, ops), now);
  }

  // ------------------------------------------------------------ attempt bound

  /** The recorded failures of source k, by time. */
  function Times(c: Config, ops: seq<Op>, k: Source): seq<real> {
    if ops == [] then []
    else
      var before := Times(c, Front(ops), k);
      if Last(ops).Fail? && Last(ops).key == k && k in Run(c, ops) then before + [Last(ops).now] else before
  }

  /** k never succeeds, and its entry is never reclaimed. The other sources do
      what they like. */
  ghost predicate Undisturbed(c: Config, ops: seq<Op>, k: Source)
    decreases |ops|
  {
    ops != [] ==>
      && Undisturbed(c, Front(ops), k)
      && (k in Run(c, Front(ops)) && !Last(ops).Succeed? ==> k in Reclaimed(c, Run(c, Front(ops)), Last(ops).now))
      && (Last(ops).key == k ==> !Last(ops).Succeed?)
  }

  /** Every failure of k that met a locked entry was recorded when its lockout
      was over. */
  ghost predicate OnlyAfterLockout(c: Config, ops: seq<Op>, k: Source)
    decreases |ops|
  {
    ops != [] ==>
      && OnlyAfterLockout(c, Front(ops), k)
      && (Last(ops).Fail? && Last(ops).key == k && k in Run(c, Front(ops)) && Run(c, Front(ops))[k].failures >= c.threshold ==>
            Last(ops).now >= Run(c, Front(ops))[k].lockedUntil)
  }

  /** From failure number threshold + 1 on, each comes at least its wait after
      the one before it. */
  ghost predicate EachWaits(c: Config, times: seq<real>)
    requires ConfigOk(c)
  {
    forall j :: c.threshold <= j < |times| ==> times[j] - times[j - 1] >= Backoff(c, j - c.threshold)
  }

  /** What the entry of k knows of its failures. */
  ghost predicate EntryFits(c: Config, e: Entry, times: seq<real>)
    requires ConfigOk(c)
  {
    && e.failures == |times| && times != []
    && e.lockouts == (if |times| < c.threshold then 0 else |times| - c.threshold + 1)
    && (|times| >= c.threshold ==> e.lockedUntil == times[|times| - 1] + Backoff(c, |times| - c.threshold))
  }

  ghost predicate RunFits(c: Config, ops: seq<Op>, k: Source)
    requires ConfigOk(c)
  {
    if k in Run(c, ops) then EntryFits(c, Run(c, ops)[k], Times(c, ops, k)) else Times(c, ops, k) == []
  }

  lemma FailureFits(c: Config, e: Entry, times: seq<real>, now: real)
    requires ConfigOk(c) && (EntryFits(c, e, times) || (e == NEW_ENTRY && times == []))
    ensures EntryFits(c, Failed(c, e, now).0, times + [now])
    ensures EachWaits(c, times + [now]) <==> EachWaits(c, times) && (e.failures >= c.threshold ==> now >= e.lockedUntil)
  {
    hide Backoff;
    var more := times + [now];
    assert forall j :: 0 <= j < |times| ==> more[j] == times[j];
    if EachWaits(c, more) && e.failures >= c.threshold {
      assert more[|times|] - more[|times| - 1] >= Backoff(c, |times| - c.threshold);
    }
    if EachWaits(c, more) {
      forall j | c.threshold <= j < |times|
        ensures times[j] - times[j - 1] >= Backoff(c, j - c.threshold)
      {
        assert more[j] - more[j - 1] >= Backoff(c, j - c.threshold);
      }
    }
  }

  /** A call by another source leaves k's entry as it was, or drops it. */
  lemma OthersKeep(c: Config, t: Table, op: Op, k: Source)
    requires op.key != k
    ensures k in Apply(c, t, op) ==> k in t && Apply(c, t, op)[k] == t[k]
    ensures k in t && (op.Succeed? || k in Reclaimed(c, t, op.now)) ==> k in Apply(c, t, op)
  {
  }

  /** A check leaves the failures and the lockout alone. */
  lemma CheckKeeps(c: Config, t: Table, k: Source, now: real)
    ensures var (t', d) := Checked(c, t, k, now);
            && (k in t' ==> k in t && t'[k] == t[k].(lastSeen := now) && (d.Allowed? ==> now >= t[k].lockedUntil))
            && (k in Reclaimed(c, t, now) ==> k in t')
  {
  }

  lemma {:induction false} UndisturbedFits(c: Config, ops: seq<Op>, k: Source)
    requires ConfigOk(c) && Undisturbed(c, ops, k)
    ensures RunFits(c, ops, k)
    ensures EachWaits(c, Times(c, ops, k)) <==> OnlyAfterLockout(c, ops, k)
  {
    hide EntryFits, EachWaits, Failed, Checked;
    if ops != [] {
      var front, op := Front(ops), Last(ops);
      UndisturbedFits(c, front, k);
      var t, times := Run(c, front), Times(c, front, k);
      if op.key != k {
        OthersKeep(c, t, op, k);
      } else if op.Check? {
        CheckKeeps(c, t, k, op.now);
        if k in t {
          SeenStillFits(c, t[k], times, op.now);
        }
      } else if k in t || k in Run(c, ops) {
        FailureFits(c, if k in t then t[k] else NEW_ENTRY, times, op.now);
        assert Times(c, ops, k) == times + [op.now];
      }
    } else {
      NoTimes(c);
    }
  }

  lemma NoTimes(c: Config)
    requires ConfigOk(c)
    ensures EachWaits(c, [])
  {
  }

  lemma SeenStillFits(c: Config, e: Entry, times: seq<real>, now: real)
    requires ConfigOk(c) && EntryFits(c, e, times)
    ensures EntryFits(c, e.(lastSeen := now), times)
  {
  }

  /** Whatever the order of the calls and their clock readings: each failure
      from number threshold + 1 on waits for its predecessor's lockout if and
      only if each was recorded when the entry it met was no longer locked, the
      very thing check tests. */
  lemma {:induction false} EachFailureWaitsIff(c: Config, ops: seq<Op>, k: Source)
    requires ConfigOk(c) && Undisturbed(c, ops, k)
    ensures EachWaits(c, Times(c, ops, k)) <==> OnlyAfterLockout(c, ops, k)
  {
    UndisturbedFits(c, ops, k);
  }

  // ------------------------------------------------- what a source is told

  /** When the lockout after the given failures ends. */
  function LockoutEnds(c: Config, times: seq<real>): real
    requires ConfigOk(c) && |times| >= c.threshold
  {
    times[|times| - 1] + Backoff(c, |times| - c.threshold)
  }

  /** A source whose entry is still there is allowed exactly when it failed less
      than threshold times or the wait after its last failure is over; otherwise it
      is told how long it still has to wait. The monotonic clock is never
      negative. */
  lemma {:induction false} CheckIsAllowedIff(c: Config, ops: seq<Op>, k: Source, now: real)
    requires ConfigOk(c) && Undisturbed(c, ops, k) && now >= 0.0
    requires k in Run(c, ops) && k in Reclaimed(c, Run(c, ops), now)
    ensures var d, times := Checked(c, Run(c, ops), k, now).1, Times(c, ops, k);
            && (d.Allowed? <==> |times| < c.threshold || now >= LockoutEnds(c, times))
            && (d.Denied? ==> d == Denied(LockoutEnds(c, times) - now, LockedOut))
  {
    hide Run, Times, Undisturbed, Backoff;
    UndisturbedFits(c, ops, k);
    EntryCountsSinceSuccess(c, ops, k);
    ReclaimShrinks(c, Run(c, ops), now);
  }

  /** The entries that a call at `now` keeps when the table is full. */
  function Kept(c: Config, t: Table, now: real): set<Source> {
    set j | j in t && !(t[j].lockedUntil <= now && now - t[j].lastSeen > c.ttl)
  }

  /** A source without an entry, or whose entry this call drops, is turned away
      exactly when the table is full and stays full without its stale entries; and
      its failure is then not recorded. */
  lemma UnknownIsDeniedIff(c: Config, t: Table, k: Source, now: real)
    requires k !in t || k !in Reclaimed(c, t, now)
    ensures var d := Checked(c, t, k, now).1;
            && (d.Denied? <==> |t| >= c.maxTracked && |Kept(c, t, now)| >= c.maxTracked)
            && (d.Denied? ==> d == Denied(c.base, TableFull))
    ensures k in FailureRecorded(c, t, k, now).0 <==> !(|t| >= c.maxTracked && |Kept(c, t, now)| >= c.maxTracked)
    ensures k !in FailureRecorded(c, t, k, now).0 ==> FailureRecorded(c, t, k, now).1 == Denied(c.base, TableFull)
  {
    var r := Reclaimed(c, t, now);
    ReclaimShrinks(c, t, now);
    if |t| >= c.maxTracked {
      assert r.Keys == Kept(c, t, now);
      assert |r| == |r.Keys|;
    }
  }

  /** What a recorded failure answers, and how long it locks: nothing below the
      threshold, and from there on the base wait doubled for each further failure,
      up to the cap. */
  lemma {:induction false} FailureAnswers(c: Config, ops: seq<Op>, k: Source, now: real)
    requires ConfigOk(c) && Undisturbed(c, ops, k)
    requires k in Run(c, ops) ==> k in Reclaimed(c, Run(c, ops), now)
    requires k in FailureRecorded(c, Run(c, ops), k, now).0
    ensures var (t, d) := FailureRecorded(c, Run(c, ops), k, now);
            var n := |Times(c, ops, k)| + 1;
            && t[k].failures == n && t[k].lastSeen == now
            && t[k].lockouts == (if n < c.threshold then 0 else n - c.threshold + 1)
            && (if n < c.threshold then d == Allowed else d == Denied(Backoff(c, n - c.threshold), LockedOut))
  {
    hide Run, Times, Undisturbed, Backoff;
    UndisturbedFits(c, ops, k);
    ReclaimShrinks(c, Run(c, ops), now);
  }

  /** The time of k's last allowed check, until its next attempt uses it up. */
  function Pending(c: Config, ops: seq<Op>, k: Source): Option<real> {
    if ops == [] then None
    else if Last(ops).key != k then Pending(c, Front(ops), k)
    else if Last(ops).Check? && Checked(c, Run(c, Front(ops)), k, Last(ops).now).1.Allowed? then Some(Last(ops).now)
    else None
  }

  /** Every recorded failure of k uses up an allowed check of its own. */
  ghost predicate ChecksFirst(c: Config, ops: seq<Op>, k: Source)
    decreases |ops|
  {
    ops != [] ==>
      && ChecksFirst(c, Front(ops), k)
      && (Last(ops).key == k && Last(ops).Fail? ==>
            Pending(c, Front(ops), k).Some? && Pending(c, Front(ops), k).value <= Last(ops).now)
  }

  /** A source whose attempts do not overlap keeps to the guard. */
  lemma {:induction false} CheckingFirstWaits(c: Config, ops: seq<Op>, k: Source)
    requires Undisturbed(c, ops, k) && ChecksFirst(c, ops, k)
    ensures OnlyAfterLockout(c, ops, k)
    ensures Pending(c, ops, k).Some? && k in Run(c, ops) ==> Pending(c, ops, k).value >= Run(c, ops)[k].lockedUntil
  {
    hide Checked, Failed;
    if ops != [] {
      var front, op := Front(ops), Last(ops);
      CheckingFirstWaits(c, front, k);
      if op.key != k {
        OthersKeep(c, Run(c, front), op, k);
      } else if op.Check? {
        CheckKeeps(c, Run(c, front), k, op.now);
      }
    }
  }

  /** The waits after the first n failures from number threshold on. */
  function Waits(c: Config, n: nat): real {
    if n == 0 then 0.0 else Waits(c, n - 1) + Backoff(c, n - 1)
  }

  lemma {:induction false} WaitsAddUp(c: Config, times: seq<real>, j: nat)
    requires ConfigOk(c) && EachWaits(c, times) && c.threshold - 1 + j < |times|
    ensures times[c.threshold - 1 + j] - times[c.threshold - 1] >= Waits(c, j)
  {
    if j > 0 {
      WaitsAddUp(c, times, j - 1);
      assert times[c.threshold - 1 + j] - times[c.threshold - 1 + j - 1] >= Backoff(c, c.threshold - 1 + j - c.threshold);
    }
  }

  /** However the calls of other sources fall in between, failure number
      threshold + j of a source that attempts once per allowed check comes at
      least the first j waits after failure number threshold. */
  lemma {:induction false} AttemptBound(c: Config, ops: seq<Op>, k: Source, j: nat)
    requires ConfigOk(c) && Undisturbed(c, ops, k) && ChecksFirst(c, ops, k) && c.threshold - 1 + j < |Times(c, ops, k)|
    ensures Times(c, ops, k)[c.threshold - 1 + j] - Times(c, ops, k)[c.threshold - 1] >= Waits(c, j)
  {
    CheckingFirstWaits(c, ops, k);
    EachFailureWaitsIff(c, ops, k);
    WaitsAddUp(c, Times(c, ops, k), j);
  }

  lemma {:induction false} DefaultBackoff(i: nat)
    ensures i >= 8 ==> Backoff(DEFAULTS, i) == 900.0
    ensures Pow2(i) >= 1 && (i >= 8 ==> Pow2(i) >= 256)
  {
    if i == 8 {
      DefaultWaits();
    } else if i > 0 {
      DefaultBackoff(i - 1);
    }
    assert DEFAULTS.base * (Pow2(i) as real) == 5.0 * (Pow2(i) as real);
  }

  lemma DefaultWaits()
    ensures Pow2(0) == 1 && Pow2(1) == 2 && Pow2(2) == 4 && Pow2(3) == 8 && Pow2(4) == 16
    ensures Pow2(5) == 32 && Pow2(6) == 64 && Pow2(7) == 128 && Pow2(8) == 256
    ensures Waits(DEFAULTS, 8) == 1275.0
  {
    assert Waits(DEFAULTS, 2) == 15.0;
    assert Waits(DEFAULTS, 4) == 75.0;
    assert Waits(DEFAULTS, 6) == 315.0;
  }

  /** With the shipped settings: 1275 seconds for the eight failures after the
      fifth, and a quarter of an hour for each one after that. */
  lemma {:induction false} DefaultSchedule(n: nat)
    ensures Waits(DEFAULTS, 8 + n) == 1275.0 + 900.0 * (n as real)
  {
    if n == 0 {
      DefaultWaits();
    } else {
      DefaultSchedule(n - 1);
      DefaultBackoff(8 + n - 1);
    }
  }

  /** n checks and then m failures, all in one moment. */
  function Burst(k: Source, now: real, n: nat, m: nat): seq<Op> {
    if m > 0 then Burst(k, now, n, m - 1) + [Fail(k, now)]
    else if n > 0 then Burst(k, now, n - 1, 0) + [Check(k, now)]
    else []
  }

  lemma {:induction false} RunOfOneMore(c: Config, ops: seq<Op>, op: Op, k: Source)
    ensures Run(c, ops + [op]) == Apply(c, Run(c, ops), op)
    ensures Times(c, ops + [op], k)
            == if op.Fail? && op.key == k && k in Run(c, ops + [op]) then Times(c, ops, k) + [op.now] else Times(c, ops, k)
    ensures Undisturbed(c, ops + [op], k) <==>
            && Undisturbed(c, ops, k)
            && (k in Run(c, ops) && !op.Succeed? ==> k in Reclaimed(c, Run(c, ops), op.now))
            && (op.key == k ==> !op.Succeed?)
  {
    assert Front(ops + [op]) == ops && Last(ops + [op]) == op;
  }

  lemma {:induction false} NothingRun(c: Config, k: Source)
    ensures Run(c, []) == map[] && Times(c, [], k) == [] && Undisturbed(c, [], k)
  {
  }

  lemma {:induction false} ChecksOnly(c: Config, k: Source, now: real, n: nat)
    requires ConfigOk(c)
    ensures Run(c, Burst(k, now, n, 0)) == map[] && Times(c, Burst(k, now, n, 0), k) == []
    ensures Undisturbed(c, Burst(k, now, n, 0), k) && |Burst(k, now, n, 0)| == n
    ensures Checked(c, map[], k, now).1.Allowed?
  {
    hide Run, Times, Undisturbed;
    NothingRun(c, k);
    if n > 0 {
      ChecksOnly(c, k, now, n - 1);
      RunOfOneMore(c, Burst(k, now, n - 1, 0), Check(k, now), k);
    }
  }

  lemma {:induction false} ThenFailures(c: Config, k: Source, now: real, n: nat, m: nat)
    requires ConfigOk(c) && c.ttl >= 0.0
    ensures var ops := Burst(k, now, n, m);
            && Undisturbed(c, ops, k) && |Times(c, ops, k)| == m && |ops| == n + m
            && (forall i :: 0 <= i < m ==> Times(c, ops, k)[i] == now)
            && Run(c, ops).Keys == (if m == 0 then {} else {k})
            && (m > 0 ==> Run(c, ops)[k].lastSeen == now)
  {
    if m == 0 {
      ChecksOnly(c, k, now, n);
    } else {
      ThenFailures(c, k, now, n, m - 1);
      var before := Burst(k, now, n, m - 1);
      RunOfOneMore(c, before, Fail(k, now), k);
      OneFailure(c, Run(c, before), k, now);
    }
  }

  lemma OneFailure(c: Config, t: Table, k: Source, now: real)
    requires ConfigOk(c) && c.ttl >= 0.0 && (t.Keys == {} || (t.Keys == {k} && t[k].lastSeen == now))
    ensures Reclaimed(c, t, now) == t
    ensures Apply(c, t, Fail(k, now)).Keys == {k} && Apply(c, t, Fail(k, now))[k].lastSeen == now
  {
    assert |t| == |t.Keys|;
  }

  lemma {:induction false} BurstStartsWithChecks(k: Source, now: real, n: nat, m: nat, i: nat)
    requires i <= n
    ensures i <= |Burst(k, now, n, m)| && Burst(k, now, n, m)[..i] == Burst(k, now, i, 0)
    ensures i < n ==> i < |Burst(k, now, n, m)| && Burst(k, now, n, m)[i] == Check(k, now)
    decreases n + m
  {
    if m > 0 {
      BurstStartsWithChecks(k, now, n, m - 1, i);
    } else if i < n {
      BurstStartsWithChecks(k, now, n - 1, 0, i);
      if i == n - 1 {
        BurstLength(k, now, n - 1);
      }
    } else {
      BurstLength(k, now, n);
    }
  }

  lemma {:induction false} BurstLength(k: Source, now: real, n: nat)
    ensures |Burst(k, now, n, 0)| == n
  {
    if n > 0 {
      BurstLength(k, now, n - 1);
    }
  }

  /** Checks made in parallel escape the bound: for any settings that lock at all
      there is a run without success or reclaim in which each failure has an
      allowed check of its own, and failures number threshold and threshold + 1
      share one moment. */
  lemma ParallelGuessesSkipTheWait(c: Config, k: Source, now: real) returns (ops: seq<Op>)
    requires ConfigOk(c) && c.base > 0.0 && c.cap > 0.0 && c.ttl >= 0.0
    ensures Undisturbed(c, ops, k) && |Times(c, ops, k)| == c.threshold + 1
    ensures |ops| == 2 * (c.threshold + 1)
    ensures forall i :: 0 <= i <= c.threshold ==>
              ops[i] == Check(k, now) && Checked(c, Run(c, ops[..i]), k, now).1.Allowed?
    ensures !EachWaits(c, Times(c, ops, k))
  {
    var n := c.threshold + 1;
    ops := Burst(k, now, n, n);
    ThenFailures(c, k, now, n, n);
    forall i | 0 <= i < n
      ensures ops[i] == Check(k, now) && Checked(c, Run(c, ops[..i]), k, now).1.Allowed?
    {
      BurstStartsWithChecks(k, now, n, n, i);
      ChecksOnly(c, k, now, i);
    }
    var times := Times(c, ops, k);
    assert Backoff(c, 0) > 0.0;
    assert times[c.threshold] - times[c.threshold - 1] < Backoff(c, c.threshold - c.threshold);
  }
}
