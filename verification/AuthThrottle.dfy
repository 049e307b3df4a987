/** The authentication throttle (terminal_mcp/auth_throttle.py): a bounded table
    of sources, exponential backoff, and reclaim under pressure. Time is real;
    every call is given the time it read, which under concurrency need not be
    in the order in which the calls take the lock. */
module AuthThrottle {
  import opened Collections
  import opened Options

  type Source = string

  datatype Entry = Entry(failures: nat, lockedUntil: real, lastSeen: real, lockouts: nat)

  const NEW_ENTRY := Entry(0, 0.0, 0.0, 0)

  /** threshold and maxTracked are clamped to at least 1 by the constructor. */
  datatype Config = Config(threshold: nat, base: real, cap: real, maxTracked: nat, ttl: real)

  predicate ConfigOk(c: Config) { c.threshold >= 1 && c.maxTracked >= 1 }

  const DEFAULTS := Config(5, 5.0, 900.0, 4096, 3600.0)

  type Table = map<Source, Entry>

  datatype Reason = TableFull | LockedOut

  datatype Decision = Allowed | Denied(retryAfter: real, reason: Reason)

  function Pow2(n: nat): nat { if n == 0 then 1 else 2 * Pow2(n - 1) }

  /** The wait after failure number threshold + i. */
  function Backoff(c: Config, i: nat): real {
    var w := c.base * (Pow2(i) as real);
    if w < c.cap then w else c.cap
  }

  // -------------------------------------------------------------------- calls

  predicate Stale(c: Config, e: Entry, now: real) { e.lockedUntil <= now && now - e.lastSeen > c.ttl }

  function Reclaimed(c: Config, t: Table, now: real): Table {
    if |t| < c.maxTracked then t else map k | k in t && !Stale(c, t[k], now) :: t[k]
  }

  function Checked(c: Config, t: Table, key: Source, now: real): (Table, Decision) {
    var r := Reclaimed(c, t, now);
    if key !in r then (r, if |r| >= c.maxTracked then Denied(c.base, TableFull) else Allowed)
    else
      (r[key := r[key].(lastSeen := now)],
       if r[key].lockedUntil - now > 0.0 then Denied(r[key].lockedUntil - now, LockedOut) else Allowed)
  }

  /** One more failure of an entry. */
  function Failed(c: Config, e: Entry, now: real): (Entry, Decision) {
    var n := e.failures + 1;
    if n < c.threshold then (e.(failures := n, lastSeen := now), Allowed)
    else
      var w := Backoff(c, n - c.threshold);
      (Entry(n, now + w, now, e.lockouts + 1), Denied(w, LockedOut))
  }

  function FailureRecorded(c: Config, t: Table, key: Source, now: real): (Table, Decision) {
    var r := Reclaimed(c, t, now);
    if key !in r && |r| >= c.maxTracked then (r, Denied(c.base, TableFull))
    else
      var (e, d) := Failed(c, if key in r then r[key] else NEW_ENTRY, now);
      (r[key := e], d)
  }

  class Throttle {
    const config: Config
    var entries: Table

    constructor (threshold: int, base: real, cap: real, maxTracked: int, ttl: real)
      ensures ConfigOk(config) && entries == map[]
      ensures config == Config(if threshold < 1 then 1 else threshold, base, cap, if maxTracked < 1 then 1 else maxTracked, ttl)
    {
      config := Config(if threshold < 1 then 1 else threshold, base, cap, if maxTracked < 1 then 1 else maxTracked, ttl);
      entries := map[];
    }

    /** _reclaim: collect the stale keys, then pop them one by one. */
    method Reclaim(now: real)
      modifies this
      ensures entries == Reclaimed(config, old(entries), now)
    {
      if |entries| < config.maxTracked {
        return;
      }
      var stale := set k | k in entries && Stale(config, entries[k], now);
      ghost var all := stale;
      while stale != {}
        invariant stale <= all
        invariant entries == map k | k in old(entries) && (k !in all || k in stale) :: old(entries)[k]
        decreases stale
      {
        var key :| key in stale;
        stale := stale - {key};
        entries := entries - {key};
      }
    }

    method Check(key: Source, now: real) returns (d: Decision)
      modifies this
      ensures (entries, d) == Checked(config, old(entries), key, now)
    {
      Reclaim(now);
      if key !in entries {
        return if |entries| >= config.maxTracked then Denied(config.base, TableFull) else Allowed;
      }
      var remaining := entries[key].lockedUntil - now;
      entries := entries[key := entries[key].(lastSeen := now)];
      return if remaining > 0.0 then Denied(remaining, LockedOut) else Allowed;
    }

    method RecordFailure(key: Source, now: real) returns (d: Decision)
      modifies this
      ensures (entries, d) == FailureRecorded(config, old(entries), key, now)
    {
      Reclaim(now);
      ghost var r := entries;
      if key !in entries {
        if |entries| >= config.maxTracked {
          return Denied(config.base, TableFull);
        }
        entries := entries[key := NEW_ENTRY];
      }
      var e := entries[key].(failures := entries[key].failures + 1, lastSeen := now);
      assert entries[key := e] == r[key := e];
      if e.failures < config.threshold {
        entries := entries[key := e];
        return Allowed;
      }
      var wait := Backoff(config, e.failures - config.threshold);
      e := e.(lockedUntil := now + wait, lockouts := e.lockouts + 1);
      assert entries[key := e] == r[key := e];
      entries := entries[key := e];
      return Denied(wait, LockedOut);
    }

    method RecordSuccess(key: Source)
      modifies this
      ensures entries == old(entries) - {key}
    {
      entries := entries - {key};
    }
  }

  // --------------------------------------------------------------------- runs

  datatype Op = Check(key: Source, now: real) | Fail(key: Source, now: real) | Succeed(key: Source)

  function Apply(c: Config, t: Table, op: Op): Table {
    match op
    case Check(key, now) => Checked(c, t, key, now).0
    case Fail(key, now) => FailureRecorded(c, t, key, now).0
    case Succeed(key) => t - {key}
  }

  function Front(ops: seq<Op>): seq<Op> requires ops != [] { ops[..|ops| - 1] }
  function Last(ops: seq<Op>): Op requires ops != [] { ops[|ops| - 1] }

  /** The table after a run from the empty one. */
  function Run(c: Config, ops: seq<Op>): Table {
    if ops == [] then map[] else Apply(c, Run(c, Front(ops)), Last(ops))
  }

  // -------------------------------------------------------------- the table

  lemma SubmapSize(a: Table, b: Table)
    requires a.Keys <= b.Keys
    ensures |a| <= |b|
  {
    SubsetSize(a.Keys, b.Keys);
    assert |a| == |a.Keys| && |b| == |b.Keys|;
  }

  lemma ReclaimShrinks(c: Config, t: Table, now: real)
    ensures Reclaimed(c, t, now).Keys <= t.Keys && |Reclaimed(c, t, now)| <= |t|
    ensures forall k :: k in Reclaimed(c, t, now) ==> Reclaimed(c, t, now)[k] == t[k]
  {
    SubmapSize(Reclaimed(c, t, now), t);
  }

  lemma OneMoreAtMost(t: Table, key: Source, e: Entry)
    ensures |t[key := e]| == if key in t then |t| else |t| + 1
  {
    assert t[key := e].Keys == t.Keys + {key};
    assert |t[key := e]| == |t[key := e].Keys| && |t| == |t.Keys|;
  }

  /** In every run, whatever the times, the table stays within its bound. */
  lemma {:induction false} TableIsBounded(c: Config, ops: seq<Op>)
    requires ConfigOk(c)
    ensures |Run(c, ops)| <= c.maxTracked
  {
    if ops != [] {
      TableIsBounded(c, Front(ops));
      var t, op := Run(c, Front(ops)), Last(ops);
      match op
      case Succeed(key) => SubmapSize(t - {key}, t);
      case Check(key, now) =>
        ReclaimShrinks(c, t, now);
        var r := Reclaimed(c, t, now);
        if key in r {
          OneMoreAtMost(r, key, r[key].(lastSeen := now));
        }
      case Fail(key, now) =>
        ReclaimShrinks(c, t, now);
        var r := Reclaimed(c, t, now);
        OneMoreAtMost(r, key, Failed(c, if key in r then r[key] else NEW_ENTRY, now).0);
    }
  }

  /** Any timed call reclaims an entry, its own source's included, exactly when
      the table was full and the entry is not locked and has been idle longer than
      the TTL. Another source's call then leaves it out; its own starts afresh.
      While an entry is locked, no call drops it or forgets its failures. */
  lemma DroppedIff(c: Config, t: Table, op: Op, k: Source)
    requires k in t && !op.Succeed?
    ensures k !in Reclaimed(c, t, op.now) <==>
            |t| >= c.maxTracked && t[k].lockedUntil <= op.now && op.now - t[k].lastSeen > c.ttl
    ensures op.key != k ==> (k !in Apply(c, t, op) <==> k !in Reclaimed(c, t, op.now))
    ensures k !in Reclaimed(c, t, op.now) && op == Check(k, op.now) ==> k !in Apply(c, t, op)
    ensures k !in Reclaimed(c, t, op.now) && op == Fail(k, op.now) && |t| <= c.maxTracked ==>
              k in Apply(c, t, op) && Apply(c, t, op)[k] == Failed(c, NEW_ENTRY, op.now).0
    ensures t[k].lockedUntil > op.now ==> k in Apply(c, t, op) && Apply(c, t, op)[k].failures >= t[k].failures
  {
    if k !in Reclaimed(c, t, op.now) {
      DropShrinks(Reclaimed(c, t, op.now), t, k);
    }
  }

  lemma DropShrinks(a: Table, b: Table, k: Source)
    requires a.Keys <= b.Keys && k in b && k !in a
    ensures |a| < |b|
  {
    SubsetSize(a.Keys, b.Keys - {k});
    assert |a| == |a.Keys| && |b| == |b.Keys|;
  }

  ghost predicate Monotone(ops: seq<Op>) {
    forall i, j :: 0 <= i < j < |ops| && !ops[i].Succeed? && !ops[j].Succeed? ==> ops[i].now <= ops[j].now
  }

  lemma {:induction false} LastSeenIsLast(c: Config, ops: seq<Op>, k: Source, i: nat)
    requires Monotone(ops) && i < |ops| && !ops[i].Succeed? && ops[i].key == k && k in Run(c, ops)
    ensures Run(c, ops)[k].lastSeen >= ops[i].now
  {
    var t, op := Run(c, Front(ops)), Last(ops);
    if !op.Succeed? {
      ReclaimShrinks(c, t, op.now);
    }
    if op.Succeed? || op.key != k {
      LastSeenIsLast(c, Front(ops), k, i);
    }
  }

  /** With a monotone clock, a source whose entry is reclaimed, by whoever's call,
      has made no call for longer than the TTL. */
  lemma {:induction false} ReclaimCostsIdleness(c: Config, ops: seq<Op>, k: Source, i: nat)
    requires Monotone(ops) && ops != [] && k in Run(c, Front(ops)) && !Last(ops).Succeed?
    requires k !in Reclaimed(c, Run(c, Front(ops)), Last(ops).now)
    requires i < |ops| - 1 && !ops[i].Succeed? && ops[i].key == k
    ensures Last(ops).now - ops[i].now > c.ttl
  {
    LastSeenIsLast(c, Front(ops), k, i);
  }
}
