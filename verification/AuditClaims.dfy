/** Idempotency claims (terminal_mcp/audit.py). A claim reads the clock, then
    inserts or reclaims in one transaction that reads the clock again; the row
    it writes carries the first reading. */
module AuditClaims {
  import opened Options

  type Key = string

  datatype Row = Row(created: real, result: Option<string>)

  /** INSERT OR IGNORE, then the conditional UPDATE, of one transaction. */
  function ClaimRow(row: Option<Row>, now: real, cutoff: real): (Row, bool) {
    match row
    case None => (Row(now, None), true)
    case Some(r) => if r.result.None? && r.created < cutoff then (r.(created := now), true) else (r, false)
  }

  function RowOf(rows: map<Key, Row>, key: Key): Option<Row> { if key in rows then Some(rows[key]) else None }

  function Pruned(rows: map<Key, Row>, cutoff: real): map<Key, Row> {
    map k | k in rows && rows[k].created >= cutoff :: rows[k]
  }

  function Claimed(rows: map<Key, Row>, key: Key, now: real, cutoff: real): map<Key, Row> {
    rows[key := ClaimRow(RowOf(rows, key), now, cutoff).0]
  }

  function Stored(rows: map<Key, Row>, key: Key, result: string): map<Key, Row> {
    if key in rows then rows[key := rows[key].(result := Some(result))] else rows
  }

  function ResultOf(rows: map<Key, Row>, key: Key): Option<string> { if key in rows then rows[key].result else None }

  class IdempotentSends {
    var rows: map<Key, Row>

    constructor ()
      ensures rows == map[]
    {
      rows := map[];
    }

    /** `now` and `later` are the two clock readings. */
    method Claim(key: Key, now: real, later: real, staleAfter: real) returns (won: bool)
      modifies this
      ensures rows == Claimed(old(rows), key, now, later - staleAfter)
      ensures won == ClaimRow(RowOf(old(rows), key), now, later - staleAfter).1
    {
      if key !in rows {
        rows := rows[key := Row(now, None)];
        return true;
      }
      var cutoff := later - staleAfter;
      if rows[key].result.None? && rows[key].created < cutoff {
        rows := rows[key := rows[key].(created := now)];
        return true;
      }
      return false;
    }

    method StoreResult(key: Key, result: string)
      modifies this
      ensures rows == Stored(old(rows), key, result)
      ensures rows.Keys == old(rows).Keys
    {
      if key in rows {
        rows := rows[key := rows[key].(result := Some(result))];
      }
    }

    method GetResult(key: Key) returns (r: Option<string>)
      ensures r == ResultOf(rows, key)
    {
      r := if key in rows then rows[key].result else None;
    }

    /** Returns how many rows went. */
    method Prune(cutoff: real) returns (n: nat)
      modifies this
      ensures rows == Pruned(old(rows), cutoff)
      ensures |rows| == |old(rows)| - n
      ensures forall k :: k in rows ==> rows[k].created >= cutoff && k in old(rows) && rows[k] == old(rows)[k]
      ensures forall k :: k in old(rows) && k !in rows ==> old(rows)[k].created < cutoff
    {
      var gone := set k | k in rows && rows[k].created < cutoff;
      n := |gone|;
      ghost var all := rows;
      rows := Pruned(rows, cutoff);
      assert all.Keys == rows.Keys + gone && rows.Keys !! gone;
      assert |all.Keys| == |all| && |rows.Keys| == |rows|;
    }
  }

  // ------------------------------------------------------------- many requests

  datatype Call =
    | Claiming(key: Key, now: real, cutoff: real) | Storing(key: Key, result: string) | Pruning(cutoff: real)

  function After(rows: map<Key, Row>, calls: seq<Call>): map<Key, Row>
    decreases |calls|
  {
    if calls == [] then rows else
    match calls[0]
    case Claiming(key, now, cutoff) => After(Claimed(rows, key, now, cutoff), calls[1..])
    case Storing(key, result) => After(Stored(rows, key, result), calls[1..])
    case Pruning(cutoff) => After(Pruned(rows, cutoff), calls[1..])
  }

  /** Nothing stores another result under the key or prunes its row. */
  predicate LeaveAlone(calls: seq<Call>, key: Key, created: real) {
    forall i :: 0 <= i < |calls| ==> !(calls[i].Storing? && calls[i].key == key) && !(calls[i].Pruning? && calls[i].cutoff > created)
  }

  /** A stored result is what every later request under its key gets back, and
      no such request wins the claim, whatever other requests do meanwhile. */
  lemma {:induction false} StoredResultIsReplayed(rows: map<Key, Row>, key: Key, result: string, calls: seq<Call>, now: real, cutoff: real)
    requires key in rows && LeaveAlone(calls, key, rows[key].created)
    ensures var later := After(Stored(rows, key, result), calls);
            && ResultOf(later, key) == Some(result)
            && !ClaimRow(RowOf(later, key), now, cutoff).1
  {
    RowOutlives(Stored(rows, key, result), key, calls);
  }

  lemma {:induction false} RowOutlives(rows: map<Key, Row>, key: Key, calls: seq<Call>)
    requires key in rows && rows[key].result.Some? && LeaveAlone(calls, key, rows[key].created)
    ensures key in After(rows, calls) && After(rows, calls)[key] == rows[key]
    decreases |calls|
  {
    if calls != [] {
      var next := match calls[0]
        case Claiming(k, now, cutoff) => Claimed(rows, k, now, cutoff)
        case Storing(k, result) => Stored(rows, k, result)
        case Pruning(cutoff) => Pruned(rows, cutoff);
      assert !(calls[0].Storing? && calls[0].key == key) && !(calls[0].Pruning? && calls[0].cutoff > rows[key].created);
      assert key in next && next[key] == rows[key];
      assert forall i :: 0 <= i < |calls[1..]| ==> calls[1..][i] == calls[i + 1];
      RowOutlives(next, key, calls[1..]);
    }
  }

  // --------------------------------------------------------- claims of one key

  type Client = nat

  /** A won claim: its two clock readings, and what its owner did since. */
  datatype Win = Win(first: real, second: real, acted: bool, stored: bool)

  datatype Sys = Sys(clock: real, row: Option<Row>, readers: map<Client, real>, wins: seq<Win>)

  datatype Label =
    | Tick(to: real)
    | Begin(p: Client)                 // reads the clock
    | Commit(p: Client)                // the transaction
    | Act(owner: nat)                  // the owner of win number `owner` acts
    | Store(owner: nat, result: string)

  const INIT := Sys(0.0, None, map[], [])

  /** The clock never runs backwards; an owner acts before it stores. */
  predicate Enabled(s: Sys, l: Label) {
    match l
    case Tick(to) => to >= s.clock
    case Begin(p) => p !in s.readers
    case Commit(p) => p in s.readers
    case Act(i) => i < |s.wins| && !s.wins[i].acted && !s.wins[i].stored
    case Store(i, _) => i < |s.wins|
  }

  function Do(stale: real, s: Sys, l: Label): Sys
    requires Enabled(s, l)
  {
    match l
    case Tick(to) => s.(clock := to)
    case Begin(p) => s.(readers := s.readers[p := s.clock])
    case Commit(p) =>
      var (row, won) := ClaimRow(s.row, s.readers[p], s.clock - stale);
      Sys(s.clock, Some(row), s.readers - {p},
          if won then s.wins + [Win(s.readers[p], s.clock, false, false)] else s.wins)
    case Act(i) => s.(wins := s.wins[i := s.wins[i].(acted := true)])
    case Store(i, result) =>
      s.(row := if s.row.Some? then Some(s.row.value.(result := Some(result))) else None,
         wins := s.wins[i := s.wins[i].(stored := true)])
  }

  ghost predicate Behavior(stale: real, tr: seq<Sys>, ls: seq<Label>) {
    && |tr| == |ls| + 1 && tr[0] == INIT
    && forall i :: 0 <= i < |ls| ==> Enabled(tr[i], ls[i]) && tr[i + 1] == Do(stale, tr[i], ls[i])
  }

  predicate AnyStored(wins: seq<Win>) { exists i :: 0 <= i < |wins| && wins[i].stored }

  ghost predicate Inv(stale: real, s: Sys) {
    && (s.row.Some? <==> s.wins != [])
    && (s.wins != [] ==>
          && s.row.value.created == s.wins[|s.wins| - 1].first
          && (s.row.value.result.Some? <==> AnyStored(s.wins)))
    && (forall p :: p in s.readers ==> s.readers[p] <= s.clock)
    && (forall i :: 0 <= i < |s.wins| ==> s.wins[i].first <= s.wins[i].second <= s.clock)
    && (forall i :: 0 < i < |s.wins| ==> s.wins[i].second > s.wins[i - 1].first + stale)
  }

  lemma StoreIsSeen(wins: seq<Win>, i: nat)
    requires i < |wins|
    ensures AnyStored(wins[i := wins[i].(stored := true)])
  {
    assert wins[i := wins[i].(stored := true)][i].stored;
  }

  lemma ActStoresNothing(wins: seq<Win>, i: nat)
    requires i < |wins|
    ensures AnyStored(wins[i := wins[i].(acted := true)]) <==> AnyStored(wins)
  {
    var more := wins[i := wins[i].(acted := true)];
    assert forall k :: 0 <= k < |wins| ==> more[k].stored == wins[k].stored;
  }

  lemma WinStoresNothing(wins: seq<Win>, w: Win)
    requires !w.stored
    ensures AnyStored(wins + [w]) <==> AnyStored(wins)
  {
    var more := wins + [w];
    assert forall k :: 0 <= k < |wins| ==> more[k] == wins[k];
  }

  lemma StepKeepsInv(stale: real, s: Sys, l: Label)
    requires Inv(stale, s) && Enabled(s, l)
    ensures Inv(stale, Do(stale, s, l))
  {
    hide AnyStored;
    match l
    case Tick(_) =>
    case Begin(_) =>
    case Commit(p) => WinStoresNothing(s.wins, Win(s.readers[p], s.clock, false, false)); NoneStored();
    case Act(i) => ActStoresNothing(s.wins, i);
    case Store(i, _) => StoreIsSeen(s.wins, i);
  }

  lemma NoneStored()
    ensures !AnyStored([])
  {
  }

  lemma {:induction false} InvariantHolds(stale: real, tr: seq<Sys>, ls: seq<Label>, i: nat)
    requires Behavior(stale, tr, ls) && i < |tr|
    ensures Inv(stale, tr[i])
  {
    if i > 0 {
      InvariantHolds(stale, tr, ls, i - 1);
      StepKeepsInv(stale, tr[i - 1], ls[i - 1]);
    }
  }

  /** A winner's second clock reading is more than the stale time after the first
      reading of the winner before it. */
  lemma WinsAreApart(stale: real, tr: seq<Sys>, ls: seq<Label>, n: nat, i: nat)
    requires Behavior(stale, tr, ls) && n < |tr| && 0 < i < |tr[n].wins|
    ensures tr[n].wins[i].second - tr[n].wins[i - 1].first > stale
  {
    InvariantHolds(stale, tr, ls, n);
  }

  /** Once a result is stored nobody wins again; so none was stored between two
      wins. */
  lemma {:induction false} NoWinAfterAResult(stale: real, tr: seq<Sys>, ls: seq<Label>, n: nat, m: nat)
    requires Behavior(stale, tr, ls) && n <= m < |tr| && AnyStored(tr[n].wins)
    ensures |tr[m].wins| == |tr[n].wins| && AnyStored(tr[m].wins)
  {
    if n < m {
      NoWinAfterAResult(stale, tr, ls, n, m - 1);
      InvariantHolds(stale, tr, ls, m - 1);
      InvariantHolds(stale, tr, ls, m);
      ResultStays(stale, tr[m - 1], ls[m - 1]);
    }
  }

  lemma ResultStays(stale: real, s: Sys, l: Label)
    requires Inv(stale, s) && Enabled(s, l) && AnyStored(s.wins)
    ensures |Do(stale, s, l).wins| == |s.wins| && AnyStored(Do(stale, s, l).wins)
  {
    if l.Act? {
      ActStoresNothing(s.wins, l.owner);
    } else if l.Store? {
      StoreIsSeen(s.wins, l.owner);
    }
  }

  /** An owner that acted has stored its result, or its window is still open. */
  predicate Timely(stale: real, s: Sys) {
    forall i :: 0 <= i < |s.wins| && s.wins[i].acted ==> s.wins[i].stored || s.clock <= s.wins[i].first + stale
  }

  ghost predicate OnlyLastActed(s: Sys) {
    forall i :: 0 <= i < |s.wins| && s.wins[i].acted ==> i == |s.wins| - 1
  }

  lemma StepKeepsOnlyLast(stale: real, s: Sys, l: Label)
    requires Inv(stale, s) && Enabled(s, l) && OnlyLastActed(s)
    requires Timely(stale, s) && Timely(stale, Do(stale, s, l))
    ensures OnlyLastActed(Do(stale, s, l))
  {
    assert s.wins != [] && s.wins[|s.wins| - 1].stored ==> AnyStored(s.wins);
    forall i | 0 <= i < |s.wins| - 1
      ensures s.clock > s.wins[i].first + stale
    {
      assert s.wins[i + 1].second > s.wins[i + 1 - 1].first + stale;
    }
    assert l.Act? ==> Do(stale, s, l).wins[l.owner].acted;
  }

  lemma {:induction false} OnlyTheLastOwnerActed(stale: real, tr: seq<Sys>, ls: seq<Label>, n: nat)
    requires Behavior(stale, tr, ls) && n < |tr| && forall k :: 0 <= k < |tr| ==> Timely(stale, tr[k])
    ensures OnlyLastActed(tr[n])
  {
    if n > 0 {
      OnlyTheLastOwnerActed(stale, tr, ls, n - 1);
      InvariantHolds(stale, tr, ls, n - 1);
      StepKeepsOnlyLast(stale, tr[n - 1], ls[n - 1]);
    }
  }

  /** If every owner stores its result within the stale time of its first clock
      reading, or never acts, the action runs at most once per key, however the
      claims interleave. */
  lemma ActsAtMostOnce(stale: real, tr: seq<Sys>, ls: seq<Label>, n: nat, i: nat, j: nat)
    requires Behavior(stale, tr, ls) && n < |tr| && forall k :: 0 <= k < |tr| ==> Timely(stale, tr[k])
    requires i < |tr[n].wins| && j < |tr[n].wins| && tr[n].wins[i].acted && tr[n].wins[j].acted
    ensures i == j
  {
    OnlyTheLastOwnerActed(stale, tr, ls, n);
  }

  // -------------------------------------------------------- distance of commits

  ghost predicate Continues(stale: real, tr: seq<Sys>, ls: seq<Label>, tr': seq<Sys>, ls': seq<Label>) {
    Behavior(stale, tr', ls') && tr <= tr' && ls <= ls'
  }

  /** Every win after number i commits more than the stale time after it. */
  ghost predicate CommitsApart(stale: real, tr: seq<Sys>, i: nat) {
    forall m, j :: 0 <= m < |tr| && i < j < |tr[m].wins| ==> tr[m].wins[j].second - tr[m].wins[i].second > stale
  }

  ghost predicate AlwaysCommitsApart(stale: real, tr: seq<Sys>, ls: seq<Label>, i: nat) {
    forall tr', ls' :: Continues(stale, tr, ls, tr', ls') ==> CommitsApart(stale, tr', i)
  }

  lemma {:induction false} WinsStay(stale: real, tr: seq<Sys>, ls: seq<Label>, n: nat, m: nat, i: nat)
    requires Behavior(stale, tr, ls) && n <= m < |tr| && i < |tr[n].wins|
    ensures i < |tr[m].wins| && tr[m].wins[i].first == tr[n].wins[i].first && tr[m].wins[i].second == tr[n].wins[i].second
  {
    if n < m {
      WinsStay(stale, tr, ls, n, m - 1, i);
      assert tr[m - 1 + 1] == Do(stale, tr[m - 1], ls[m - 1]);
    }
  }

  ghost predicate InOrder(wins: seq<Win>) {
    forall i, j :: 0 <= i <= j < |wins| ==> wins[i].second <= wins[j].second
  }

  lemma StepKeepsOrder(stale: real, s: Sys, l: Label)
    requires Inv(stale, s) && Enabled(s, l) && InOrder(s.wins)
    ensures InOrder(Do(stale, s, l).wins)
  {
    hide AnyStored;
  }

  lemma {:induction false} CommitsAreOrdered(stale: real, tr: seq<Sys>, ls: seq<Label>, n: nat)
    requires Behavior(stale, tr, ls) && n < |tr|
    ensures InOrder(tr[n].wins)
  {
    hide Inv;
    if n > 0 {
      CommitsAreOrdered(stale, tr, ls, n - 1);
      InvariantHolds(stale, tr, ls, n - 1);
      StepKeepsOrder(stale, tr[n - 1], ls[n - 1]);
      assert tr[n - 1 + 1] == Do(stale, tr[n - 1], ls[n - 1]);
    }
  }

  /** A claim committed in the moment it read the clock has its whole window. */
  lemma PromptClaimIsSafe(stale: real, tr: seq<Sys>, ls: seq<Label>, n: nat, i: nat)
    requires Behavior(stale, tr, ls) && n < |tr| && i < |tr[n].wins| && tr[n].wins[i].first == tr[n].wins[i].second
    requires i + 1 == |tr[n].wins|
    ensures CommitsApart(stale, tr, i)
  {
    hide Inv, Behavior;
    forall m, j | 0 <= m < |tr| && i < j < |tr[m].wins|
      ensures tr[m].wins[j].second - tr[m].wins[i].second > stale
    {
      if n <= m {
        WinsStay(stale, tr, ls, n, m, i);
      } else {
        WinsStay(stale, tr, ls, m, n, j);
        assert false;
      }
      WinsAreApart(stale, tr, ls, m, i + 1);
      CommitsAreOrdered(stale, tr, ls, m);
    }
  }

  lemma Extend(stale: real, tr: seq<Sys>, ls: seq<Label>, l: Label) returns (tr': seq<Sys>, ls': seq<Label>)
    requires Behavior(stale, tr, ls) && Enabled(tr[|tr| - 1], l)
    ensures Continues(stale, tr, ls, tr', ls') && |tr'| == |tr| + 1
    ensures tr'[|tr'| - 1] == Do(stale, tr[|tr| - 1], l)
  {
    tr', ls' := tr + [Do(stale, tr[|tr| - 1], l)], ls + [l];
  }

  lemma TakeOver(stale: real, tr: seq<Sys>, ls: seq<Label>) returns (tr': seq<Sys>, ls': seq<Label>)
    requires Behavior(stale, tr, ls)
    requires var s := tr[|tr| - 1];
             s.wins != [] && !AnyStored(s.wins) && s.clock <= s.wins[|s.wins| - 1].second + stale
             && s.wins[|s.wins| - 1].first < s.wins[|s.wins| - 1].second
    ensures Continues(stale, tr, ls, tr', ls')
    ensures var w, w' := tr[|tr| - 1].wins, tr'[|tr'| - 1].wins;
            |w'| == |w| + 1 && w'[|w|].second == w[|w| - 1].second + stale
  {
    var s := tr[|tr| - 1];
    InvariantHolds(stale, tr, ls, |tr| - 1);
    tr', ls' := Extend(stale, tr, ls, Tick(s.wins[|s.wins| - 1].second + stale));
    var p := 0;
    if p !in s.readers {
      tr', ls' := Extend(stale, tr', ls', Begin(p));
    }
    tr', ls' := Extend(stale, tr', ls', Commit(p));
  }

  /** How long a claim is safe from takeover, counted from its commit. From the
      moment of a win on, with no result stored, every later win commits more
      than the stale time after it if and only if the winner committed in the
      very moment its first reading was taken. */
  lemma WinsCommitApartIff(stale: real, tr: seq<Sys>, ls: seq<Label>, i: nat)
    requires Behavior(stale, tr, ls)
    requires var s := tr[|tr| - 1];
             i + 1 == |s.wins| && !AnyStored(s.wins) && s.clock <= s.wins[i].second + stale
    ensures AlwaysCommitsApart(stale, tr, ls, i) <==> tr[|tr| - 1].wins[i].first == tr[|tr| - 1].wins[i].second
  {
    assert |tr| > 0;
    hide Behavior, AnyStored;
    var n := |tr| - 1;
    if tr[n].wins[i].first == tr[n].wins[i].second {
      forall tr', ls' | Continues(stale, tr, ls, tr', ls')
        ensures CommitsApart(stale, tr', i)
      {
        assert tr'[n] == tr[n];
        PromptClaimIsSafe(stale, tr', ls', n, i);
      }
    } else {
      InvariantHolds(stale, tr, ls, n);
      var tr', ls' := TakeOver(stale, tr, ls);
      var m := |tr'| - 1;
      WinsStay(stale, tr', ls', n, m, i);
      assert tr'[m].wins[i + 1].second - tr'[m].wins[i].second == stale;
      assert !CommitsApart(stale, tr', i);
    }
  }

  /** A run in which it fails: the first claimant stalls between its reading and
      its insert for longer than the stale time, and the next claim takes over
      in the moment of that insert. */
  lemma StalledClaimIsTakenOver(stale: real) returns (tr: seq<Sys>, ls: seq<Label>)
    requires stale >= 0.0
    ensures Behavior(stale, tr, ls)
    ensures tr[|tr| - 1].wins == [Win(0.0, stale + 1.0, false, false), Win(stale + 1.0, stale + 1.0, false, false)]
  {
    tr, ls := [INIT], [];
    tr, ls := Extend(stale, tr, ls, Begin(0));
    tr, ls := Extend(stale, tr, ls, Tick(stale + 1.0));
    tr, ls := Extend(stale, tr, ls, Commit(0));
    tr, ls := Extend(stale, tr, ls, Begin(1));
    tr, ls := Extend(stale, tr, ls, Commit(1));
  }

  /** Pruning a key that has its result lets the next claim win again. */
  lemma PruneReopens(rows: map<Key, Row>, key: Key, cutoff: real, now: real, later: real, staleAfter: real)
    requires key in rows && rows[key].result.Some?
    ensures !ClaimRow(RowOf(rows, key), now, later - staleAfter).1
    ensures ClaimRow(RowOf(Pruned(rows, cutoff), key), now, later - staleAfter).1 <==> rows[key].created < cutoff
  {
  }
}
