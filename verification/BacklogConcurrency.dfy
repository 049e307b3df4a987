/** Optimistic concurrency over one project's backlog: readers that read the
    project row and the item rows in two statements, writers under the project
    lock, and `validate`, which writes without it
    (terminal_mcp/backlog_service.py, terminal_mcp/backlog_db.py). */
module BacklogConcurrency {
  import opened Options
  import opened BacklogDb

  type Client = nat
  type Content = Rows<string>

  /** A locked read-modify-write: a mutation (with or without an expected
      revision), an import, or a reconciliation, which may be a dry run. */
  datatype Job = Job(expected: Option<nat>, dryRun: bool)

  datatype Proc =
    | Reading(revision: nat)                       // get: project row read
    | Waiting(job: Job)                            // at the project lock
    | Holding(job: Job)                            // lock taken
    | Ensured(job: Job)                            // project row exists (not for a dry run)
    | Checked(job: Job, revision: nat)             // revision read and accepted
    | Loaded(job: Job, revision: nat, input: Content)
    | Validating(input: Content)

  datatype Commit = Commit(job: Job, input: Content, output: Content)

  /** `gets` lists what `get` has returned, `contents` the item rows at every
      revision so far, `commits` the locked writes. */
  datatype Sys = Sys(
    known: bool, revision: nat, rows: Content, lock: Option<Client>, procs: map<Client, Proc>,
    gets: seq<(nat, Content)>, contents: seq<Content>, commits: seq<Commit>)

  datatype Label =
    | GetRow(p: Client)
    | GetItems(p: Client)
    | Arrive(p: Client, job: Job)
    | Acquire(p: Client)
    | Ensure(p: Client)
    | ReadRevision(p: Client)
    | ReadItems(p: Client)
    | Write(p: Client, output: Content)
    | GiveUp(p: Client)                            // refused, too large, unchanged, dry run
    | ValidateRead(p: Client)
    | ValidateWrite(p: Client, output: Content)

  const INIT := Sys(false, 0, map[], None, map[], [], [map[]], [])

  function At(s: Sys, p: Client): Option<Proc> { if p in s.procs then Some(s.procs[p]) else None }

  ghost predicate Enabled(s: Sys, l: Label) {
    var now := At(s, l.p);
    match l
    case GetRow(_) => now.None?
    case GetItems(_) => now.Some? && now.value.Reading?
    case Arrive(_, _) => now.None?
    case Acquire(_) => now.Some? && now.value.Waiting? && s.lock.None?
    case Ensure(_) => now.Some? && now.value.Holding?
    case ReadRevision(_) => now.Some? && now.value.Ensured?
    case ReadItems(_) => now.Some? && now.value.Checked?
    case Write(_, _) => now.Some? && now.value.Loaded? && !now.value.job.dryRun
    case GiveUp(_) => now.Some? && now.value.Loaded?
    case ValidateRead(_) => now.None?
    case ValidateWrite(_, _) => now.Some? && now.value.Validating? && now.value.input != map[]
  }

  function Goes(s: Sys, p: Client, to: Proc): Sys { s.(procs := s.procs[p := to]) }

  function Leaves(s: Sys, p: Client): Sys { s.(procs := s.procs - {p}) }

  /** replace_items: new rows and the next revision in one transaction. */
  function Replaced(s: Sys, output: Content): Sys {
    if s.known then s.(rows := output, revision := s.revision + 1, contents := s.contents + [output])
    else s.(rows := output)
  }

  function Do(s: Sys, l: Label): Sys
    requires Enabled(s, l)
  {
    var p := l.p;
    match l
    case GetRow(_) => Goes(s, p, Reading(s.revision))
    case GetItems(_) => Leaves(s.(gets := s.gets + [(s.procs[p].revision, s.rows)]), p)
    case Arrive(_, job) => Goes(s, p, Waiting(job))
    case Acquire(_) => Goes(s.(lock := Some(p)), p, Holding(s.procs[p].job))
    case Ensure(_) => Goes(s.(known := s.known || !s.procs[p].job.dryRun), p, Ensured(s.procs[p].job))
    case ReadRevision(_) =>
      var job := s.procs[p].job;
      if job.expected.Some? && job.expected.value != s.revision then Leaves(s.(lock := None), p)
      else Goes(s, p, Checked(job, s.revision))
    case ReadItems(_) => Goes(s, p, Loaded(s.procs[p].job, s.procs[p].revision, s.rows))
    case Write(_, output) =>
      var done := Commit(s.procs[p].job, s.procs[p].input, output);
      Leaves(Replaced(s.(lock := None, commits := s.commits + [done]), output), p)
    case GiveUp(_) => Leaves(s.(lock := None), p)
    case ValidateRead(_) => Goes(s, p, Validating(s.rows))
    case ValidateWrite(_, output) => Leaves(Replaced(s, output), p)
  }

  ghost predicate Behavior(tr: seq<Sys>, ls: seq<Label>) {
    && |tr| == |ls| + 1
    && tr[0] == INIT
    && forall i :: 0 <= i < |ls| ==> Enabled(tr[i], ls[i]) && tr[i + 1] == Do(tr[i], ls[i])
  }

  // -------------------------------------------------- what every run keeps

  predicate HoldsLock(pr: Proc) { pr.Holding? || pr.Ensured? || pr.Checked? || pr.Loaded? }

  /** Some revision from `from` on had content `c`. */
  ghost predicate WasContent(s: Sys, from: nat, c: Content) {
    exists k :: from <= k < |s.contents| && s.contents[k] == c
  }

  ghost predicate ProcOk(s: Sys, p: Client, pr: Proc) {
    && (HoldsLock(pr) ==> s.lock == Some(p))
    && (HoldsLock(pr) && !pr.Holding? && !pr.job.dryRun ==> s.known)
    && (pr.Reading? || pr.Checked? || pr.Loaded? ==> pr.revision <= s.revision)
    && (pr.Checked? || pr.Loaded? ==> pr.job.expected.Some? ==> pr.job.expected.value == pr.revision)
    && (pr.Loaded? ==> WasContent(s, pr.revision, pr.input))
    && (pr.Validating? && pr.input != map[] ==> s.known)
  }

  ghost predicate Inv(s: Sys) {
    && |s.contents| == s.revision + 1 && s.rows == s.contents[s.revision]
    && (!s.known ==> s.rows == map[])
    && (forall p :: p in s.procs ==> ProcOk(s, p, s.procs[p]))
    && (forall i :: 0 <= i < |s.gets| ==> WasContent(s, s.gets[i].0, s.gets[i].1))
  }

  lemma WasContentStays(s: Sys, t: Sys, from: nat, c: Content)
    requires WasContent(s, from, c) && s.contents <= t.contents
    ensures WasContent(t, from, c)
  {
    var k :| from <= k < |s.contents| && s.contents[k] == c;
    assert t.contents[k] == c;
  }

  lemma ProcStaysOk(s: Sys, t: Sys, p: Client, pr: Proc)
    requires ProcOk(s, p, pr) && s.contents <= t.contents && s.revision <= t.revision && (s.known ==> t.known)
    requires HoldsLock(pr) ==> t.lock == s.lock
    ensures ProcOk(t, p, pr)
  {
    if pr.Loaded? {
      WasContentStays(s, t, pr.revision, pr.input);
    }
  }

  lemma StepKeepsInv(s: Sys, l: Label)
    requires Inv(s) && Enabled(s, l)
    ensures Inv(Do(s, l))
    ensures s.contents <= Do(s, l).contents
  {
    var t := Do(s, l);
    if l.p in s.procs {
      assert ProcOk(s, l.p, s.procs[l.p]);
    }
    assert WasContent(s, s.revision, s.rows) by { assert s.contents[s.revision] == s.rows; }
    assert WasContent(t, t.revision, t.rows) by { assert t.contents[t.revision] == t.rows; }
    forall i | 0 <= i < |t.gets|
      ensures WasContent(t, t.gets[i].0, t.gets[i].1)
    {
      if i < |s.gets| {
        WasContentStays(s, t, s.gets[i].0, s.gets[i].1);
      }
    }
    forall q | q in t.procs
      ensures ProcOk(t, q, t.procs[q])
    {
      if q != l.p {
        ProcStaysOk(s, t, q, s.procs[q]);
      }
    }
  }

  lemma {:induction false} InvariantHolds(tr: seq<Sys>, ls: seq<Label>, i: nat)
    requires Behavior(tr, ls) && i < |tr|
    ensures Inv(tr[i])
  {
    if i > 0 {
      InvariantHolds(tr, ls, i - 1);
      StepKeepsInv(tr[i - 1], ls[i - 1]);
    }
  }
}
