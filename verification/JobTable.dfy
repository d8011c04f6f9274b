/**
 The table `background_jobs`: its rows, the CHECK constraints, and every SQL statement of the
 job queue as one atomic operation at its own NOW(). What holds over every run of statements is
 proved here; the class that executes the statements is in JobQueue.dfy.
 */
module JobTable {
  import opened Wrappers

  type JobId = nat  // a UUID; UUIDs are ordered like 128-bit numbers

  const I32_MAX: int := 0x7fff_ffff
  const MAX_ERROR_CHARS: nat := 4_000
  const LEASE_EXPIRED := "worker lease expired"

  datatype Status = Pending | Running | Completed | Dead

  datatype NewJob = NewJob(jobType: string, payload: string, traceContext: string, maxAttempts: nat)

  datatype Row = Row(
    jobType: string,
    payload: string,
    traceContext: string,
    status: Status,
    attempts: int,
    maxAttempts: int,
    availableAt: Time,
    lockedAt: Option<Time>,
    lockedBy: Option<string>,
    lastError: Option<string>,
    createdAt: Time,
    updatedAt: Time,
    completedAt: Option<Time>)

  type Table = map<JobId, Row>

  // ---------------------------------------------------------------- constraints

  function TrimLeft(s: string): string {
    if s != "" && s[0] == ' ' then TrimLeft(s[1..]) else s
  }

  function TrimRight(s: string): string {
    if s != "" && s[|s| - 1] == ' ' then TrimRight(s[..|s| - 1]) else s
  }

  predicate TypeValid(jobType: string) {
    1 <= |TrimRight(TrimLeft(jobType))| <= 200
  }

  /** The CHECK constraints of the migration; the status check is the type `Status`. */
  predicate Checks(r: Row) {
    && TypeValid(r.jobType)
    && r.attempts >= 0
    && r.maxAttempts > 0
    && r.attempts <= r.maxAttempts
    && (if r.status == Running then r.lockedAt.Some? && r.lockedBy.Some? else r.lockedAt.None? && r.lockedBy.None?)
    && (r.status == Completed <==> r.completedAt.Some?)
  }

  /** What every reachable row satisfies on top of the constraints. */
  predicate Sound(r: Row) {
    && Checks(r)
    && r.maxAttempts <= I32_MAX
    && (r.status == Pending ==> r.attempts < r.maxAttempts)
    && (r.status == Running || r.status == Completed ==> r.attempts >= 1)
    && (r.status == Dead ==> r.attempts == r.maxAttempts)
  }

  ghost predicate AllSound(t: Table) {
    forall id | id in t :: Sound(t[id])
  }

  // ---------------------------------------------------------------- statements on one row

  function Inserted(job: NewJob, now: Time): Row {
    Row(job.jobType, job.payload, job.traceContext, Pending, 0, job.maxAttempts, now, None, None, None, now, now, None)
  }

  predicate Expired(r: Row, now: Time, lease: nat) {
    r.status == Running && r.lockedAt.Some? && r.lockedAt.value < now - lease
  }

  function Reaped(r: Row, now: Time): Row {
    r.(status := if r.attempts >= r.maxAttempts then Dead else Pending,
       availableAt := now, lockedAt := None, lockedBy := None,
       lastError := Some(LEASE_EXPIRED), updatedAt := now)
  }

  predicate Claimable(r: Row, now: Time) {
    r.status == Pending && r.availableAt <= now && r.attempts < r.maxAttempts
  }

  function Claimed(r: Row, now: Time, worker: string): Row {
    r.(status := Running, attempts := r.attempts + 1, lockedAt := Some(now), lockedBy := Some(worker), updatedAt := now)
  }

  /** The guard that renew, complete and fail share. It does not test the lease's expiry. */
  predicate OwnedBy(r: Row, worker: string, attempt: int) {
    r.status == Running && r.lockedBy == Some(worker) && r.attempts == attempt
  }

  function Renewed(r: Row, now: Time): Row {
    r.(lockedAt := Some(now), updatedAt := now)
  }

  function Finished(r: Row, now: Time): Row {
    r.(status := Completed, lockedAt := None, lockedBy := None, completedAt := Some(now), updatedAt := now)
  }

  function Truncated(error: string): string {
    if |error| <= MAX_ERROR_CHARS then error else error[..MAX_ERROR_CHARS]
  }

  function FailedRow(r: Row, now: Time, error: string, delay: nat): Row {
    r.(status := if r.attempts >= r.maxAttempts then Dead else Pending,
       availableAt := if r.attempts >= r.maxAttempts then r.availableAt else now + delay,
       lockedAt := None, lockedBy := None, lastError := Some(Truncated(error)), updatedAt := now)
  }

  predicate Purgeable(r: Row, now: Time, completedAge: nat, deadAge: nat) {
    || (r.status == Completed && r.completedAt.Some? && r.completedAt.value < now - completedAge)
    || (r.status == Dead && r.updatedAt < now - deadAge)
  }

  /** A completed or dead row past its retention. */
  predicate Aged(row: Row, now: Time, completedAge: nat, deadAge: nat) {
    match row.status
    case Completed => row.completedAt.Some? && row.completedAt.value + completedAge < now
    case Dead => row.updatedAt + deadAge < now
    case _ => false
  }

  // ---------------------------------------------------------------- statements on the table

  /** One statement together with the engine's choice of rows where the statement leaves one open. */
  datatype Op =
    | Insert(id: JobId, job: NewJob)
    | Reap(expired: set<JobId>, lease: nat)
    | Claim(candidate: Option<JobId>, worker: string)
    | Renew(id: JobId, worker: string, attempt: int)
    | Complete(id: JobId, worker: string, attempt: int)
    | Fail(id: JobId, worker: string, attempt: int, error: string, delay: nat)
    | Purge(aged: set<JobId>, completedAge: nat, deadAge: nat)

  predicate Owns(t: Table, id: JobId, worker: string, attempt: int) {
    id in t && OwnedBy(t[id], worker, attempt)
  }

  /** Any subset of the eligible rows may be chosen: this covers LIMIT and rows skipped as locked. */
  predicate Enabled(t: Table, now: Time, op: Op) {
    match op
    case Insert(id, job) => id !in t && TypeValid(job.jobType) && 1 <= job.maxAttempts <= I32_MAX
    case Reap(expired, lease) => forall id | id in expired :: id in t && Expired(t[id], now, lease)
    case Claim(candidate, _) => candidate.Some? ==> candidate.value in t && Claimable(t[candidate.value], now)
    case Purge(aged, completedAge, deadAge) => forall id | id in aged ::
        id in t
        && Purgeable(t[id], now, completedAge, deadAge)
    case _ => true
  }

  function Apply(t: Table, now: Time, op: Op): Table
    requires Enabled(t, now, op)
  {
    match op
    case Insert(id, job) => t[id := Inserted(job, now)]
    case Reap(expired, _) => map id | id in t :: if id in expired then Reaped(t[id], now) else t[id]
    case Claim(None, _) => t
    case Claim(Some(id), worker) => t[id := Claimed(t[id], now, worker)]
    case Renew(id, worker, attempt) => if Owns(t, id, worker, attempt) then t[id := Renewed(t[id], now)] else t
    case Complete(id, worker, attempt) => if Owns(t, id, worker, attempt) then t[id := Finished(t[id], now)] else t
    case Fail(id, worker, attempt, error, delay) =>
      if Owns(t, id, worker, attempt) then t[id := FailedRow(t[id], now, error, delay)] else t
    case Purge(aged, _, _) => t - aged
  }

  // ---------------------------------------------------------------- runs of statements

  datatype Statement = Statement(now: Time, op: Op)

  /** A run of statements from table `t`, none before time `since`, each stamped no earlier than the one before. */
  ghost predicate Run(t: Table, since: Time, run: seq<Statement>)
    decreases run
  {
    run == [] || (since <= run[0].now && Enabled(t, run[0].now, run[0].op)
                  && Run(Apply(t, run[0].now, run[0].op), run[0].now, run[1..]))
  }

  ghost function After(t: Table, since: Time, run: seq<Statement>): Table
    requires Run(t, since, run)
    decreases run
  {
    if run == [] then t else After(Apply(t, run[0].now, run[0].op), run[0].now, run[1..])
  }

  // ---------------------------------------------------------------- the row invariant

  lemma StatementKeepsRowsSound(t: Table, now: Time, op: Op)
    requires AllSound(t) && Enabled(t, now, op)
    ensures AllSound(Apply(t, now, op))
  {
  }

  /** No run of statements ever produces a row that a CHECK constraint would reject. */
  lemma {:induction false} RunsKeepRowsSound(t: Table, since: Time, run: seq<Statement>)
    requires AllSound(t) && Run(t, since, run)
    ensures AllSound(After(t, since, run))
    decreases run
  {
    if run != [] {
      StatementKeepsRowsSound(t, run[0].now, run[0].op);
      RunsKeepRowsSound(Apply(t, run[0].now, run[0].op), run[0].now, run[1..]);
    }
  }

  /** The attempts filter of `claim` never hides a pending row that is due. */
  lemma DueRowsAreClaimable(r: Row, now: Time)
    requires Sound(r) && r.status == Pending && r.availableAt <= now
    ensures Claimable(r, now)
  {
  }

  // ---------------------------------------------------------------- the life of one row

  predicate SameJob(r: Row, r': Row) {
    && r'.jobType == r.jobType && r'.payload == r.payload && r'.traceContext == r.traceContext
    && r'.maxAttempts == r.maxAttempts && r'.createdAt == r.createdAt
  }

  predicate Unlocked(r: Row) {
    r.lockedAt.None? && r.lockedBy.None?
  }

  /** The edges of the documented state diagram, with what each one does to the row. */
  predicate Edge(r: Row, r': Row, now: Time) {
    && SameJob(r, r')
    && (r' != r ==> r'.updatedAt == now)
    && match (r.status, r'.status)
       case (Pending, Pending) => r' == r
       case (Pending, Running) =>
         && r'.attempts == r.attempts + 1 && r.availableAt <= now && r'.availableAt == r.availableAt
         && r'.lockedAt == Some(now) && r'.lockedBy.Some? && r'.lastError == r.lastError
       case (Running, Running) =>
         && r'.attempts == r.attempts && r'.lockedBy == r.lockedBy && r'.availableAt == r.availableAt
         && r'.lastError == r.lastError && (r'.lockedAt == r.lockedAt || r'.lockedAt == Some(now))
       case (Running, Completed) =>
         && r'.attempts == r.attempts && Unlocked(r') && r'.completedAt == Some(now)
         && r'.availableAt == r.availableAt && r'.lastError == r.lastError
       case (Running, Pending) =>
         && r'.attempts == r.attempts < r.maxAttempts && Unlocked(r') && r'.availableAt >= now && r'.lastError.Some?
       case (Running, Dead) =>
         && r'.attempts == r.attempts == r.maxAttempts && Unlocked(r') && r'.lastError.Some?
       case (Completed, Completed) => r' == r
       case (Dead, Dead) => r' == r
       case _ => false
  }

  /** Every statement moves every row along an edge of the diagram or deletes it once it is terminal and aged. */
  lemma StatementsFollowTheDiagram(t: Table, now: Time, op: Op, id: JobId)
    requires AllSound(t) && Enabled(t, now, op) && id in t
    ensures id in Apply(t, now, op) ==> Edge(t[id], Apply(t, now, op)[id], now)
    ensures id !in Apply(t, now, op) ==> op.Purge? && Purgeable(t[id], now, op.completedAge, op.deadAge)
  {
  }

  /** A running row changes only by a reap after its lease ran out, or by its owner at this very attempt. */
  lemma RunningRowsAreFenced(t: Table, now: Time, op: Op, id: JobId)
    requires Enabled(t, now, op) && id in t && t[id].status == Running
    requires id !in Apply(t, now, op) || Apply(t, now, op)[id] != t[id]
    ensures || (op.Reap? && id in op.expired && Expired(t[id], now, op.lease))
            || ((op.Renew? || op.Complete? || op.Fail?) && op.id == id
                && t[id].lockedBy == Some(op.worker) && t[id].attempts == op.attempt)
  {
  }

  predicate Terminal(r: Row) {
    r.status == Completed || r.status == Dead
  }

  /** How many more moves a row can make: two per attempt left, one to leave `running`, none when terminal. */
  function Measure(r: Row): int {
    if Terminal(r) then 0 else 2 * (r.maxAttempts - r.attempts) + if r.status == Running then 1 else 0
  }

  predicate Moved(r: Row, r': Row) {
    r.status != r'.status || r.attempts != r'.attempts
  }

  lemma MovesLowerTheMeasure(r: Row, r': Row, now: Time)
    requires Sound(r) && Sound(r') && Edge(r, r', now)
    ensures Moved(r, r') ==> 0 <= Measure(r') < Measure(r)
    ensures !Moved(r, r') ==> Measure(r') == Measure(r)
  {
  }

  /** How often a run changes the status or the attempts of job `id`: claims, failures, completions and reaps. */
  ghost function Moves(t: Table, since: Time, run: seq<Statement>, id: JobId): nat
    requires Run(t, since, run)
    decreases run
  {
    if run == [] then 0 else
      var t' := Apply(t, run[0].now, run[0].op);
      (if id in t && id in t' && Moved(t[id], t'[id]) then 1 else 0) + Moves(t', run[0].now, run[1..], id)
  }

  /** How often a run hands job `id` to a worker. */
  function Claims(run: seq<Statement>, id: JobId): nat {
    if run == [] then 0 else
      (if run[0].op.Claim? && run[0].op.candidate == Some(id) then 1 else 0) + Claims(run[1..], id)
  }

  /** Job ids are fresh UUIDs: no later insert reuses this one. */
  ghost predicate NotReinserted(run: seq<Statement>, id: JobId) {
    forall s | s in run :: s.op.Insert? ==> s.op.id != id
  }

  lemma {:induction false} AbsentRowsStayAbsent(t: Table, since: Time, run: seq<Statement>, id: JobId)
    requires Run(t, since, run) && NotReinserted(run, id) && id !in t
    ensures id !in After(t, since, run) && Moves(t, since, run, id) == 0 && Claims(run, id) == 0
    decreases run
  {
    if run != [] {
      assert run[0] in run;
      AbsentRowsStayAbsent(Apply(t, run[0].now, run[0].op), run[0].now, run[1..], id);
    }
  }

  /**
   Bounded lifetime: in any run a job makes at most `Measure` moves and starts at most `maxAttempts` handler
   runs (twice `maxAttempts` moves from its insertion), and its attempts count its claims exactly.
   */
  lemma {:induction false} LifetimesAreBounded(t: Table, since: Time, run: seq<Statement>, id: JobId)
    requires AllSound(t) && Run(t, since, run) && NotReinserted(run, id) && id in t
    ensures Moves(t, since, run, id) <= Measure(t[id]) <= 2 * t[id].maxAttempts
    ensures t[id].attempts + Claims(run, id) <= t[id].maxAttempts
    ensures var t' := After(t, since, run);
            id in t' ==> && Moves(t, since, run, id) + Measure(t'[id]) <= Measure(t[id])
                         && t'[id].attempts == t[id].attempts + Claims(run, id)
                         && SameJob(t[id], t'[id])
    decreases run
  {
    if run != [] {
      var now, op := run[0].now, run[0].op;
      var t1 := Apply(t, now, op);
      assert run[0] in run;
      StatementKeepsRowsSound(t, now, op);
      StatementsFollowTheDiagram(t, now, op, id);
      if id in t1 {
        MovesLowerTheMeasure(t[id], t1[id], now);
        LifetimesAreBounded(t1, now, run[1..], id);
      } else {
        AbsentRowsStayAbsent(t1, now, run[1..], id);
      }
    }
  }

  // ---------------------------------------------------------------- conservation

  /** The table just before statement `k` of a run. */
  ghost function Before(t: Table, since: Time, run: seq<Statement>, k: nat): Table
    requires Run(t, since, run) && k <= |run|
    decreases run
  {
    if k == 0 then t else Before(Apply(t, run[0].now, run[0].op), run[0].now, run[1..], k - 1)
  }

  /** A job leaves the table only through a purge, as a completed or dead row older than its retention. */
  lemma {:induction false} JobsLeaveOnlyAfterRetention(t: Table, since: Time, run: seq<Statement>, id: JobId)
    returns (k: nat)
    requires AllSound(t) && Run(t, since, run) && id in t && id !in After(t, since, run)
    ensures k < |run| && run[k].op.Purge? && id in run[k].op.aged
    ensures id in Before(t, since, run, k)
    ensures var r := Before(t, since, run, k)[id];
            || (r.status == Completed && r.completedAt.Some?
                && r.completedAt.value < run[k].now - run[k].op.completedAge)
            || (r.status == Dead && r.updatedAt < run[k].now - run[k].op.deadAge)
    decreases run
  {
    var now, op := run[0].now, run[0].op;
    var t1 := Apply(t, now, op);
    StatementKeepsRowsSound(t, now, op);
    StatementsFollowTheDiagram(t, now, op, id);
    if id in t1 {
      var k1 := JobsLeaveOnlyAfterRetention(t1, now, run[1..], id);
      k := k1 + 1;
    } else {
      k := 0;
    }
  }

  function Inserts(run: seq<Statement>): nat {
    if run == [] then 0 else (if run[0].op.Insert? then 1 else 0) + Inserts(run[1..])
  }

  function Deletions(run: seq<Statement>): nat {
    if run == [] then 0 else (if run[0].op.Purge? then |run[0].op.aged| else 0) + Deletions(run[1..])
  }

  lemma StatementKeys(t: Table, now: Time, op: Op)
    requires Enabled(t, now, op)
    ensures Apply(t, now, op).Keys ==
        match op case Insert(id, _) => t.Keys + {id} case Purge(aged, _, _) => t.Keys - aged case _ => t.Keys
  {
  }

  lemma StatementRowCount(t: Table, now: Time, op: Op)
    requires Enabled(t, now, op)
    ensures |Apply(t, now, op)| + (if op.Purge? then |op.aged| else 0) == |t| + if op.Insert? then 1 else 0
  {
    StatementKeys(t, now, op);
    assert op.Purge? ==> op.aged <= t.Keys;
    hide Apply;
    assert |Apply(t, now, op)| == |Apply(t, now, op).Keys| && |t| == |t.Keys|;
  }

  /** Conservation of rows: nothing but an insert adds one and nothing but a purge removes one. */
  lemma {:induction false} RowsAreConserved(t: Table, since: Time, run: seq<Statement>)
    requires Run(t, since, run)
    ensures |After(t, since, run)| + Deletions(run) == |t| + Inserts(run)
    decreases run
  {
    if run != [] {
      StatementRowCount(t, run[0].now, run[0].op);
      RowsAreConserved(Apply(t, run[0].now, run[0].op), run[0].now, run[1..]);
    }
  }

  // ---------------------------------------------------------------- what reaches the handlers

  lemma {:induction false} StatementsOfRunsAreEnabled(t: Table, since: Time, run: seq<Statement>, n: nat)
    requires Run(t, since, run) && n < |run|
    ensures Enabled(Before(t, since, run, n), run[n].now, run[n].op)
    decreases run
  {
    if n > 0 {
      StatementsOfRunsAreEnabled(Apply(t, run[0].now, run[0].op), run[0].now, run[1..], n - 1);
    }
  }

  lemma {:induction false} AbsentUntil(t: Table, since: Time, run: seq<Statement>, n: nat, id: JobId)
    requires Run(t, since, run) && n <= |run| && NotReinserted(run, id) && id !in t
    ensures id !in Before(t, since, run, n)
    decreases run
  {
    if n > 0 {
      assert run[0] in run;
      AbsentUntil(Apply(t, run[0].now, run[0].op), run[0].now, run[1..], n - 1, id);
    }
  }

  lemma {:induction false} JobsStayTheSame(t: Table, since: Time, run: seq<Statement>, n: nat, id: JobId)
    requires AllSound(t) && Run(t, since, run) && n <= |run| && NotReinserted(run, id)
    requires id in t && id in Before(t, since, run, n)
    ensures SameJob(t[id], Before(t, since, run, n)[id])
    decreases run
  {
    if n > 0 {
      var now, op := run[0].now, run[0].op;
      var t1 := Apply(t, now, op);
      assert run[0] in run;
      StatementKeepsRowsSound(t, now, op);
      StatementsFollowTheDiagram(t, now, op, id);
      if id in t1 {
        JobsStayTheSame(t1, now, run[1..], n - 1, id);
      } else {
        AbsentUntil(t1, now, run[1..], n - 1, id);
      }
    }
  }

  /**
   Whatever a claim hands out carries the type, payload, trace context and maximum of the job that was inserted
   under that id, however many statements lie between.
   */
  lemma {:induction false} ClaimsCarryTheInsertedJob(t: Table, since: Time, run: seq<Statement>, k: nat, n: nat,
          job: NewJob)
    requires AllSound(t) && Run(t, since, run) && k < n < |run|
    requires run[k].op.Insert? && run[k].op.job == job && NotReinserted(run[k + 1..], run[k].op.id)
    requires run[n].op.Claim? && run[n].op.candidate == Some(run[k].op.id)
    ensures var id, before := run[k].op.id, Before(t, since, run, n);
            && id in before && Enabled(before, run[n].now, run[n].op)
            && var row := Apply(before, run[n].now, run[n].op)[id];
               && row.jobType == job.jobType && row.payload == job.payload && row.traceContext == job.traceContext
               && row.maxAttempts == job.maxAttempts && row.createdAt == run[k].now
    decreases run
  {
    var t1 := Apply(t, run[0].now, run[0].op);
    StatementsOfRunsAreEnabled(t, since, run, n);
    StatementKeepsRowsSound(t, run[0].now, run[0].op);
    if k == 0 {
      JobsStayTheSame(t1, run[0].now, run[1..], n - 1, run[0].op.id);
    } else {
      assert run[1..][k..] == run[k + 1..];
      ClaimsCarryTheInsertedJob(t1, run[0].now, run[1..], k - 1, n - 1, job);
    }
  }

  // ---------------------------------------------------------------- job types

  lemma {:induction false} TrimLeftIs(s: string) returns (i: nat)
    ensures i <= |s| && TrimLeft(s) == s[i..] && (i < |s| ==> s[i] != ' ')
    ensures forall k | 0 <= k < i :: s[k] == ' '
  {
    if s != "" && s[0] == ' ' {
      var rest := TrimLeftIs(s[1..]);
      i := rest + 1;
      assert forall k | 0 < k < i :: s[k] == s[1..][k - 1];
    } else {
      i := 0;
    }
  }

  lemma {:induction false} TrimRightIs(s: string) returns (j: nat)
    ensures j <= |s| && TrimRight(s) == s[..j] && (j > 0 ==> s[j - 1] != ' ')
    ensures forall k | j <= k < |s| :: s[k] == ' '
  {
    if s != "" && s[|s| - 1] == ' ' {
      j := TrimRightIs(s[..|s| - 1]);
    } else {
      j := |s|;
    }
  }

  /** Only spaces are before `i` and from `j` on, and none is at the ends between them. */
  predicate Core(s: string, i: nat, j: nat) {
    && i < j <= |s| && s[i] != ' ' && s[j - 1] != ' '
    && (forall k | 0 <= k < i :: s[k] == ' ') && forall k | j <= k < |s| :: s[k] == ' '
  }

  /** `BTRIM` and `BETWEEN`: a type is valid exactly if 1 to 200 characters are left between its outer spaces. */
  lemma ValidTypes(s: string)
    ensures TypeValid(s) <==> exists i: nat, j: nat :: Core(s, i, j) && j - i <= 200
  {
    var i := TrimLeftIs(s);
    var left := s[i..];
    var n := TrimRightIs(left);
    if i < |s| {
      assert left[0] == s[i];
      assert s[i + n - 1] == left[n - 1];
      assert forall k | i + n <= k < |s| :: s[k] == left[k - i];
      assert Core(s, i, i + n);
    }
    forall a: nat, b: nat | Core(s, a, b) ensures a == i && b == i + n {
    }
  }
}
