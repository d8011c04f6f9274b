/**
 `PostgresJobQueue`: the port methods as they change the table in place. `now` is each statement's
 NOW(); no other session holds row locks while a method runs (interleavings are in LeaseProtocol.dfy).
 */
module JobQueue {
  import opened Wrappers
  import opened JobTable
  import opened FairClaims

  const REAP_LIMIT: nat := 1_000
  const PURGE_BATCH_SIZE: nat := 1_000

  datatype JobQueueError = Unavailable | LeaseLost

  datatype JobDisposition = RetryScheduled | DeadLettered

  datatype ClaimedJob = ClaimedJob(
    id: JobId,
    jobType: string,
    payload: string,
    traceContext: string,
    attempts: nat,
    maxAttempts: nat)

  function Min(a: nat, b: nat): nat {
    if a < b then a else b
  }

  // ---------------------------------------------------------------- which rows a statement picks

  function ExpiredRows(t: Table, now: Time, lease: nat): set<JobId> {
    set id | id in t && Expired(t[id], now, lease)
  }

  predicate LockedBefore(t: Table, a: JobId, b: JobId)
    requires a in t && b in t && t[a].lockedAt.Some? && t[b].lockedAt.Some?
  {
    t[a].lockedAt.value < t[b].lockedAt.value || (t[a].lockedAt == t[b].lockedAt && a < b)
  }

  /** ORDER BY locked_at, id LIMIT n, over rows that are all locked. */
  predicate OldestLocked(t: Table, rows: set<JobId>, n: nat, chosen: set<JobId>)
    requires forall id | id in rows :: id in t && t[id].lockedAt.Some?
  {
    && chosen <= rows && |chosen| == Min(n, |rows|)
    && forall a, b | a in chosen && b in rows - chosen :: LockedBefore(t, a, b)
  }

  lemma {:induction false} OldestRow(t: Table, rows: set<JobId>) returns (first: JobId)
    requires rows != {} && forall id | id in rows :: id in t && t[id].lockedAt.Some?
    ensures first in rows && forall id | id in rows - {first} :: LockedBefore(t, first, id)
  {
    var some :| some in rows;
    first := some;
    if rows != {some} {
      var rest := OldestRow(t, rows - {some});
      first := if LockedBefore(t, rest, some) then rest else some;
      forall id | id in rows - {first}
        ensures LockedBefore(t, first, id)
      {
        assert id == some || id == rest || id in rows - {some} - {rest};
      }
    }
  }

  lemma {:induction false} OldestRowsExist(t: Table, rows: set<JobId>, n: nat) returns (chosen: set<JobId>)
    requires forall id | id in rows :: id in t && t[id].lockedAt.Some?
    ensures OldestLocked(t, rows, n, chosen)
  {
    if n == 0 || rows == {} {
      chosen := {};
    } else {
      var first := OldestRow(t, rows);
      var rest := OldestRowsExist(t, rows - {first}, n - 1);
      chosen := rest + {first};
      assert rows - chosen == (rows - {first}) - rest;
    }
  }

  function ClaimableRows(t: Table, now: Time): set<JobId> {
    set id | id in t && Claimable(t[id], now)
  }

  lemma {:induction false} SomeRowIsFirst(t: Table, rows: set<JobId>) returns (first: JobId)
    requires rows != {} && rows <= t.Keys
    ensures first in rows && forall id | id in rows :: !Ahead(t[id], t[first])
  {
    first :| first in rows;
    if rows != {first} {
      var rest := SomeRowIsFirst(t, rows - {first});
      if Ahead(t[rest], t[first]) {
        first := rest;
      }
    }
  }

  function PurgeableRows(t: Table, now: Time, completedAge: nat, deadAge: nat): set<JobId> {
    set id | id in t && Purgeable(t[id], now, completedAge, deadAge)
  }

  lemma {:induction false} SubsetOfSize<T>(s: set<T>, n: nat) returns (part: set<T>)
    requires n <= |s|
    ensures part <= s && |part| == n
  {
    if n == 0 {
      part := {};
    } else {
      var x :| x in s;
      var rest := SubsetOfSize(s - {x}, n - 1);
      part := rest + {x};
    }
  }

  lemma AllOrTheLimit<T>(chosen: set<T>, all: set<T>, n: nat)
    requires chosen <= all && |chosen| == Min(n, |all|)
    ensures |chosen| == n || forall x | x in all :: x in chosen
  {
    assert all == chosen + (all - chosen);
  }

  /** One batch: at most 1,000 rows go, all of them aged; fewer only if no aged row is left; the rest stay. */
  ghost predicate AgedRowsGo(t: Table, t': Table, now: Time, completedAge: nat, deadAge: nat, purged: nat) {
    && t'.Keys <= t.Keys && |t.Keys - t'.Keys| == purged <= 1_000
    && (forall id | id in t' :: t'[id] == t[id] && (purged < 1_000 ==> !Aged(t[id], now, completedAge, deadAge)))
    && forall id | id in t && id !in t' :: Aged(t[id], now, completedAge, deadAge)
  }

  lemma GoneKeys(t: Table, aged: set<JobId>)
    requires aged <= t.Keys
    ensures (t - aged).Keys <= t.Keys && t.Keys - (t - aged).Keys == aged
    ensures forall id | id in t :: id in t - aged <==> id !in aged
  {
  }

  lemma PurgeableRowsAreAged(t: Table, now: Time, completedAge: nat, deadAge: nat)
    ensures PurgeableRows(t, now, completedAge, deadAge) <= t.Keys
    ensures forall id | id in t ::
              id in PurgeableRows(t, now, completedAge, deadAge) <==> Aged(t[id], now, completedAge, deadAge)
  {
  }

  lemma PurgesAreEnabled(t: Table, aged: set<JobId>, now: Time, completedAge: nat, deadAge: nat)
    requires aged <= PurgeableRows(t, now, completedAge, deadAge)
    ensures Enabled(t, now, Purge(aged, completedAge, deadAge))
    ensures Apply(t, now, Purge(aged, completedAge, deadAge)) == t - aged
  {
  }

  lemma PurgedRowsAreAged(t: Table, aged: set<JobId>, now: Time, completedAge: nat, deadAge: nat)
    requires aged <= PurgeableRows(t, now, completedAge, deadAge)
    requires |aged| == Min(PURGE_BATCH_SIZE, |PurgeableRows(t, now, completedAge, deadAge)|)
    ensures t.Keys - (t - aged).Keys == aged && AgedRowsGo(t, t - aged, now, completedAge, deadAge, |aged|)
  {
    hide PurgeableRows, Aged;
    PurgeableRowsAreAged(t, now, completedAge, deadAge);
    AllOrTheLimit(aged, PurgeableRows(t, now, completedAge, deadAge), PURGE_BATCH_SIZE);
    GoneKeys(t, aged);
  }

  // ---------------------------------------------------------------- small helpers of the source

  function ValidateMaxAttempts(value: nat): Option<int> {
    if value == 0 then None else if value <= I32_MAX then Some(value) else None
  }

  function IntoApplication(id: JobId, r: Row): Result<ClaimedJob, JobQueueError> {
    if r.attempts < 0 || r.maxAttempts < 0 then Err(Unavailable)
    else Ok(ClaimedJob(id, r.jobType, r.payload, r.traceContext, r.attempts, r.maxAttempts))
  }

  function EnsureLease(rowsAffected: nat): Result<(), JobQueueError> {
    if rowsAffected == 1 then Ok(()) else Err(LeaseLost)
  }

  class PostgresJobQueue {
    var rows: Table

    constructor ()
      ensures rows == map[]
    {
      rows := map[];
    }

    /** Inserts a pending row due at once, or fails and changes nothing. */
    method Enqueue(now: Time, id: JobId, job: NewJob) returns (r: Result<(), JobQueueError>)
      modifies this
      ensures r == if id !in old(rows) && TypeValid(job.jobType)
          && 1 <= job.maxAttempts <= I32_MAX then Ok(()) else Err(Unavailable)
      ensures r.Err? ==> rows == old(rows)
      ensures r.Ok? ==> Enabled(old(rows), now, Insert(id, job)) && rows == Apply(old(rows), now, Insert(id, job))
      ensures r.Ok? ==>
                && rows.Keys == old(rows).Keys + {id}
                && forall other | other in old(rows) :: rows[other] == old(rows)[other]
      ensures r.Ok? ==>
                var row := rows[id];
                && row.jobType == job.jobType && row.payload == job.payload && row.traceContext == job.traceContext
                && row.maxAttempts == job.maxAttempts && row.attempts == 0 && row.status == Pending
                && row.availableAt == row.createdAt == row.updatedAt == now
                && row.lockedAt == None && row.lockedBy == None && row.lastError == None && row.completedAt == None
    {
      var maxAttempts := ValidateMaxAttempts(job.maxAttempts);
      if maxAttempts.None? {
        return Err(Unavailable);
      }
      if id in rows || !TypeValid(job.jobType) {
        return Err(Unavailable);  // the primary key or a CHECK constraint rejects the row
      }
      rows := rows[id := Row(job.jobType, job.payload, job.traceContext, Pending, 0, maxAttempts.value,
                             now, None, None, None, now, now, None)];
      r := Ok(());
    }

    /** First statement of `claim`: requeues or dead-letters the longest expired leases, at most 1,000. */
    method ReapExpired(now: Time, lease: nat) returns (reaped: set<JobId>)
      modifies this
      ensures OldestLocked(old(rows), ExpiredRows(old(rows), now, lease), REAP_LIMIT, reaped)
      ensures Enabled(old(rows), now, Reap(reaped, lease)) && rows == Apply(old(rows), now, Reap(reaped, lease))
      ensures reaped <= old(rows).Keys && |reaped| <= 1_000
      ensures forall id | id in reaped ::
                && old(rows)[id].status == Running && old(rows)[id].lockedAt.Some?
                && old(rows)[id].lockedAt.value + lease < now
      ensures forall id | id in old(rows) && id !in reaped ::
                && (old(rows)[id].status == Running && old(rows)[id].lockedAt.Some?
                    && old(rows)[id].lockedAt.value + lease < now ==>
                    && |reaped| == 1_000
                    && forall first | first in reaped ::
                         || old(rows)[first].lockedAt.value < old(rows)[id].lockedAt.value
                         || (old(rows)[first].lockedAt == old(rows)[id].lockedAt && first < id))
      ensures rows.Keys == old(rows).Keys && forall id | id in rows ::
                var row := old(rows)[id];
                rows[id] == if id !in reaped then row else
                              row.(status := if row.attempts < row.maxAttempts then Pending else Dead,
                                   availableAt := now, updatedAt := now, lockedAt := None, lockedBy := None,
                                   lastError := Some("worker lease expired"))
    {
      var expired := ExpiredRows(rows, now, lease);
      ghost var example := OldestRowsExist(rows, expired, REAP_LIMIT);
      reaped :| reaped <= expired && OldestLocked(rows, expired, REAP_LIMIT, reaped);
      assert OldestLocked(rows, expired, REAP_LIMIT, reaped);
      AllOrTheLimit(reaped, expired, REAP_LIMIT);
      forall id, first | id in expired && id !in reaped && first in reaped ensures LockedBefore(rows, first, id) {
        assert id in expired - reaped;
      }
      assert forall id | id in rows && Expired(rows[id], now, lease) :: id in expired;
      rows := map id | id in rows :: if id !in reaped then rows[id] else
        rows[id].(status := if rows[id].attempts >= rows[id].maxAttempts then Dead else Pending,
                  availableAt := now, lockedAt := None, lockedBy := None,
                  lastError := Some(LEASE_EXPIRED), updatedAt := now);
    }

    /** Second statement of `claim`: hands out the first row in line, if any row is claimable. */
    method ClaimNext(now: Time, worker: string) returns (r: Result<Option<ClaimedJob>, JobQueueError>, ghost op: Op)
      modifies this
      ensures op.Claim? && op.worker == worker && Enabled(old(rows), now, op) && InOrder(old(rows), now, op)
      ensures rows == Apply(old(rows), now, op)
      ensures AllSound(old(rows)) ==> r.Ok?
      ensures r.Ok? ==> match (r.value, op.candidate)
                        case (None, None) => true
                        case (Some(job), Some(id)) =>
                          && job.id == id && id in rows && job.attempts == rows[id].attempts
                          && job.maxAttempts == rows[id].maxAttempts && job.jobType == rows[id].jobType
                          && job.payload == rows[id].payload && job.traceContext == rows[id].traceContext
                        case _ => false
      ensures op.candidate.None? ==>
                && rows == old(rows)
                && forall id | id in rows ::
                     || rows[id].status != Pending || now < rows[id].availableAt
                     || rows[id].attempts >= rows[id].maxAttempts
      ensures op.candidate.Some? ==>
                var id := op.candidate.value;
                && id in old(rows)
                && var row := old(rows)[id];
                && row.status == Pending && row.availableAt <= now && row.attempts < row.maxAttempts
                && (forall other | other in old(rows) && old(rows)[other].status == Pending
                                   && old(rows)[other].availableAt <= now
                                   && old(rows)[other].attempts < old(rows)[other].maxAttempts ::
                      || row.availableAt < old(rows)[other].availableAt
                      || (row.availableAt == old(rows)[other].availableAt
                          && row.createdAt <= old(rows)[other].createdAt))
                && rows == old(rows)[id := row.(status := Running, attempts := row.attempts + 1, lockedAt := Some(now),
                                                lockedBy := Some(worker), updatedAt := now)]
    {
      var claimable := ClaimableRows(rows, now);
      if claimable == {} {
        assert forall id | id in rows :: Claimable(rows[id], now) ==> id in claimable;
        r, op := Ok(None), Op.Claim(None, worker);
      } else {
        ghost var example := SomeRowIsFirst(rows, claimable);
        var id :| id in claimable && forall other | other in claimable :: !Ahead(rows[other], rows[id]);
        op := Op.Claim(Some(id), worker);
        assert FirstInLine(rows, now, id) by {
          assert forall other | other in rows && Claimable(rows[other], now) :: other in claimable;
        }
        ghost var before := rows;
        rows := rows[id := rows[id].(status := Running, attempts := rows[id].attempts + 1,
                                     lockedAt := Some(now), lockedBy := Some(worker), updatedAt := now)];
        var job := IntoApplication(id, rows[id]);
        r := match job
          case Ok(j) => Ok(Some(j))
          case Err(e) => Err(e);
        assert AllSound(before) ==> Sound(before[id]);
      }
    }

    /** `claim` on a table nobody else touches: reap, then claim, each at its own NOW(). */
    method Claim(reapAt: Time, claimAt: Time, worker: string, lease: nat)
      returns (r: Result<Option<ClaimedJob>, JobQueueError>, ghost reaped: set<JobId>, ghost op: Op)
      requires reapAt <= claimAt && AllSound(rows)
      modifies this
      ensures AllSound(rows) && r.Ok?
      ensures OldestLocked(old(rows), ExpiredRows(old(rows), reapAt, lease), REAP_LIMIT, reaped)
      ensures Enabled(old(rows), reapAt, Reap(reaped, lease)) && op.Claim? && op.worker == worker
      ensures var due := Apply(old(rows), reapAt, Reap(reaped, lease));
              Enabled(due, claimAt, op) && InOrder(due, claimAt, op) && rows == Apply(due, claimAt, op)
      ensures r.value.Some? <==> op.candidate.Some?
      ensures r.value.Some? ==> op.candidate == Some(r.value.value.id)
      ensures r.value.Some? ==>
                var job := r.value.value;
                && Owns(rows, job.id, worker, job.attempts) && 1 <= job.attempts <= job.maxAttempts
                && rows[job.id].lockedAt == Some(claimAt)
                && job.id in old(rows) && job.attempts == old(rows)[job.id].attempts + 1
      ensures r.value.None? ==> forall id | id in rows :: !Claimable(rows[id], claimAt)
    {
      ghost var t0 := rows;
      reaped := ReapExpired(reapAt, lease);
      StatementKeepsRowsSound(t0, reapAt, Reap(reaped, lease));
      ghost var t1 := rows;
      r, op := ClaimNext(claimAt, worker);
      StatementKeepsRowsSound(t1, claimAt, op);
    }

    method Complete(now: Time, id: JobId, worker: string, attempt: nat) returns (r: Result<(), JobQueueError>)
      modifies this
      ensures rows == Apply(old(rows), now, Op.Complete(id, worker, attempt))
      ensures r == if Owns(old(rows), id, worker, attempt) then Ok(()) else Err(LeaseLost)
      ensures r.Ok? <==> && id in old(rows) && old(rows)[id].status == Running
                         && old(rows)[id].lockedBy == Some(worker) && old(rows)[id].attempts == attempt
      ensures r.Ok? ==> rows == old(rows)[id := old(rows)[id].(status := Completed, completedAt := Some(now),
                                                               lockedAt := None, lockedBy := None, updatedAt := now)]
      ensures r.Err? ==> rows == old(rows)
    {
      var affected := 0;
      if id in rows && rows[id].status == Running && rows[id].lockedBy == Some(worker) && rows[id].attempts == attempt {
        rows := rows[id := rows[id].(status := Completed, lockedAt := None, lockedBy := None,
                                     completedAt := Some(now), updatedAt := now)];
        affected := 1;
      }
      r := EnsureLease(affected);
    }

    method Renew(now: Time, id: JobId, worker: string, attempt: nat) returns (r: Result<(), JobQueueError>)
      modifies this
      ensures rows == Apply(old(rows), now, Op.Renew(id, worker, attempt))
      ensures r == if Owns(old(rows), id, worker, attempt) then Ok(()) else Err(LeaseLost)
      ensures r.Ok? <==> && id in old(rows) && old(rows)[id].status == Running
                         && old(rows)[id].lockedBy == Some(worker) && old(rows)[id].attempts == attempt
      ensures r.Ok? ==> rows == old(rows)[id := old(rows)[id].(lockedAt := Some(now), updatedAt := now)]
      ensures r.Ok? ==> Owns(rows, id, worker, attempt) && rows[id].lockedAt == Some(now)
      ensures r.Err? ==> rows == old(rows)
    {
      var affected := 0;
      if id in rows && rows[id].status == Running && rows[id].lockedBy == Some(worker) && rows[id].attempts == attempt {
        rows := rows[id := rows[id].(lockedAt := Some(now), updatedAt := now)];
        affected := 1;
      }
      r := EnsureLease(affected);
    }

    /** Schedules the retry after `retryDelay`, or dead-letters the job when its attempts are used up. */
    method Fail(now: Time, id: JobId, worker: string, attempt: nat, error: string, retryDelay: nat)
      returns (r: Result<JobDisposition, JobQueueError>)
      modifies this
      ensures rows == Apply(old(rows), now, Op.Fail(id, worker, attempt, error, retryDelay))
      ensures !Owns(old(rows), id, worker, attempt) ==> r == Err(LeaseLost) && rows == old(rows)
      ensures Owns(old(rows), id, worker, attempt) ==> r.Ok? && id in rows
      ensures r == Ok(RetryScheduled) ==>
          rows[id].status == Pending && rows[id].availableAt == now + retryDelay
          && attempt < rows[id].maxAttempts
      ensures r == Ok(DeadLettered) ==> rows[id].status == Dead && attempt >= rows[id].maxAttempts
      ensures r.Ok? <==> && id in old(rows) && old(rows)[id].status == Running
                         && old(rows)[id].lockedBy == Some(worker) && old(rows)[id].attempts == attempt
      ensures r.Ok? ==>
                var row := old(rows)[id].(lockedAt := None, lockedBy := None, updatedAt := now,
                                          lastError := Some(if |error| <= 4_000 then error else error[..4_000]));
                if attempt < row.maxAttempts
                then && r.value == RetryScheduled
                     && rows == old(rows)[id := row.(status := Pending, availableAt := now + retryDelay)]
                else r.value == DeadLettered && rows == old(rows)[id := row.(status := Dead)]
    {
      var stored := if |error| <= MAX_ERROR_CHARS then error else error[..MAX_ERROR_CHARS];
      if !(id in rows && rows[id].status == Running && rows[id].lockedBy == Some(worker)
          && rows[id].attempts == attempt) {
        return Err(LeaseLost);
      }
      var exhausted := rows[id].attempts >= rows[id].maxAttempts;
      rows := rows[id := rows[id].(status := if exhausted then Dead else Pending,
                                   availableAt := if exhausted then rows[id].availableAt else now + retryDelay,
                                   lockedAt := None, lockedBy := None, lastError := Some(stored), updatedAt := now)];
      r := match rows[id].status
        case Pending => Ok(RetryScheduled)
        case Dead => Ok(DeadLettered)
        case _ => Err(Unavailable);
    }

    /** Deletes terminal rows past their retention, at most one batch, and returns how many. */
    method PurgeTerminal(now: Time, completedAge: nat, deadAge: nat) returns (purged: nat)
      modifies this
      ensures purged == Min(PURGE_BATCH_SIZE, |PurgeableRows(old(rows), now, completedAge, deadAge)|)
      ensures var aged := old(rows).Keys - rows.Keys;
              && aged <= PurgeableRows(old(rows), now, completedAge, deadAge) && |aged| == purged
              && Enabled(old(rows), now, Purge(aged, completedAge, deadAge))
              && rows == Apply(old(rows), now, Purge(aged, completedAge, deadAge))
      ensures AgedRowsGo(old(rows), rows, now, completedAge, deadAge, purged)
    {
      var purgeable := PurgeableRows(rows, now, completedAge, deadAge);
      var limit := Min(PURGE_BATCH_SIZE, |purgeable|);
      ghost var example := SubsetOfSize(purgeable, limit);
      var aged :| aged <= purgeable && |aged| == limit;
      PurgedRowsAreAged(rows, aged, now, completedAge, deadAge);
      PurgesAreEnabled(rows, aged, now, completedAge, deadAge);
      hide PurgeableRows, AgedRowsGo, Apply, Enabled;
      rows := rows - aged;
      purged := |aged|;
    }
  }

  // ---------------------------------------------------------------- fencing by attempt

  /** A renew, complete or fail that carries a superseded attempt changes no row. */
  lemma SupersededAttemptsChangeNothing(t: Table, now: Time, id: JobId, worker: string, attempt: int, error: string,
          delay: nat)
    requires id in t ==> attempt < t[id].attempts || t[id].status != Running
    ensures Apply(t, now, Op.Renew(id, worker, attempt)) == t
    ensures Apply(t, now, Op.Complete(id, worker, attempt)) == t
    ensures Apply(t, now, Op.Fail(id, worker, attempt, error, delay)) == t
  {
  }
}
