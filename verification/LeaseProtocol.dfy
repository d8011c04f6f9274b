/**
 Any number of workers, one table, one clock. A statement that a worker issued may be executed late, be
 lost, or be executed without its answer ever arriving; processes may stop for good anywhere (they just
 take no further step) and new ones may start under the same worker id. Proved over every run: a worker
 that is still before its deadline owns its job, attempts are handed out once, and outcomes are true.
 */
module LeaseProtocol {
  import opened Wrappers
  import opened JobTable
  import opened JobQueue
  import opened WorkerAutomaton

  type Pid = nat

  /** The n-th statement a process issued. */
  datatype Call = Call(pid: Pid, number: nat)

  /** One hand-out of a job. */
  datatype Attempt = Attempt(id: JobId, number: int)

  datatype Query =
    | ReapQuery
    | ClaimQuery
    | RenewQuery(attempt: Attempt)
    | WriteQuery(attempt: Attempt, write: TerminalWrite)

  datatype Answer =
    | ReapDone
    | NothingDue
    | Granted(job: ClaimedJob)
    | LeaseRenewed
    | Refused
    | Written(answer: WriteAnswer)

  /** `calls` counts the statements issued so far; `claim` is the latest claim statement among them. */
  datatype Proc = Proc(cfg: Config, phase: Phase, calls: nat, claim: nat)

  /** History: a terminal write that took effect. */
  datatype Finish = Finish(call: Call, at: Time, before: Row, after: Row)

  datatype System = System(
    now: Time,
    lease: nat,
    table: Table,
    used: set<JobId>,                // history: every id ever inserted
    procs: map<Pid, Proc>,
    sent: map<Call, Query>,          // issued, not executed
    answers: map<Call, Answer>,      // executed; the answer may or may not arrive
    grants: map<Attempt, Call>,      // history: who was handed which attempt
    finishes: map<Attempt, Finish>)  // history

  function AttemptOf(job: ClaimedJob): Attempt {
    Attempt(job.id, job.attempts)
  }

  // ---------------------------------------------------------------- steps

  datatype Action =
    | Tick(ticks: nat)
    | Start(pid: Pid, cfg: Config)
    | Enqueue(id: JobId, job: NewJob)
    | PurgeRows(aged: set<JobId>, completedAge: nat, deadAge: nat)
    | Act(pid: Pid, event: Event)
    | Execute(call: Call, chosen: set<JobId>, candidate: Option<JobId>)
    | Lose(call: Call)

  /** An event may report an answer only if the table gave it to the current statement, but failure any time. */
  predicate Justified(s: System, pid: Pid, e: Event)
    requires pid in s.procs
  {
    var c := Call(pid, s.procs[pid].calls);
    match e
    case ReapReplied(ok) => ok ==> c in s.answers && s.answers[c] == ReapDone
    case ClaimReplied(Ok(None)) => c in s.answers && s.answers[c] == NothingDue
    case ClaimReplied(Ok(Some(job))) => c in s.answers && s.answers[c] == Granted(job)
    case ClaimReplied(Err(error)) => error == Unavailable
    case RenewalReplied(Ok(_)) => c in s.answers && s.answers[c] == LeaseRenewed
    case RenewalReplied(Err(error)) => error == Unavailable || (c in s.answers && s.answers[c] == Refused)
    case WriteReplied(Ok(answer)) => c in s.answers && s.answers[c] == Written(answer)
    case WriteReplied(Err(error)) => error == Unavailable || (c in s.answers && s.answers[c] == Refused)
    case _ => true
  }

  /** The statement a worker issues with an event. */
  function Issued(p: Phase, e: Event): Option<Query> {
    match e
    case ClaimStarted => Some(ReapQuery)
    case ReapReplied(true) => Some(ClaimQuery)
    case RenewalStarted => if Holding(p) then Some(RenewQuery(AttemptOf(p.job))) else None
    case WriteStarted(issued) => if Holding(p) then Some(WriteQuery(AttemptOf(p.job), issued)) else None
    case _ => None
  }

  function OpOf(cfg: Config, q: Query, chosen: set<JobId>, candidate: Option<JobId>): Op {
    match q
    case ReapQuery => Reap(chosen, cfg.lease)
    case ClaimQuery => Claim(candidate, cfg.workerId)
    case RenewQuery(a) => Renew(a.id, cfg.workerId, a.number)
    case WriteQuery(a, Completion) => Complete(a.id, cfg.workerId, a.number)
    case WriteQuery(a, Failure(message, delay)) => Fail(a.id, cfg.workerId, a.number, message, delay)
  }

  predicate Possible(s: System, a: Action) {
    match a
    case Tick(_) => true
    case Start(pid, cfg) => pid !in s.procs && cfg.lease == s.lease
    case Enqueue(id, job) => id !in s.used && Enabled(s.table, s.now, Insert(id, job))
    case PurgeRows(aged, completedAge, deadAge) => Enabled(s.table, s.now, Purge(aged, completedAge, deadAge))
    case Act(pid, e) => pid in s.procs && Step(s.procs[pid].cfg, s.procs[pid].phase, s.now, e).Some?
        && Justified(s, pid, e)
    case Execute(c, chosen, candidate) =>
      c in s.sent && c.pid in s.procs && Enabled(s.table, s.now, OpOf(s.procs[c.pid].cfg, s.sent[c], chosen, candidate))
    case Lose(c) => c in s.sent
  }

  function ActOf(s: System, pid: Pid, e: Event): System
    requires Possible(s, Act(pid, e))
  {
    var p := s.procs[pid];
    var phase := Step(p.cfg, p.phase, s.now, e).value;
    match Issued(p.phase, e)
    case None => s.(procs := s.procs[pid := p.(phase := phase)])
    case Some(q) =>
      var n := p.calls + 1;
      s.(procs := s.procs[pid := Proc(p.cfg, phase, n, if q.ClaimQuery? then n else p.claim)],
         sent := s.sent[Call(pid, n) := q])
  }

  function ExecuteOf(s: System, c: Call, chosen: set<JobId>, candidate: Option<JobId>): System
    requires Possible(s, Execute(c, chosen, candidate))
  {
    var cfg, q := s.procs[c.pid].cfg, s.sent[c];
    var table := Apply(s.table, s.now, OpOf(cfg, q, chosen, candidate));
    var s1 := s.(table := table, sent := s.sent - {c});
    match q
    case ReapQuery => s1.(answers := s.answers[c := ReapDone])
    case ClaimQuery =>
      (match candidate
       case None => s1.(answers := s.answers[c := NothingDue])
       case Some(id) =>
         s1.(grants := s.grants[Attempt(id, table[id].attempts) := c],
             answers := match IntoApplication(id, table[id])
                        case Ok(job) => s.answers[c := Granted(job)]
                        case Err(_) => s.answers))
    case RenewQuery(a) =>
      s1.(answers := s.answers[c := if Owns(s.table, a.id, cfg.workerId, a.number) then LeaseRenewed else Refused])
    case WriteQuery(a, write) =>
      if Owns(s.table, a.id, cfg.workerId, a.number) then
        var disposition := if table[a.id].status == Pending then RetryScheduled else DeadLettered;
        s1.(answers := s.answers[c := Written(if write.Completion? then Done else Disposed(disposition))],
            finishes := s.finishes[a := Finish(c, s.now, s.table[a.id], table[a.id])])
      else s1.(answers := s.answers[c := Refused])
  }

  function Do(s: System, a: Action): System
    requires Possible(s, a)
  {
    match a
    case Tick(ticks) => s.(now := s.now + ticks)
    case Start(pid, cfg) => s.(procs := s.procs[pid := Proc(cfg, Idle, 0, 0)])
    case Enqueue(id, job) => s.(table := Apply(s.table, s.now, Insert(id, job)), used := s.used + {id})
    case PurgeRows(aged, completedAge, deadAge) =>
      s.(table := Apply(s.table, s.now, Purge(aged, completedAge, deadAge)))
    case Act(pid, e) => ActOf(s, pid, e)
    case Execute(c, chosen, candidate) => ExecuteOf(s, c, chosen, candidate)
    case Lose(c) => s.(sent := s.sent - {c})
  }

  ghost predicate Initial(s: System) {
    && AllSound(s.table) && s.table.Keys <= s.used && (forall id | id in s.table :: s.table[id].status != Running)
    && s.procs == map[] && s.sent == map[] && s.answers == map[] && s.grants == map[] && s.finishes == map[]
  }

  // ---------------------------------------------------------------- the invariant

  ghost predicate Known(s: System, c: Call) {
    c.pid in s.procs && 1 <= c.number <= s.procs[c.pid].calls
  }

  /** The heart: up to `start + lease` the table shows this attempt running, locked no earlier than `start`. */
  ghost predicate Credit(s: System, worker: string, a: Attempt, start: Time) {
    s.now <= start + s.lease ==>
      a.id in s.table && OwnedBy(s.table[a.id], worker, a.number)
      && s.table[a.id].lockedAt.Some? && s.table[a.id].lockedAt.value >= start
  }

  ghost predicate RowOk(s: System, id: JobId)
    requires id in s.table
  {
    && Sound(s.table[id]) && id in s.used
    && (s.table[id].status == Running ==>
          var a := Attempt(id, s.table[id].attempts);
          a in s.grants && Known(s, s.grants[a]) && s.table[id].lockedBy == Some(s.procs[s.grants[a].pid].cfg.workerId))
  }

  ghost predicate GrantOk(s: System, a: Attempt)
    requires a in s.grants
  {
    && a.id in s.used && Known(s, s.grants[a])
    && (a.id in s.table ==> a.number <= s.table[a.id].attempts)
  }

  ghost predicate SentOk(s: System, c: Call)
    requires c in s.sent
  {
    && Known(s, c) && c !in s.answers
    && (s.sent[c].RenewQuery? || s.sent[c].WriteQuery? ==>
          var a := s.sent[c].attempt;
          a in s.grants && s.grants[a].pid == c.pid && s.grants[a].number < c.number)
    && (s.sent[c].WriteQuery? && Holding(s.procs[c.pid].phase) ==> s.procs[c.pid].claim > c.number)
  }

  ghost predicate AnswerOk(s: System, c: Call)
    requires c in s.answers
  {
    && Known(s, c)
    && (s.answers[c].Granted? ==> AttemptOf(s.answers[c].job) in s.grants && s.grants[AttemptOf(s.answers[c].job)] == c)
  }

  ghost predicate FinishOk(s: System, a: Attempt)
    requires a in s.finishes
  {
    var f := s.finishes[a];
    && a in s.grants && f.call.pid == s.grants[a].pid
    && f.before.status == Running && f.before.attempts == a.number && Sound(f.before) && Edge(f.before, f.after, f.at)
    && f.after.status != Running
    && (a.id in s.table ==> s.table[a.id].status != Running || s.table[a.id].attempts != a.number)
  }

  /** What a reported outcome promises about the write behind it. */
  ghost predicate Reports(finishes: map<Attempt, Finish>, pid: Pid, cfg: Config, job: ClaimedJob, outcome: RunOutcome) {
    var a := AttemptOf(job);
    outcome != Idled ==>
      && a in finishes && finishes[a].call.pid == pid
      && finishes[a].before.lockedBy == Some(cfg.workerId)
      && var f := finishes[a];
         match outcome
         case JobCompleted => f.after.status == Completed && f.after.completedAt == Some(f.at)
         case JobRetryScheduled =>
           && f.after.status == Pending && job.attempts < f.after.maxAttempts
           && f.after.availableAt == f.at + RetryDelay(cfg.retryBase, cfg.retryMax, job.attempts)
         case JobDeadLettered => f.after.status == Dead && f.after.maxAttempts == job.attempts
         case Idled => true
  }

  ghost predicate HolderOk(s: System, pid: Pid)
    requires pid in s.procs && Holding(s.procs[pid].phase)
  {
    var p := s.procs[pid];
    var a, start, c := AttemptOf(p.phase.job), Deadline(p.phase) - s.lease, Call(pid, p.calls);
    && a in s.grants && s.grants[a] == Call(pid, p.claim)
    && start <= s.now && Credit(s, p.cfg.workerId, a, start)
    && (p.phase.Renewing? ==>
          && p.phase.started <= s.now
          && (c in s.sent ==> s.sent[c] == RenewQuery(a))
          && (c in s.answers ==> s.answers[c] == LeaseRenewed || s.answers[c] == Refused)
          && (c in s.answers && s.answers[c] == LeaseRenewed ==> Credit(s, p.cfg.workerId, a, p.phase.started)))
  }

  ghost predicate AskerOk(s: System, pid: Pid)
    requires pid in s.procs && !Holding(s.procs[pid].phase)
  {
    var p := s.procs[pid];
    var c := Call(pid, p.calls);
    match p.phase
    case Reaping(claimedAt) =>
      claimedAt <= s.now && (c in s.sent ==> s.sent[c] == ReapQuery) && (c in s.answers ==> s.answers[c] == ReapDone)
    case Claiming(claimedAt) =>
      && claimedAt <= s.now && p.claim == p.calls
      && (c in s.sent ==> s.sent[c] == ClaimQuery)
      && (c in s.answers ==> s.answers[c].NothingDue? || s.answers[c].Granted?)
      && (c in s.answers && s.answers[c].Granted? ==> Credit(s, p.cfg.workerId, AttemptOf(s.answers[c].job), claimedAt))
    case Writing(job, _, result) =>
      && (c in s.sent ==> s.sent[c] == WriteQuery(AttemptOf(job), WriteFor(p.cfg, job, result)))
      && (c in s.answers ==> s.answers[c].Written? || s.answers[c] == Refused)
      && (c in s.answers && s.answers[c].Written? ==>
          Reports(s.finishes, pid, p.cfg, job, OutcomeOf(s.answers[c].answer)))
    case Ended(Some(job), Ok(outcome)) => Reports(s.finishes, pid, p.cfg, job, outcome)
    case _ => true
  }

  ghost predicate ProcOk(s: System, pid: Pid)
    requires pid in s.procs
  {
    && s.procs[pid].cfg.lease == s.lease && s.procs[pid].claim <= s.procs[pid].calls
    && if Holding(s.procs[pid].phase) then HolderOk(s, pid) else AskerOk(s, pid)
  }

  ghost predicate Inv(s: System) {
    && (forall id | id in s.table :: RowOk(s, id))
    && (forall a | a in s.grants :: GrantOk(s, a))
    && (forall c | c in s.sent :: SentOk(s, c))
    && (forall c | c in s.answers :: AnswerOk(s, c))
    && (forall a | a in s.finishes :: FinishOk(s, a))
    && (forall pid | pid in s.procs :: ProcOk(s, pid))
  }

  // ---------------------------------------------------------------- what keeps it

  /** The attempt a process relies on: the job it holds, or the one its pending claim was granted. */
  ghost predicate ReliesOn(s: System, pid: Pid, a: Attempt)
    requires pid in s.procs
  {
    var p := s.procs[pid];
    var c := Call(pid, p.calls);
    || (Holding(p.phase) && a == AttemptOf(p.phase.job))
    || (p.phase.Claiming? && c in s.answers && s.answers[c].Granted? && a == AttemptOf(s.answers[c].job))
  }

  ghost predicate CreditCarries(s: System, s': System, pid: Pid)
    requires pid in s.procs
  {
    forall worker, a, start | ReliesOn(s, pid, a) && start <= s.now && Credit(s, worker, a, start) ::
      Credit(s', worker, a, start)
  }

  ghost predicate Extends(s: System, s': System) {
    && s'.lease == s.lease && s.now <= s'.now
    && (forall a | a in s.grants :: a in s'.grants && s'.grants[a] == s.grants[a])
    && (forall a | a in s.finishes :: a in s'.finishes && s'.finishes[a] == s.finishes[a])
    && (forall pid | pid in s.procs ::
        pid in s'.procs && s'.procs[pid].cfg == s.procs[pid].cfg
        && s.procs[pid].calls <= s'.procs[pid].calls)
  }

  /** A process that takes no step, and whose current statement is not executed, stays all right. */
  lemma BystandersStayOk(s: System, s': System, pid: Pid)
    requires pid in s.procs && pid in s'.procs && s'.procs[pid] == s.procs[pid] && ProcOk(s, pid)
    requires Extends(s, s') && CreditCarries(s, s', pid)
    requires var c := Call(pid, s.procs[pid].calls);
             && (c in s'.sent ==> c in s.sent && s'.sent[c] == s.sent[c])
             && (c in s'.answers ==> c in s.answers && s'.answers[c] == s.answers[c])
    ensures ProcOk(s', pid)
  {
    hide Credit;
  }

  lemma GrantsStayOk(s: System, s': System, a: Attempt)
    requires a in s.grants && GrantOk(s, a) && Extends(s, s') && s.used <= s'.used
    requires a.id in s'.table ==> a.id in s.table && s.table[a.id].attempts <= s'.table[a.id].attempts
    ensures a in s'.grants && GrantOk(s', a)
  {
  }

  lemma FinishesStayOk(s: System, s': System, a: Attempt)
    requires a in s.finishes && FinishOk(s, a) && Extends(s, s')
    requires a.id in s'.table && s'.table[a.id].status == Running && s'.table[a.id].attempts == a.number ==>
               a.id in s.table && s.table[a.id].status == Running && s.table[a.id].attempts == a.number
    ensures a in s'.finishes && FinishOk(s', a)
  {
    hide Edge, Sound;
  }

  lemma SentStaysOk(s: System, s': System, c: Call)
    requires c in s.sent && SentOk(s, c) && Extends(s, s')
    requires c in s'.sent && s'.sent[c] == s.sent[c] && c !in s'.answers
    requires Holding(s'.procs[c.pid].phase) ==>
               (Holding(s.procs[c.pid].phase) && s'.procs[c.pid].claim == s.procs[c.pid].claim)
                   || s'.procs[c.pid].claim > c.number
    ensures SentOk(s', c)
  {
  }

  lemma AnswersStayOk(s: System, s': System, c: Call)
    requires c in s.answers && AnswerOk(s, c) && Extends(s, s')
    requires c in s'.answers && s'.answers[c] == s.answers[c]
    ensures AnswerOk(s', c)
  {
  }

  lemma RowsStayOk(s: System, s': System, id: JobId)
    requires id in s.table && RowOk(s, id) && Extends(s, s') && s.used <= s'.used
    requires id in s'.table && Sound(s'.table[id])
    requires s'.table[id].status == Running ==>
               s.table[id].status == Running && s'.table[id].attempts == s.table[id].attempts
                   && s'.table[id].lockedBy == s.table[id].lockedBy
    ensures RowOk(s', id)
  {
    hide Sound;
  }

  /** A step of no worker that leaves the table and the wire to the workers as they were, or takes from the wire. */
  lemma QuietStepsKeepInv(s: System, s': System)
    requires Inv(s) && Extends(s, s') && s'.table == s.table && s'.used == s.used && s'.grants == s.grants
        && s'.finishes == s.finishes
    requires s'.answers == s.answers && forall c | c in s'.sent :: c in s.sent && s'.sent[c] == s.sent[c]
    requires forall pid | pid in s'.procs :: if pid in s.procs then s'.procs[pid] == s.procs[pid] else ProcOk(s', pid)
    ensures Inv(s')
  {
    hide RowOk, GrantOk, FinishOk, SentOk, AnswerOk, ProcOk;
    forall id | id in s'.table ensures RowOk(s', id) {
      assert RowOk(s, id) && Sound(s.table[id]) by { RowsAreSound(s, id); }
      RowsStayOk(s, s', id);
    }
    forall a | a in s'.grants ensures GrantOk(s', a) {
      GrantsStayOk(s, s', a);
    }
    forall a | a in s'.finishes ensures FinishOk(s', a) {
      FinishesStayOk(s, s', a);
    }
    forall c | c in s'.sent ensures SentOk(s', c) {
      SentAreUnanswered(s, c);
      SentStaysOk(s, s', c);
    }
    forall c | c in s'.answers ensures AnswerOk(s', c) {
      AnswersStayOk(s, s', c);
    }
    forall pid | pid in s'.procs ensures ProcOk(s', pid) {
      if pid in s.procs {
        BystandersStayOk(s, s', pid);
      }
    }
  }

  lemma RowsAreSound(s: System, id: JobId)
    requires id in s.table && RowOk(s, id)
    ensures Sound(s.table[id])
  {
  }

  lemma SentAreUnanswered(s: System, c: Call)
    requires c in s.sent && SentOk(s, c)
    ensures Known(s, c) && c !in s.answers
  {
  }

  lemma QuietActionsKeepInv(s: System, a: Action)
    requires Inv(s) && Possible(s, a) && (a.Tick? || a.Start? || a.Lose?)
    ensures Inv(Do(s, a))
  {
    hide Inv, RowOk, GrantOk, FinishOk, SentOk, AnswerOk;
    QuietStepsKeepInv(s, Do(s, a));
  }

  /** What a statement of the housekeeping kind or of a worker may do to the rows others rely on. */
  ghost predicate RowsMoveOn(s: System, s': System) {
    && s.used <= s'.used && s'.table.Keys <= s'.used
    && (forall id | id in s'.table :: Sound(s'.table[id]))
    && (forall a | a in s.grants && a.id in s'.table ::
        a.id in s.table
        && s.table[a.id].attempts <= s'.table[a.id].attempts)
    && (forall id | id in s'.table && s'.table[id].status == Running ::
          || (id in s.table && s.table[id].status == Running && s'.table[id].attempts == s.table[id].attempts
              && s'.table[id].lockedBy == s.table[id].lockedBy)
          || (Attempt(id, s'.table[id].attempts) !in s.grants && RowOk(s', id)))
  }

  /** Everything but the processes and the wire, for any step whose effect on the table is of that kind. */
  lemma RowsMovingOnKeepHistory(s: System, s': System)
    requires Inv(s) && Extends(s, s') && RowsMoveOn(s, s')
    ensures forall id | id in s'.table :: RowOk(s', id)
    ensures forall a | a in s.grants :: GrantOk(s', a)
    ensures forall a | a in s.finishes :: FinishOk(s', a)
  {
    hide GrantOk, FinishOk, SentOk, AnswerOk, ProcOk;
    forall id | id in s'.table ensures RowOk(s', id) {
      hide Sound;
      if id in s.table && s'.table[id].status == Running && Attempt(id, s'.table[id].attempts) in s.grants {
        RowsStayOk(s, s', id);
      }
    }
    forall a | a in s.grants ensures GrantOk(s', a) {
      GrantsStayOk(s, s', a);
    }
    forall a | a in s.finishes ensures FinishOk(s', a) {
      FinishedWereGranted(s, a);
      FinishesStayOk(s, s', a);
    }
  }

  lemma FinishedWereGranted(s: System, a: Attempt)
    requires a in s.finishes && FinishOk(s, a)
    ensures a in s.grants
  {
    hide Edge, Sound;
  }

  lemma HousekeepingSparesRunningRows(s: System, a: Action)
    requires (a.Enqueue? || a.PurgeRows?) && Possible(s, a) && s.table.Keys <= s.used
    ensures var s' := Do(s, a);
            && s.used <= s'.used && s'.table.Keys <= s'.used
            && (forall id | id in s'.table && id in s.used :: id in s.table && s'.table[id] == s.table[id])
            && (forall id | id in s.table && s.table[id].status == Running :: id in s'.table)
            && (forall id | id in s'.table && s'.table[id].status == Running :: id in s.table)
  {
    hide TypeValid;
  }

  lemma HousekeepingMovesRowsOn(s: System, a: Action)
    requires Inv(s) && (a.Enqueue? || a.PurgeRows?) && Possible(s, a)
    ensures RowsMoveOn(s, Do(s, a)) && forall pid | pid in s.procs :: CreditCarries(s, Do(s, a), pid)
  {
    var op := if a.Enqueue? then Insert(a.id, a.job) else Purge(a.aged, a.completedAge, a.deadAge);
    TablesAreSound(s);
    StatementKeepsRowsSound(s.table, s.now, op);
    HousekeepingSparesRunningRows(s, a);
    assert forall g | g in s.grants :: GrantOk(s, g);
    assert Do(s, a).table == Apply(s.table, s.now, op) && Do(s, a).now == s.now && Do(s, a).lease == s.lease;
    hide Inv, Sound, TypeValid, Do, Apply, Enabled, Possible;
  }

  /** Inserts and purges never touch a running row. */
  lemma HousekeepingKeepsInv(s: System, a: Action)
    requires Inv(s) && (a.Enqueue? || a.PurgeRows?) && Possible(s, a)
    ensures Inv(Do(s, a))
  {
    hide RowOk, GrantOk, FinishOk, SentOk, AnswerOk, ProcOk, CreditCarries, Apply;
    var s' := Do(s, a);
    HousekeepingMovesRowsOn(s, a);
    RowsMovingOnKeepHistory(s, s');
    forall c | c in s'.sent ensures SentOk(s', c) {
      SentAreUnanswered(s, c);
      SentStaysOk(s, s', c);
    }
    forall c | c in s'.answers ensures AnswerOk(s', c) {
      AnswersStayOk(s, s', c);
    }
    forall pid | pid in s'.procs ensures ProcOk(s', pid) {
      BystandersStayOk(s, s', pid);
    }
  }

  // ---------------------------------------------------------------- executing a statement

  /** The process that waits for call `c`, if any, is all right once it is executed; all others are bystanders. */
  lemma ExecutionsKeepInv(s: System, s': System, c: Call)
    requires Inv(s) && c in s.sent && Extends(s, s') && RowsMoveOn(s, s')
    requires s'.procs == s.procs && s'.sent == s.sent - {c}
    requires forall d | d in s'.answers :: d == c || d in s.answers
    requires forall d | d in s.answers :: d in s'.answers && s'.answers[d] == s.answers[d]
    requires c in s'.answers ==> AnswerOk(s', c)
    requires forall a | a in s'.grants :: a in s.grants || GrantOk(s', a)
    requires forall a | a in s'.finishes :: a in s.finishes || FinishOk(s', a)
    requires forall pid | pid in s.procs && Call(pid, s.procs[pid].calls) != c :: CreditCarries(s, s', pid)
    requires c.pid in s.procs && s.procs[c.pid].calls == c.number ==> ProcOk(s', c.pid)
    ensures Inv(s')
  {
    hide RowOk, GrantOk, FinishOk, SentOk, AnswerOk, ProcOk, CreditCarries, RowsMoveOn;
    RowsMovingOnKeepHistory(s, s');
    forall d | d in s'.sent ensures SentOk(s', d) {
      SentAreUnanswered(s, d);
      SentStaysOk(s, s', d);
    }
    forall d | d in s'.answers ensures AnswerOk(s', d) {
      if d != c {
        AnswersStayOk(s, s', d);
      }
    }
    forall pid | pid in s'.procs ensures ProcOk(s', pid) {
      if Call(pid, s.procs[pid].calls) != c {
        BystandersStayOk(s, s', pid);
      }
    }
  }

  /** An answer that fits its query, as the process that waits for it needs it. */
  ghost predicate Fits(s': System, pid: Pid, cfg: Config, q: Query, answer: Answer) {
    match q
    case ReapQuery => answer == ReapDone
    case ClaimQuery => answer == NothingDue
        || (answer.Granted? && Credit(s', cfg.workerId, AttemptOf(answer.job), s'.now))
    case RenewQuery(a) => answer == Refused || (answer == LeaseRenewed && Credit(s', cfg.workerId, a, s'.now))
    case WriteQuery(a, write) =>
      answer == Refused
      || (answer.Written? && forall job: ClaimedJob, result ::
            AttemptOf(job) == a && write == WriteFor(cfg, job, result) ==>
                Reports(s'.finishes, pid, cfg, job, OutcomeOf(answer.answer)))
  }

  lemma WaitingProcessesStayOk(s: System, s': System, c: Call)
    requires c in s.sent && SentOk(s, c) && c.pid in s.procs && s.procs[c.pid].calls == c.number && ProcOk(s, c.pid)
    requires Extends(s, s') && s'.procs == s.procs && s'.now == s.now && s'.sent == s.sent - {c}
        && CreditCarries(s, s', c.pid)
    requires c in s'.answers && Fits(s', c.pid, s.procs[c.pid].cfg, s.sent[c], s'.answers[c])
    ensures ProcOk(s', c.pid)
  {
    hide Reports, WriteFor, OutcomeOf;
    var p := s.procs[c.pid];
    assert Call(c.pid, p.calls) == c;
    match p.phase {
      case Ended(Some(job), Ok(outcome)) => ReportsPersist(s.finishes, s'.finishes, c.pid, p.cfg, job, outcome);
      case _ =>
    }
  }

  lemma ReportsPersist(f: map<Attempt, Finish>, f': map<Attempt, Finish>, pid: Pid, cfg: Config, job: ClaimedJob,
          outcome: RunOutcome)
    requires Reports(f, pid, cfg, job, outcome) && forall a | a in f :: a in f' && f'[a] == f[a]
    ensures Reports(f', pid, cfg, job, outcome)
  {
  }

  lemma TablesAreSound(s: System)
    requires Inv(s)
    ensures AllSound(s.table) && s.table.Keys <= s.used
  {
    hide GrantOk, FinishOk, SentOk, AnswerOk, ProcOk;
    forall id | id in s.table ensures Sound(s.table[id]) && id in s.used {
      assert RowOk(s, id);
    }
  }

  // reap

  lemma ReapsMoveRowsOn(s: System, c: Call, chosen: set<JobId>, candidate: Option<JobId>)
    requires Inv(s) && Possible(s, Execute(c, chosen, candidate)) && s.sent[c].ReapQuery?
        && s.procs[c.pid].cfg.lease == s.lease
    ensures RowsMoveOn(s, ExecuteOf(s, c, chosen, candidate))
    ensures forall pid | pid in s.procs :: CreditCarries(s, ExecuteOf(s, c, chosen, candidate), pid)
  {
    hide RowOk, GrantOk, FinishOk, SentOk, AnswerOk, ProcOk, Sound, ReliesOn;
    TablesAreSound(s);
    StatementKeepsRowsSound(s.table, s.now, Reap(chosen, s.lease));
    var s' := ExecuteOf(s, c, chosen, candidate);
    forall worker, a, start | Credit(s, worker, a, start) ensures Credit(s', worker, a, start) {
    }
  }

  lemma ReapKeepsInv(s: System, c: Call, chosen: set<JobId>, candidate: Option<JobId>)
    requires Inv(s) && Possible(s, Execute(c, chosen, candidate)) && s.sent[c].ReapQuery?
    ensures Inv(ExecuteOf(s, c, chosen, candidate))
  {
    hide RowOk, GrantOk, FinishOk, Apply, CreditCarries, RowsMoveOn, HolderOk, AskerOk;
    var s' := ExecuteOf(s, c, chosen, candidate);
    assert ProcOk(s, c.pid) && SentOk(s, c);
    ReapsMoveRowsOn(s, c, chosen, candidate);
    if s.procs[c.pid].calls == c.number {
      WaitingProcessesStayOk(s, s', c);
    }
    ExecutionsKeepInv(s, s', c);
  }

  // renew

  lemma RenewalsMoveRowsOn(s: System, c: Call, chosen: set<JobId>, candidate: Option<JobId>)
    requires Inv(s) && Possible(s, Execute(c, chosen, candidate)) && s.sent[c].RenewQuery?
    ensures var s' := ExecuteOf(s, c, chosen, candidate);
            && RowsMoveOn(s, s')
            && Fits(s', c.pid, s.procs[c.pid].cfg, s.sent[c], s'.answers[c])
            && forall pid | pid in s.procs :: CreditCarries(s, s', pid)
  {
    hide RowOk, GrantOk, FinishOk, SentOk, AnswerOk, AskerOk, Sound;
    TablesAreSound(s);
    var a := s.sent[c].attempt;
    StatementKeepsRowsSound(s.table, s.now, Renew(a.id, s.procs[c.pid].cfg.workerId, a.number));
    var s' := ExecuteOf(s, c, chosen, candidate);
    hide ReliesOn;
    forall worker, b, start | start <= s.now && Credit(s, worker, b, start) ensures Credit(s', worker, b, start) {
    }
  }

  lemma RenewalKeepsInv(s: System, c: Call, chosen: set<JobId>, candidate: Option<JobId>)
    requires Inv(s) && Possible(s, Execute(c, chosen, candidate)) && s.sent[c].RenewQuery?
    ensures Inv(ExecuteOf(s, c, chosen, candidate))
  {
    hide RowOk, GrantOk, FinishOk, Apply, CreditCarries, RowsMoveOn, HolderOk, AskerOk, Fits;
    var s' := ExecuteOf(s, c, chosen, candidate);
    assert SentOk(s, c);
    RenewalsMoveRowsOn(s, c, chosen, candidate);
    if s.procs[c.pid].calls == c.number {
      WaitingProcessesStayOk(s, s', c);
    }
    ExecutionsKeepInv(s, s', c);
  }

  // claim

  /** The attempt a claim hands out was never handed out before. */
  lemma GrantsAreFresh(s: System, id: JobId)
    requires Inv(s) && id in s.table
    ensures Attempt(id, s.table[id].attempts + 1) !in s.grants
  {
    hide RowOk, FinishOk, SentOk, AnswerOk, ProcOk;
    var a := Attempt(id, s.table[id].attempts + 1);
    assert a in s.grants ==> GrantOk(s, a);
  }

  lemma ClaimsAreGranted(s: System, c: Call, chosen: set<JobId>, candidate: Option<JobId>)
    requires Inv(s) && Possible(s, Execute(c, chosen, candidate)) && s.sent[c].ClaimQuery? && Known(s, c)
    ensures var s' := ExecuteOf(s, c, chosen, candidate);
            && Extends(s, s')
            && c in s'.answers && Fits(s', c.pid, s.procs[c.pid].cfg, ClaimQuery, s'.answers[c])
            && (forall a | a in s'.grants :: a in s.grants || GrantOk(s', a))
            && (s'.answers[c].Granted? ==>
                AttemptOf(s'.answers[c].job) in s'.grants
                && s'.grants[AttemptOf(s'.answers[c].job)] == c)
  {
    hide FinishOk, SentOk, AnswerOk, ProcOk;
    TablesAreSound(s);
    if candidate.Some? {
      GrantsAreFresh(s, candidate.value);
    }
  }

  lemma ClaimsMoveRowsOn(s: System, c: Call, chosen: set<JobId>, candidate: Option<JobId>)
    requires Inv(s) && Possible(s, Execute(c, chosen, candidate)) && s.sent[c].ClaimQuery? && Known(s, c)
    ensures RowsMoveOn(s, ExecuteOf(s, c, chosen, candidate))
  {
    hide RowOk, GrantOk, FinishOk, SentOk, AnswerOk, ProcOk, Sound, IntoApplication;
    TablesAreSound(s);
    StatementKeepsRowsSound(s.table, s.now, Claim(candidate, s.procs[c.pid].cfg.workerId));
    var s' := ExecuteOf(s, c, chosen, candidate);
    if candidate.Some? {
      GrantsAreFresh(s, candidate.value);
      ClaimedRowsAreGranted(s, s', c, candidate.value);
    }
  }

  lemma ClaimedRowsAreGranted(s: System, s': System, c: Call, id: JobId)
    requires Known(s, c) && s'.procs == s.procs && id in s.table && s.used <= s'.used && id in s.used
    requires s'.table == s.table[id := Claimed(s.table[id], s.now, s.procs[c.pid].cfg.workerId)] && Sound(s'.table[id])
    requires Attempt(id, s.table[id].attempts + 1) in s'.grants && s'.grants[Attempt(id, s.table[id].attempts + 1)] == c
    ensures RowOk(s', id)
  {
    hide Sound;
  }

  lemma ClaimsCarryCredit(s: System, c: Call, chosen: set<JobId>, candidate: Option<JobId>, pid: Pid)
    requires Inv(s) && Possible(s, Execute(c, chosen, candidate)) && s.sent[c].ClaimQuery? && pid in s.procs
    ensures CreditCarries(s, ExecuteOf(s, c, chosen, candidate), pid)
  {
    hide RowOk, GrantOk, FinishOk, SentOk, AnswerOk, ProcOk, ReliesOn;
    var s' := ExecuteOf(s, c, chosen, candidate);
    forall worker, b, start | start <= s.now && Credit(s, worker, b, start) ensures Credit(s', worker, b, start) {
    }
  }

  lemma ClaimKeepsInv(s: System, c: Call, chosen: set<JobId>, candidate: Option<JobId>)
    requires Inv(s) && Possible(s, Execute(c, chosen, candidate)) && s.sent[c].ClaimQuery?
    ensures Inv(ExecuteOf(s, c, chosen, candidate))
  {
    hide RowOk, GrantOk, FinishOk, Apply, CreditCarries, RowsMoveOn, HolderOk, AskerOk, Fits;
    var s' := ExecuteOf(s, c, chosen, candidate);
    assert SentOk(s, c);
    ClaimsMoveRowsOn(s, c, chosen, candidate);
    ClaimsAreGranted(s, c, chosen, candidate);
    forall pid | pid in s.procs ensures CreditCarries(s, s', pid) {
      ClaimsCarryCredit(s, c, chosen, candidate, pid);
    }
    if s.procs[c.pid].calls == c.number {
      WaitingProcessesStayOk(s, s', c);
    }
    ExecutionsKeepInv(s, s', c);
  }

  // complete and fail

  /** A terminal write that takes effect hits no attempt that a worker still relies on. */
  lemma TerminalWritesHitNoHolder(s: System, c: Call, pid: Pid)
    requires Inv(s) && c in s.sent && s.sent[c].WriteQuery? && pid in s.procs
    ensures !ReliesOn(s, pid, s.sent[c].attempt)
  {
    hide RowOk, FinishOk, Credit, Reports;
    var a := s.sent[c].attempt;
    var d := Call(pid, s.procs[pid].calls);
    assert SentOk(s, c) && ProcOk(s, pid) && GrantOk(s, a);
    assert d in s.answers ==> AnswerOk(s, d);
  }

  lemma WritesMoveRowsOn(s: System, c: Call, chosen: set<JobId>, candidate: Option<JobId>)
    requires Inv(s) && Possible(s, Execute(c, chosen, candidate)) && s.sent[c].WriteQuery?
    ensures RowsMoveOn(s, ExecuteOf(s, c, chosen, candidate))
  {
    hide RowOk, FinishOk, SentOk, AnswerOk, ProcOk, Sound;
    TablesAreSound(s);
    StatementKeepsRowsSound(s.table, s.now, OpOf(s.procs[c.pid].cfg, s.sent[c], chosen, candidate));
  }

  lemma WritesCarryCredit(s: System, c: Call, chosen: set<JobId>, candidate: Option<JobId>, pid: Pid)
    requires Inv(s) && Possible(s, Execute(c, chosen, candidate)) && s.sent[c].WriteQuery? && pid in s.procs
    ensures CreditCarries(s, ExecuteOf(s, c, chosen, candidate), pid)
  {
    hide RowOk, FinishOk, SentOk, AnswerOk, ProcOk, ReliesOn;
    var s' := ExecuteOf(s, c, chosen, candidate);
    TerminalWritesHitNoHolder(s, c, pid);
    forall worker, b, start | ReliesOn(s, pid, b) && start <= s.now
        && Credit(s, worker, b, start) ensures Credit(s', worker, b, start) {
      assert b != s.sent[c].attempt;
    }
  }

  lemma WritesAreRecorded(s: System, c: Call, chosen: set<JobId>, candidate: Option<JobId>)
    requires Inv(s) && Possible(s, Execute(c, chosen, candidate)) && s.sent[c].WriteQuery? && SentOk(s, c)
    ensures var s', a := ExecuteOf(s, c, chosen, candidate), s.sent[c].attempt;
            && (a in s.finishes ==> s'.finishes == s.finishes)
            && (a in s'.finishes && a !in s.finishes ==> FinishOk(s', a))
            && (forall b | b in s'.finishes :: b == a || b in s.finishes)
  {
    var a, cfg := s.sent[c].attempt, s.procs[c.pid].cfg;
    TablesAreSound(s);
    assert a in s.finishes ==> FinishOk(s, a) by { hide RowOk, GrantOk, FinishOk, SentOk, AnswerOk, ProcOk; }
    hide Inv, Edge, Sound, Truncated, FailedRow;
    if Owns(s.table, a.id, cfg.workerId, a.number) {
      EndsAreMoves(s.table, s.now, OpOf(cfg, s.sent[c], chosen, candidate), a.id);
    }
  }

  lemma EndsAreMoves(t: Table, now: Time, op: Op, id: JobId)
    requires AllSound(t) && (op.Complete? || op.Fail?) && op.id == id && Owns(t, id, op.worker, op.attempt)
    ensures id in Apply(t, now, op) && Sound(t[id]) && Edge(t[id], Apply(t, now, op)[id], now)
        && Apply(t, now, op)[id].status != Running
  {
    StatementsFollowTheDiagram(t, now, op, id);
  }

  lemma WrittenAnswersFit(s: System, c: Call, chosen: set<JobId>, candidate: Option<JobId>)
    requires Inv(s) && Possible(s, Execute(c, chosen, candidate)) && s.sent[c].WriteQuery?
    ensures var s' := ExecuteOf(s, c, chosen, candidate); Fits(s', c.pid, s.procs[c.pid].cfg, s.sent[c], s'.answers[c])
  {
    TablesAreSound(s);
    hide Inv, Checks, RetryDelay, Truncated;
  }

  lemma WriteKeepsInv(s: System, c: Call, chosen: set<JobId>, candidate: Option<JobId>)
    requires Inv(s) && Possible(s, Execute(c, chosen, candidate)) && s.sent[c].WriteQuery?
    ensures Inv(ExecuteOf(s, c, chosen, candidate))
  {
    hide RowOk, GrantOk, FinishOk, Apply, CreditCarries, RowsMoveOn, HolderOk, AskerOk, Fits;
    var s' := ExecuteOf(s, c, chosen, candidate);
    assert SentOk(s, c);
    WritesMoveRowsOn(s, c, chosen, candidate);
    WritesAreRecorded(s, c, chosen, candidate);
    WrittenAnswersFit(s, c, chosen, candidate);
    forall pid | pid in s.procs ensures CreditCarries(s, s', pid) {
      WritesCarryCredit(s, c, chosen, candidate, pid);
    }
    if s.procs[c.pid].calls == c.number {
      WaitingProcessesStayOk(s, s', c);
    }
    ExecutionsKeepInv(s, s', c);
  }

  // ---------------------------------------------------------------- a worker's own steps

  lemma NextCallsAreFresh(s: System, pid: Pid)
    requires Inv(s) && pid in s.procs
    ensures Call(pid, s.procs[pid].calls + 1) !in s.answers && Call(pid, s.procs[pid].calls + 1) !in s.sent
  {
    hide RowOk, GrantOk, FinishOk, ProcOk;
    var c := Call(pid, s.procs[pid].calls + 1);
    assert c in s.answers ==> AnswerOk(s, c);
    assert c in s.sent ==> SentOk(s, c);
  }

  lemma CurrentAnswersAreOk(s: System, pid: Pid)
    requires Inv(s) && pid in s.procs
    ensures var c := Call(pid, s.procs[pid].calls); c in s.answers ==> AnswerOk(s, c)
  {
    hide RowOk, GrantOk, FinishOk, ProcOk, SentOk, AnswerOk;
  }

  lemma CurrentProcsAreOk(s: System, pid: Pid)
    requires Inv(s) && pid in s.procs
    ensures ProcOk(s, pid)
  {
    hide RowOk, GrantOk, FinishOk, ProcOk, SentOk, AnswerOk;
  }

  /** Claiming, and writing the job's end. */
  lemma AskersStayOk(s: System, pid: Pid, e: Event)
    requires Inv(s) && Possible(s, Act(pid, e)) && !Holding(s.procs[pid].phase)
    ensures ProcOk(ActOf(s, pid, e), pid)
  {
    hide Inv, ProcOk, AnswerOk, Step, ActOf, Justified;
    NextCallsAreFresh(s, pid);
    CurrentAnswersAreOk(s, pid);
    CurrentProcsAreOk(s, pid);
    if s.procs[pid].phase.Claiming? {
      ClaimersStayOk(s, pid, e);
    } else {
      WritersStayOk(s, pid, e);
    }
  }

  lemma ClaimersStayOk(s: System, pid: Pid, e: Event)
    requires pid in s.procs && ProcOk(s, pid) && Possible(s, Act(pid, e)) && s.procs[pid].phase.Claiming?
    requires var c := Call(pid, s.procs[pid].calls); c in s.answers ==> AnswerOk(s, c)
    ensures ProcOk(ActOf(s, pid, e), pid)
  {
    hide Reports, WriteFor;
  }

  lemma WritersStayOk(s: System, pid: Pid, e: Event)
    requires pid in s.procs && ProcOk(s, pid) && Possible(s, Act(pid, e))
    requires !Holding(s.procs[pid].phase) && !s.procs[pid].phase.Claiming?
    requires Call(pid, s.procs[pid].calls + 1) !in s.answers
    ensures ProcOk(ActOf(s, pid, e), pid)
  {
    hide Reports, WriteFor, Credit, HolderOk;
  }

  /** The heartbeat loop: the new deadline rests on the renewal's start, and the attempt stays the same. */
  lemma HoldersStayOk(s: System, pid: Pid, e: Event)
    requires Inv(s) && Possible(s, Act(pid, e)) && Holding(s.procs[pid].phase)
    ensures ProcOk(ActOf(s, pid, e), pid)
  {
    hide Inv, ProcOk, Step, ActOf, Justified;
    NextCallsAreFresh(s, pid);
    CurrentProcsAreOk(s, pid);
    if s.procs[pid].phase.Renewing? {
      RenewersStayOk(s, pid, e);
    } else {
      WaitersStayOk(s, pid, e);
    }
  }

  lemma RenewersStayOk(s: System, pid: Pid, e: Event)
    requires pid in s.procs && ProcOk(s, pid) && Possible(s, Act(pid, e)) && s.procs[pid].phase.Renewing?
    ensures ProcOk(ActOf(s, pid, e), pid)
  {
    hide Reports, WriteFor;
  }

  lemma WaitersStayOk(s: System, pid: Pid, e: Event)
    requires pid in s.procs && ProcOk(s, pid) && Possible(s, Act(pid, e))
    requires Holding(s.procs[pid].phase) && !s.procs[pid].phase.Renewing?
    requires Call(pid, s.procs[pid].calls + 1) !in s.answers
    ensures ProcOk(ActOf(s, pid, e), pid)
  {
    hide Reports, Credit;
    var p, s' := s.procs[pid], ActOf(s, pid, e);
    var a := AttemptOf(p.phase.job);
    assert Credit(s', p.cfg.workerId, a, Deadline(p.phase) - s.lease) by {
      SameTableSameCredit(s, s', p.cfg.workerId, a, Deadline(p.phase) - s.lease);
    }
  }

  lemma SameTableSameCredit(s: System, s': System, worker: string, a: Attempt, start: Time)
    requires s'.now == s.now && s'.lease == s.lease && s'.table == s.table && Credit(s, worker, a, start)
    ensures Credit(s', worker, a, start)
  {
  }

  lemma IssuedStatementsAreOk(s: System, pid: Pid, e: Event)
    requires Inv(s) && Possible(s, Act(pid, e)) && Issued(s.procs[pid].phase, e).Some?
    ensures var c := Call(pid, s.procs[pid].calls + 1); c in ActOf(s, pid, e).sent && SentOk(ActOf(s, pid, e), c)
  {
    NextCallsAreFresh(s, pid);
    CurrentProcsAreOk(s, pid);
    hide Inv, Reports, WriteFor, Credit;
  }

  /** A worker gains a job only from the answer to its latest claim, issued after every write still under way. */
  lemma GainedJobsAreNewer(s: System, pid: Pid, e: Event, c: Call)
    requires Inv(s) && Possible(s, Act(pid, e)) && c in s.sent && c.pid == pid
    requires !Holding(s.procs[pid].phase) && Holding(ActOf(s, pid, e).procs[pid].phase)
    ensures ActOf(s, pid, e).procs[pid].claim > c.number
  {
    hide Inv, Reports, WriteFor, Credit, HolderOk, SentOk, AfterRenewal;
    CurrentProcsAreOk(s, pid);
    CurrentSentAreOk(s, c);
    SentAreUnanswered(s, c);
  }

  lemma KeptJobsKeepTheirClaim(s: System, pid: Pid, e: Event)
    requires Possible(s, Act(pid, e)) && Holding(s.procs[pid].phase)
    ensures ActOf(s, pid, e).procs[pid].claim == s.procs[pid].claim
  {
  }

  lemma CurrentSentAreOk(s: System, c: Call)
    requires Inv(s) && c in s.sent
    ensures SentOk(s, c)
  {
    hide RowOk, GrantOk, FinishOk, AnswerOk, ProcOk, SentOk;
  }

  /** What a worker's own step leaves alone. */
  ghost predicate Local(s: System, s': System, pid: Pid, e: Event)
    requires pid in s.procs
  {
    && s'.now == s.now && s'.lease == s.lease && s'.table == s.table && s'.used == s.used
    && s'.answers == s.answers && s'.grants == s.grants && s'.finishes == s.finishes
    && (forall c | c in s.sent :: c in s'.sent && s'.sent[c] == s.sent[c])
    && (forall c | c in s'.sent && c !in s.sent ::
        c == Call(pid, s.procs[pid].calls + 1)
        && Issued(s.procs[pid].phase, e).Some?)
    && s'.procs.Keys == s.procs.Keys
    && (forall q | q in s.procs && q != pid :: s'.procs[q] == s.procs[q])
    && s'.procs[pid].cfg == s.procs[pid].cfg && s.procs[pid].calls <= s'.procs[pid].calls
  }

  lemma ActsAreLocal(s: System, pid: Pid, e: Event)
    requires Inv(s) && Possible(s, Act(pid, e))
    ensures Local(s, ActOf(s, pid, e), pid, e) && Extends(s, ActOf(s, pid, e))
  {
    hide Inv, Step, Issued, Justified;
    NextCallsAreFresh(s, pid);
    var s' := ActOf(s, pid, e);
    assert Local(s, s', pid, e);
    hide ActOf, Possible;
  }

  lemma PendingStatementsStayOk(s: System, pid: Pid, e: Event, c: Call)
    requires Inv(s) && Possible(s, Act(pid, e)) && c in s.sent
    ensures c in ActOf(s, pid, e).sent && SentOk(ActOf(s, pid, e), c)
  {
    hide Inv, Step, Issued, Justified, SentOk, ActOf;
    ActsAreLocal(s, pid, e);
    CurrentSentAreOk(s, c);
    SentAreUnanswered(s, c);
    if c.pid == pid {
      if Holding(s.procs[pid].phase) {
        KeptJobsKeepTheirClaim(s, pid, e);
      } else if Holding(ActOf(s, pid, e).procs[pid].phase) {
        GainedJobsAreNewer(s, pid, e, c);
      }
    }
    SentStaysOk(s, ActOf(s, pid, e), c);
  }

  lemma ActKeepsInv(s: System, pid: Pid, e: Event)
    requires Inv(s) && Possible(s, Act(pid, e))
    ensures Inv(ActOf(s, pid, e))
  {
    hide RowOk, GrantOk, FinishOk, SentOk, AnswerOk, ProcOk, Step, Issued, Justified, ActOf, Sound;
    var s' := ActOf(s, pid, e);
    ActsAreLocal(s, pid, e);
    TablesAreSound(s);
    RowsMovingOnKeepHistory(s, s');
    forall c | c in s'.sent ensures SentOk(s', c) {
      if c in s.sent {
        PendingStatementsStayOk(s, pid, e, c);
      } else {
        IssuedStatementsAreOk(s, pid, e);
      }
    }
    forall c | c in s'.answers ensures AnswerOk(s', c) {
      AnswersStayOk(s, s', c);
    }
    forall q | q in s'.procs ensures ProcOk(s', q) {
      if q != pid {
        BystandersStayOk(s, s', q);
      } else if Holding(s.procs[pid].phase) {
        HoldersStayOk(s, pid, e);
      } else {
        AskersStayOk(s, pid, e);
      }
    }
  }

  lemma ActionsKeepInv(s: System, a: Action)
    requires Inv(s) && Possible(s, a)
    ensures Inv(Do(s, a))
  {
    hide Inv, Possible, ActOf, ExecuteOf;
    match a
    case Enqueue(_, _) => HousekeepingKeepsInv(s, a);
    case PurgeRows(_, _, _) => HousekeepingKeepsInv(s, a);
    case Act(pid, e) => ActKeepsInv(s, pid, e);
    case Execute(c, chosen, candidate) => ExecuteKeepsInv(s, c, chosen, candidate);
    case _ => QuietActionsKeepInv(s, a);
  }

  lemma ExecuteKeepsInv(s: System, c: Call, chosen: set<JobId>, candidate: Option<JobId>)
    requires Inv(s) && Possible(s, Execute(c, chosen, candidate))
    ensures Inv(ExecuteOf(s, c, chosen, candidate))
  {
    hide Inv, ExecuteOf;
    match s.sent[c]
    case ReapQuery => ReapKeepsInv(s, c, chosen, candidate);
    case ClaimQuery => ClaimKeepsInv(s, c, chosen, candidate);
    case RenewQuery(_) => RenewalKeepsInv(s, c, chosen, candidate);
    case WriteQuery(_, _) => WriteKeepsInv(s, c, chosen, candidate);
  }

  // ---------------------------------------------------------------- runs

  ghost predicate Plays(s: System, actions: seq<Action>)
    decreases actions
  {
    actions == [] || (Possible(s, actions[0]) && Plays(Do(s, actions[0]), actions[1..]))
  }

  ghost function End(s: System, actions: seq<Action>): System
    requires Plays(s, actions)
    decreases actions
  {
    if actions == [] then s else End(Do(s, actions[0]), actions[1..])
  }

  lemma {:induction false} RunsKeepInv(s: System, actions: seq<Action>)
    requires Inv(s) && Plays(s, actions)
    ensures Inv(End(s, actions))
    decreases actions
  {
    hide Inv, Possible, Do;
    if actions != [] {
      ActionsKeepInv(s, actions[0]);
      RunsKeepInv(Do(s, actions[0]), actions[1..]);
    }
  }

  lemma InitialStatesAreOk(s: System)
    requires Initial(s)
    ensures Inv(s)
  {
  }

  lemma ReachableStatesAreOk(s0: System, actions: seq<Action>)
    requires Initial(s0) && Plays(s0, actions)
    ensures Inv(End(s0, actions))
  {
    hide Inv, Plays, End;
    InitialStatesAreOk(s0);
    RunsKeepInv(s0, actions);
  }

  // ---------------------------------------------------------------- main results

  /**
   Lease safety. In every reachable state, a worker that holds a job and whose clock is before its deadline
   owns the job's row at its attempt, and the table's own expiry is no earlier than the worker's deadline.
   */
  lemma LeaseSafety(s0: System, actions: seq<Action>, pid: Pid)
    requires Initial(s0) && Plays(s0, actions)
    ensures var s := End(s0, actions);
            pid in s.procs && Holding(s.procs[pid].phase) && s.now < Deadline(s.procs[pid].phase) ==>
              var p := s.procs[pid].phase;
              && p.job.id in s.table
              && var r := s.table[p.job.id];
                 && r.status == Running && r.attempts == p.job.attempts && r.lockedBy == Some(s.procs[pid].cfg.workerId)
                 && r.lockedAt.Some? && r.lockedAt.value + s.lease >= Deadline(p)
                 && !Expired(r, s.now, s.lease)
  {
    ReachableStatesAreOk(s0, actions);
    if pid in End(s0, actions).procs {
      CurrentProcsAreOk(End(s0, actions), pid);
    }
    hide Inv;
  }

  /** No two workers hold the same job inside their deadlines, even under one worker id. */
  lemma NoTwoHolders(s0: System, actions: seq<Action>, p: Pid, q: Pid)
    requires Initial(s0) && Plays(s0, actions)
    ensures var s := End(s0, actions);
            && p in s.procs && Holding(s.procs[p].phase) && s.now < Deadline(s.procs[p].phase)
            && q in s.procs && Holding(s.procs[q].phase) && s.now < Deadline(s.procs[q].phase)
            && s.procs[p].phase.job.id == s.procs[q].phase.job.id
            ==> p == q
  {
    var s := End(s0, actions);
    LeaseSafety(s0, actions, p);
    LeaseSafety(s0, actions, q);
    ReachableStatesAreOk(s0, actions);
    if p in s.procs && q in s.procs {
      CurrentProcsAreOk(s, p);
      CurrentProcsAreOk(s, q);
    }
    hide Inv, Credit;
  }

  /** The attempt an action hands out, if it is a claim that finds a job. */
  function HandsOut(s: System, a: Action): Option<Attempt>
    requires Possible(s, a)
  {
    if a.Execute? && s.sent[a.call].ClaimQuery? && a.candidate.Some? then
      Some(Attempt(a.candidate.value, s.table[a.candidate.value].attempts + 1))
    else None
  }

  ghost function TimesHandedOut(s: System, actions: seq<Action>, a: Attempt): nat
    requires Plays(s, actions)
    decreases actions
  {
    if actions == [] then 0
    else (if HandsOut(s, actions[0]) == Some(a) then 1 else 0) + TimesHandedOut(Do(s, actions[0]), actions[1..], a)
  }

  lemma HandOutsAreRecorded(s: System, a: Action)
    requires Inv(s) && Possible(s, a)
    ensures forall g :: g in Do(s, a).grants <==> g in s.grants || HandsOut(s, a) == Some(g)
    ensures HandsOut(s, a).Some? ==> HandsOut(s, a).value !in s.grants
    ensures HandsOut(s, a).Some? ==> forall g | g in s.grants
        && g.id == HandsOut(s, a).value.id :: g.number < HandsOut(s, a).value.number
  {
    hide Inv, Enabled, Step, Issued, Justified, IntoApplication;
    if HandsOut(s, a).Some? {
      HandedOutRowsExist(s, a);
      GrantsAreFresh(s, a.candidate.value);
      OlderGrantsAreSmaller(s, a.candidate.value);
    }
  }

  lemma HandedOutRowsExist(s: System, a: Action)
    requires Possible(s, a) && HandsOut(s, a).Some?
    ensures a.candidate.value in s.table
  {
  }

  lemma OlderGrantsAreSmaller(s: System, id: JobId)
    requires Inv(s) && id in s.table
    ensures forall g | g in s.grants && g.id == id :: g.number <= s.table[id].attempts
  {
    hide RowOk, FinishOk, SentOk, AnswerOk, ProcOk;
    forall g | g in s.grants && g.id == id ensures g.number <= s.table[id].attempts {
      assert GrantOk(s, g);
    }
  }

  lemma {:induction false} AttemptsAreHandedOutOnceFrom(s: System, actions: seq<Action>, a: Attempt)
    requires Inv(s) && Plays(s, actions)
    ensures TimesHandedOut(s, actions, a) + (if a in s.grants then 1 else 0) ==
        if a in End(s, actions).grants then 1 else 0
    decreases actions
  {
    hide Inv, Possible, Do, HandsOut;
    if actions != [] {
      ActionsKeepInv(s, actions[0]);
      HandOutsAreRecorded(s, actions[0]);
      AttemptsAreHandedOutOnceFrom(Do(s, actions[0]), actions[1..], a);
    }
  }

  /** Fencing, first half: in any run every attempt of a job is handed out at most once. */
  lemma AttemptsAreHandedOutOnce(s0: System, actions: seq<Action>, a: Attempt)
    requires Initial(s0) && Plays(s0, actions)
    ensures TimesHandedOut(s0, actions, a) <= 1
  {
    InitialStatesAreOk(s0);
    AttemptsAreHandedOutOnceFrom(s0, actions, a);
  }

  /** Fencing, second half: once a newer attempt was handed out, a delayed statement of the older one is refused. */
  lemma SupersededStatementsAreRefused(s0: System, actions: seq<Action>, late: Action, newer: Attempt)
    requires Initial(s0) && Plays(s0, actions)
    requires late.Execute? && Possible(End(s0, actions), late)
    requires var q := End(s0, actions).sent[late.call];
             (q.RenewQuery? || q.WriteQuery?) && newer in End(s0, actions).grants
             && newer.id == q.attempt.id && newer.number > q.attempt.number
    ensures Do(End(s0, actions), late).table == End(s0, actions).table
    ensures late.call in Do(End(s0, actions), late).answers && Do(End(s0, actions), late).answers[late.call] == Refused
  {
    hide Inv, Plays, End;
    ReachableStatesAreOk(s0, actions);
    SupersededAttemptsOwnNothing(End(s0, actions), End(s0, actions).sent[late.call].attempt, newer);
    hide Enabled, IntoApplication, OwnedBy;
  }

  lemma SupersededAttemptsOwnNothing(s: System, a: Attempt, newer: Attempt)
    requires Inv(s) && newer in s.grants && newer.id == a.id && newer.number > a.number
    ensures forall worker :: !Owns(s.table, a.id, worker, a.number)
  {
    if newer.id in s.table {
      OlderGrantsAreSmaller(s, newer.id);
    }
    hide Inv;
  }

  /**
   Outcome soundness. Whatever `run_once` reports as done was done by this very attempt: the row was running
   at the attempt under this worker, and the write moved it to completed, to pending with the backoff added,
   or to dead with the attempts used up.
   */
  lemma OutcomesAreTrue(s0: System, actions: seq<Action>, pid: Pid)
    requires Initial(s0) && Plays(s0, actions)
    ensures var s := End(s0, actions);
            pid in s.procs && s.procs[pid].phase.Ended? && s.procs[pid].phase.last.Some?
            && s.procs[pid].phase.outcome.Ok? && s.procs[pid].phase.outcome.value != Idled ==>
              var cfg, job, outcome := s.procs[pid].cfg, s.procs[pid].phase.last.value,
                  s.procs[pid].phase.outcome.value;
              && AttemptOf(job) in s.finishes
              && var f := s.finishes[AttemptOf(job)];
                 && f.call.pid == pid
                 && OwnedBy(f.before, cfg.workerId, job.attempts) && SameJob(f.before, f.after) && Unlocked(f.after)
                 && (outcome == JobCompleted ==> f.after.status == Completed && f.after.completedAt == Some(f.at))
                 && (outcome == JobRetryScheduled ==>
                       && f.after.status == Pending && f.after.attempts == job.attempts < f.after.maxAttempts
                       && f.after.availableAt == f.at + RetryDelay(cfg.retryBase, cfg.retryMax, job.attempts))
                 && (outcome == JobDeadLettered ==> f.after.status == Dead && f.after.attempts == f.after.maxAttempts)
  {
    var s := End(s0, actions);
    ReachableStatesAreOk(s0, actions);
    hide Inv, Plays, End, RetryDelay, ProcOk;
    if pid in s.procs && s.procs[pid].phase.Ended? && s.procs[pid].phase.last.Some? && s.procs[pid].phase.outcome.Ok? {
      EndedRunsReport(s, pid);
      var a := AttemptOf(s.procs[pid].phase.last.value);
      if a in s.finishes {
        FinishesAreMoves(s, a);
      }
    }
  }

  lemma EndedRunsReport(s: System, pid: Pid)
    requires Inv(s) && pid in s.procs && s.procs[pid].phase.Ended? && s.procs[pid].phase.last.Some?
        && s.procs[pid].phase.outcome.Ok?
    ensures Reports(s.finishes, pid, s.procs[pid].cfg, s.procs[pid].phase.last.value, s.procs[pid].phase.outcome.value)
  {
    CurrentProcsAreOk(s, pid);
    hide Inv, Reports;
  }

  lemma FinishesAreMoves(s: System, a: Attempt)
    requires Inv(s) && a in s.finishes
    ensures var f := s.finishes[a];
            && f.before.status == Running && f.before.attempts == a.number
            && SameJob(f.before, f.after) && Unlocked(f.after) && f.after.attempts == a.number
  {
    assert FinishOk(s, a) by { hide RowOk, GrantOk, FinishOk, SentOk, AnswerOk, ProcOk; }
    hide Inv, Sound;
  }
}
