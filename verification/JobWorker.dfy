/**
 `JobWorker` as it runs: `run_once`, `execute_with_heartbeat` and `run_maintenance`. Clock, handler,
 timers and database are a script the worker knows nothing about; whatever the script says, the worker
 behaves as the automaton allows and stops early only where the automaton is waiting for something else.
 */
module JobWorker {
  import opened Wrappers
  import opened JobTable
  import opened JobQueue
  import opened WorkerAutomaton

  /** Time that passes before the worker reads its clock, or something that arrives after a while. */
  datatype Happening = Passes(wait: nat) | Arrives(wait: nat, event: Event)

  function Arrivals(script: seq<Happening>): seq<Event> {
    if script == [] then []
    else (if script[0].Arrives? then [script[0].event] else []) + Arrivals(script[1..])
  }

  /** The events of a trace that came from outside the worker. */
  function Heard(trace: seq<Timed>): seq<Event> {
    if trace == [] then []
    else Heard(trace[..|trace| - 1]) + if Internal(trace[|trace| - 1].event) then [] else [trace[|trace| - 1].event]
  }

  lemma HeardOneMore(trace: seq<Timed>, e: Timed)
    ensures Heard(trace + [e]) == Heard(trace) + if Internal(e.event) then [] else [e.event]
  {
  }

  /** Nothing the worker awaits in this phase comes next: the process is cut off here. */
  predicate Stuck(cfg: Config, p: Phase, now: Time, script: seq<Happening>) {
    script == [] || script[0].Passes? || Internal(script[0].event)
        || Step(cfg, p, now + script[0].wait, script[0].event).None?
  }

  class Surroundings {
    var now: Time
    var script: seq<Happening>
    var trace: seq<Timed>

    constructor (now: Time, script: seq<Happening>)
      ensures this.now == now && this.script == script && trace == []
    {
      this.now, this.script, trace := now, script, [];
    }

    ghost predicate At(cfg: Config, p: Phase)
      reads this
    {
      Replay(cfg, trace) == Some(p) && (trace != [] ==> trace[|trace| - 1].at <= now)
    }

    /** The process is cut off while it waits. */
    ghost predicate CutOff(cfg: Config)
      reads this
    {
      Replay(cfg, trace).Some? && Stuck(cfg, Replay(cfg, trace).value, now, script)
    }

    /** Everything that arrived so far and everything that is still to come. */
    ghost function Told(): seq<Event>
      reads this
    {
      Heard(trace) + Arrivals(script)
    }

    method Clock() returns (t: Time)
      modifies this`now, this`script
      ensures t == now >= old(now) && Told() == old(Told()) && |script| <= |old(script)|
      ensures forall cfg, p | old(At(cfg, p)) :: At(cfg, p)
    {
      if script != [] && script[0].Passes? {
        now, script := now + script[0].wait, script[1..];
      }
      t := now;
    }

    method Append(cfg: Config, ghost p: Phase, e: Event)
      requires At(cfg, p) && Step(cfg, p, now, e).Some?
      modifies this`trace
      ensures At(cfg, Step(cfg, p, now, e).value) && trace == old(trace) + [Timed(now, e)]
      ensures Heard(trace) == Heard(old(trace)) + if Internal(e) then [] else [e]
    {
      ReplayOneMore(cfg, trace, Timed(now, e));
      HeardOneMore(trace, Timed(now, e));
      trace := trace + [Timed(now, e)];
    }

    /** A step of the worker's own. */
    method Log(cfg: Config, ghost p: Phase, e: Event)
      requires At(cfg, p) && Internal(e) && Step(cfg, p, now, e).Some?
      modifies this`trace
      ensures At(cfg, Step(cfg, p, now, e).value) && Told() == old(Told())
      ensures trace == old(trace) + [Timed(now, e)] && Last(trace) == e
    {
      Append(cfg, p, e);
    }

    /** Waits in phase `p` for the next arrival. */
    method Await(cfg: Config, p: Phase) returns (e: Option<Event>)
      requires At(cfg, p)
      modifies this
      ensures Told() == old(Told()) && now >= old(now)
      ensures e.None? ==> At(cfg, p) && Stuck(cfg, p, now, script) && CutOff(cfg)
      ensures e.Some? ==>
          && !Internal(e.value) && Step(cfg, p, now, e.value).Some?
          && At(cfg, Step(cfg, p, now, e.value).value)
          && |script| < |old(script)| && Last(trace) == e.value
    {
      hide Replay, Step, Heard;
      if Stuck(cfg, p, now, script) {
        return None;
      }
      var event := script[0].event;
      now := now + script[0].wait;
      Append(cfg, p, event);
      script := script[1..];
      assert Told() == old(Heard(trace)) + ([event] + Arrivals(script));
      e := Some(event);
    }
  }

  /** The reply to a renewal, polling the handler meanwhile; once the handler finished, only the reply is awaited. */
  method AwaitRenewal(cfg: Config, job: ClaimedJob, beat: Beat, started: Time, w: Surroundings)
    returns (reply: Option<Event>, finished: Option<HandlerResult>)
    requires w.At(cfg, Renewing(job, beat, started, None))
    modifies w
    ensures w.Told() == old(w.Told()) && w.now >= old(w.now)
    ensures match reply
            case None => w.At(cfg, Renewing(job, beat, started, finished)) && w.CutOff(cfg)
            case Some(RenewalReplied(Ok(_))) => w.At(cfg, Resumed(job, BeatFrom(started, cfg.lease), finished))
            case Some(RenewalReplied(Err(Unavailable))) => w.At(cfg, Retrying(job, beat, finished))
            case Some(RenewalReplied(Err(LeaseLost))) => w.At(cfg, Ended(Some(job), LOST))
            case Some(RenewalTimedOut) => w.At(cfg, Ended(Some(job), LOST))
            case Some(_) => false
    ensures reply.Some? ==> |w.script| < |old(w.script)| && Last(w.trace) == reply.value
  {
    hide Replay, Heard, Arrivals;
    finished := None;
    reply := w.Await(cfg, Renewing(job, beat, started, None));
    if reply.Some? && reply.value.HandlerFinishedDuringRenewal? {
      finished := Some(reply.value.result);
      reply := w.Await(cfg, Renewing(job, beat, started, finished));
    }
  }

  /** The loop; where it stops is a phase of the automaton. */
  method Heartbeat(cfg: Config, job: ClaimedJob, claimedAt: Time, w: Surroundings)
    returns (r: Option<Result<(HandlerResult, Time), JobQueueError>>)
    requires w.At(cfg, Top(job, BeatFrom(claimedAt, cfg.lease)))
    modifies w
    ensures w.Told() == old(w.Told()) && w.now >= old(w.now)
    ensures r.None? ==> w.CutOff(cfg)
    ensures r.Some? && r.value.Ok? ==> w.At(cfg, Settled(job, r.value.value.1, r.value.value.0))
    ensures r.Some? && r.value.Err? ==> w.At(cfg, Ended(Some(job), Err(r.value.error)))
    ensures r.Some? && r.value.Err? ==>
              && r.value.error == LeaseLost
              && Last(w.trace) in
                  {LoopTooLate, HandlerTimedOut, RenewalTooLate, RenewalTimedOut, RenewalReplied(Err(LeaseLost))}
  {
    hide Replay, Heard, Arrivals, WriteFor, RetryDelay, CanReturn, CanAnswer, Reported, AfterClaim, Stuck, Max,
        Surroundings.Told, Surroundings.At, Surroundings.CutOff, Last;
    var interval := Max(cfg.lease / 3, 1);
    var deadline := claimedAt + cfg.lease;
    var retryInterval := Max(interval / 4, 1);
    var nextRenewal := claimedAt + interval;

    while true
      invariant w.At(cfg, Top(job, Beat(deadline, nextRenewal)))
      invariant w.Told() == old(w.Told()) && w.now >= old(w.now)
      decreases |w.script|
    {
      var now := w.Clock();
      if now >= deadline {
        w.Log(cfg, Top(job, Beat(deadline, nextRenewal)), LoopTooLate);
        return Some(Err(LeaseLost));
      }
      w.Log(cfg, Top(job, Beat(deadline, nextRenewal)), LoopEntered);

      var selected := w.Await(cfg, Waiting(job, Beat(deadline, nextRenewal)));
      match selected {
        case None =>
          return None;
        case Some(HandlerFinished(result)) =>
          return Some(Ok((result, deadline)));
        case Some(HandlerTimedOut) =>
          return Some(Err(LeaseLost));
        case Some(_) =>
          // the renewal timer fired
      }

      var renewalStarted := w.Clock();
      if renewalStarted >= deadline {
        w.Log(cfg, Due(job, Beat(deadline, nextRenewal)), RenewalTooLate);
        return Some(Err(LeaseLost));
      }
      w.Log(cfg, Due(job, Beat(deadline, nextRenewal)), RenewalStarted);

      var reply, finished := AwaitRenewal(cfg, job, Beat(deadline, nextRenewal), renewalStarted, w);
      match reply {
        case None =>
          return None;
        case Some(RenewalReplied(Ok(_))) =>
          deadline := renewalStarted + cfg.lease;
          nextRenewal := renewalStarted + interval;
        case Some(RenewalReplied(Err(Unavailable))) =>
          var failed := w.Clock();
          w.Log(cfg, Retrying(job, Beat(deadline, nextRenewal), finished), RetryTimed);
          nextRenewal := failed + retryInterval;
        case Some(_) =>
          return Some(Err(LeaseLost));
      }
      if finished.Some? {
        return Some(Ok((finished.value, deadline)));
      }
    }
  }

  /**
   Runs the handler under the lease, renewing it. The result is None when the script cuts the worker off;
   otherwise the handler's result with the deadline it still has, or the reason it must not be used.
   */
  method ExecuteWithHeartbeat(cfg: Config, job: ClaimedJob, claimedAt: Time, w: Surroundings)
    returns (r: Option<Result<(HandlerResult, Time), JobQueueError>>)
    requires w.At(cfg, Top(job, BeatFrom(claimedAt, cfg.lease)))
    modifies w
    ensures w.Told() == old(w.Told()) && w.now >= old(w.now)
    ensures r.None? ==> w.CutOff(cfg)
    ensures r.Some? && r.value.Ok? ==> w.At(cfg, Settled(job, r.value.value.1, r.value.value.0))
    ensures r.Some? && r.value.Err? ==> w.At(cfg, Ended(Some(job), Err(r.value.error)))
    ensures r.Some? && r.value.Ok? ==>
              && HistoryOf(w.trace).result == Some(r.value.value.0)
              && r.value.value.1 == HistoryOf(w.trace).success + cfg.lease
    ensures r.Some? && r.value.Err? ==>
              && r.value.error == LeaseLost
              && Last(w.trace) in
                  {LoopTooLate, HandlerTimedOut, RenewalTooLate, RenewalTimedOut, RenewalReplied(Err(LeaseLost))}
  {
    r := Heartbeat(cfg, job, claimedAt, w);
    if r.Some? && r.value.Ok? {
      SettledResultsAreTheHandlers(cfg, w.trace);
    }
  }

  lemma NothingHappenedYet(cfg: Config, w: Surroundings)
    requires w.trace == []
    ensures w.At(cfg, Idle) && w.Told() == Arrivals(w.script)
  {
  }

  /**
   One claim and, if it hands out a job, one handler run with its terminal write. For every script the trace
   is one the automaton accepts, made of exactly what the script delivered and the worker's own steps; the
   result is the automaton's outcome, and only a cut-off script leaves the run without one.
   */
  method RunOnce(cfg: Config, w: Surroundings) returns (r: Option<Result<RunOutcome, JobQueueError>>)
    requires w.trace == []
    modifies w
    ensures Heard(w.trace) + Arrivals(w.script) == old(Arrivals(w.script)) && w.now >= old(w.now)
    ensures Replay(cfg, w.trace).Some?
    ensures match r
            case Some(outcome) => Replay(cfg, w.trace).value.Ended? && Replay(cfg, w.trace).value.outcome == outcome
            case None => Stuck(cfg, Replay(cfg, w.trace).value, w.now, w.script)
    ensures r.Some? ==>
              var last, outcome := Last(w.trace), r.value;
              && (outcome == Ok(JobCompleted) <==> last == WriteReplied(Ok(Done)))
              && (outcome == Ok(JobRetryScheduled) <==> last == WriteReplied(Ok(Disposed(RetryScheduled))))
              && (outcome == Ok(JobDeadLettered) <==> last == WriteReplied(Ok(Disposed(DeadLettered))))
              && (outcome == Ok(Idled) <==> last == ClaimReplied(Ok(None)))
              && (outcome == Err(Unavailable) <==>
                  last in {ReapReplied(false), ClaimReplied(Err(Unavailable)), WriteReplied(Err(Unavailable))})
              && (outcome == Err(LeaseLost) <==>
                  last in {LoopTooLate, HandlerTimedOut, RenewalTooLate, RenewalTimedOut, WriteTooLate, WriteTimedOut,
                           ClaimReplied(Err(LeaseLost)), RenewalReplied(Err(LeaseLost)), WriteReplied(Err(LeaseLost))})
  {
    r := Once(cfg, w);
    if r.Some? {
      AnswersFollowTheLastEvent(cfg, w.trace);
      ErrorsFollowTheLastEvent(cfg, w.trace);
    }
  }

  method Once(cfg: Config, w: Surroundings) returns (r: Option<Result<RunOutcome, JobQueueError>>)
    requires w.trace == []
    modifies w
    ensures Heard(w.trace) + Arrivals(w.script) == old(Arrivals(w.script)) && w.now >= old(w.now)
    ensures Replay(cfg, w.trace).Some?
    ensures match r
            case Some(outcome) => Replay(cfg, w.trace).value.Ended? && Replay(cfg, w.trace).value.outcome == outcome
            case None => Stuck(cfg, Replay(cfg, w.trace).value, w.now, w.script)
  {
    hide Replay, Heard, Arrivals;
    NothingHappenedYet(cfg, w);
    var claimedAt := w.Clock();
    w.Log(cfg, Idle, ClaimStarted);
    var e := w.Await(cfg, Reaping(claimedAt));
    if e.None? {
      return None;
    }
    if !e.value.ok {
      return Some(Err(Unavailable));
    }
    e := w.Await(cfg, Claiming(claimedAt));
    if e.None? {
      return None;
    }
    var job: ClaimedJob;
    match e.value.claim {
      case Err(error) =>
        return Some(Err(error));
      case Ok(None) =>
        return Some(Ok(Idled));
      case Ok(Some(claimed)) =>
        job := claimed;
    }

    var execution := ExecuteWithHeartbeat(cfg, job, claimedAt, w);
    if execution.None? {
      return None;
    }
    if execution.value.Err? {
      return Some(Err(execution.value.error));
    }
    var (result, deadline) := execution.value.value;

    var now := w.Clock();
    if now >= deadline {
      w.Log(cfg, Settled(job, deadline, result), WriteTooLate);
      return Some(Err(LeaseLost));
    }
    var write: TerminalWrite;
    match result {
      case Succeeded =>
        write := Completion;
      case Failed(message) =>
        var delay := RetryDelay(cfg.retryBase, cfg.retryMax, job.attempts);
        write := Failure(message, delay);
    }
    w.Log(cfg, Settled(job, deadline, result), WriteStarted(write));
    e := w.Await(cfg, Writing(job, deadline, result));
    match e {
      case None =>
        return None;
      case Some(WriteReplied(Err(error))) =>
        return Some(Err(error));
      case Some(WriteReplied(Ok(Done))) =>
        return Some(Ok(JobCompleted));
      case Some(WriteReplied(Ok(Disposed(disposition)))) =>
        return Some(Ok(if disposition == RetryScheduled then JobRetryScheduled else JobDeadLettered));
      case Some(_) =>
        return Some(Err(LeaseLost));
    }
  }

  // ---------------------------------------------------------------- maintenance

  const MAINTENANCE_BATCHES: nat := 16

  function Eligible(t: Table, now: Time, cfg: Config): set<JobId> {
    PurgeableRows(t, now, cfg.completedRetention, cfg.deadRetention)
  }

  /** Sixteen statements at most, stamped in order. */
  ghost predicate InOrder(nows: seq<Time>) {
    |nows| == MAINTENANCE_BATCHES && forall i, j | 0 <= i <= j < |nows| :: nows[i] <= nows[j]
  }

  function All(batches: seq<set<JobId>>): set<JobId> {
    if batches == [] then {} else All(batches[..|batches| - 1]) + batches[|batches| - 1]
  }

  /** Exactly the rows of the batches are gone, each of them eligible when its own batch ran. */
  ghost predicate PurgedFrom(t: Table, t': Table, batches: seq<set<JobId>>, nows: seq<Time>, cfg: Config)
    requires |batches| <= |nows|
  {
    t' == t - All(batches) && forall i | 0 <= i < |batches| :: batches[i] <= Eligible(t, nows[i], cfg)
  }

  lemma MoreBecomesEligible(t: Table, now: Time, later: Time, cfg: Config)
    requires now <= later
    ensures Eligible(t, now, cfg) <= Eligible(t, later, cfg) && |Eligible(t, now, cfg)| <= |Eligible(t, later, cfg)|
  {
    SubsetSize(Eligible(t, now, cfg), Eligible(t, later, cfg));
  }

  lemma {:induction false} BatchesStayEligible(t: Table, batches: seq<set<JobId>>, nows: seq<Time>, cfg: Config,
          now: Time)
    requires |batches| <= |nows| && forall i | 0 <= i < |batches| ::
        nows[i] <= now
        && batches[i] <= Eligible(t, nows[i], cfg)
    ensures All(batches) <= Eligible(t, now, cfg)
  {
    hide PurgeableRows;
    if batches != [] {
      var n := |batches| - 1;
      MoreBecomesEligible(t, nows[n], now, cfg);
      BatchesStayEligible(t, batches[..n], nows, cfg, now);
    }
  }

  lemma EligibleOfTheRest(t: Table, gone: set<JobId>, now: Time, cfg: Config)
    ensures Eligible(t - gone, now, cfg) == Eligible(t, now, cfg) - gone
  {
  }

  /** What is eligible stays eligible: at any later time it is what was deleted and what is eligible still. */
  lemma EligibleRowsShrink(t: Table, t': Table, batches: seq<set<JobId>>, nows: seq<Time>, cfg: Config, now: Time)
    requires |batches| <= |nows| && PurgedFrom(t, t', batches, nows, cfg)
        && forall i | 0 <= i < |batches| :: nows[i] <= now
    ensures |Eligible(t', now, cfg)| + |All(batches)| == |Eligible(t, now, cfg)|
    ensures Eligible(t', now, cfg) == Eligible(t, now, cfg) - All(batches)
  {
    hide PurgeableRows, All;
    BatchesStayEligible(t, batches, nows, cfg, now);
    EligibleOfTheRest(t, All(batches), now, cfg);
    assert Eligible(t, now, cfg) == Eligible(t', now, cfg) + All(batches);
  }

  lemma OneBatchMore(t: Table, before: Table, after: Table, batches: seq<set<JobId>>, batch: set<JobId>,
          nows: seq<Time>, cfg: Config)
    requires |batches| < |nows| && PurgedFrom(t, before, batches, nows, cfg)
    requires after == before - batch && batch <= Eligible(before, nows[|batches|], cfg)
    ensures PurgedFrom(t, after, batches + [batch], nows, cfg)
    ensures |All(batches + [batch])| == |All(batches)| + |batch|
  {
    hide PurgeableRows;
    EligibleOfTheRest(t, All(batches), nows[|batches|], cfg);
    assert (batches + [batch])[..|batches|] == batches;
    RemovedTogether(t, All(batches), batch);
    assert All(batches) !! batch;
  }

  lemma RemovedTogether(t: Table, a: set<JobId>, b: set<JobId>)
    ensures (t - a) - b == t - (a + b)
  {
  }

  lemma PurgesRemove(t: Table, aged: set<JobId>, now: Time, cfg: Config)
    requires Enabled(t, now, Purge(aged, cfg.completedRetention, cfg.deadRetention))
    ensures Apply(t, now, Purge(aged, cfg.completedRetention, cfg.deadRetention)) == t - aged
  {
  }

  /** One purge statement: it adds its batch, and if the batch is not full, nothing eligible is left. */
  lemma OneStatementMore(t: Table, before: Table, after: Table, batches: seq<set<JobId>>, aged: set<JobId>,
          nows: seq<Time>, cfg: Config)
    requires InOrder(nows) && |batches| < |nows| && PurgedFrom(t, before, batches, nows, cfg)
    requires aged <= Eligible(before, nows[|batches|], cfg)
        && |aged| == Min(PURGE_BATCH_SIZE, |Eligible(before, nows[|batches|], cfg)|)
    requires Enabled(before, nows[|batches|], Purge(aged, cfg.completedRetention, cfg.deadRetention))
    requires after == Apply(before, nows[|batches|], Purge(aged, cfg.completedRetention, cfg.deadRetention))
    ensures PurgedFrom(t, after, batches + [aged], nows, cfg)
    ensures |All(batches + [aged])| == |All(batches)| + |aged| <= |Eligible(t, nows[|batches|], cfg)|
    ensures |aged| < PURGE_BATCH_SIZE ==> |All(batches + [aged])| == |Eligible(t, nows[|batches|], cfg)|
  {
    hide PurgedFrom, PurgeableRows, Purgeable, All, Apply, Enabled;
    EligibleRowsShrink(t, before, batches, nows, cfg, nows[|batches|]);
    PurgesRemove(before, aged, nows[|batches|], cfg);
    OneBatchMore(t, before, after, batches, aged, nows, cfg);
  }

  /**
   One cycle on a table nobody else touches, each statement at its own NOW(): every row deleted was eligible when
   its batch ran, and exactly min(16000, eligible) of the rows eligible at the last statement are gone. An
   unavailable database ends the cycle early with an error; what was deleted before stays deleted.
   */
  method RunMaintenance(cfg: Config, queue: PostgresJobQueue, nows: seq<Time>, available: nat)
    returns (r: Result<nat, JobQueueError>, ghost batches: seq<set<JobId>>)
    requires InOrder(nows)
    modifies queue
    ensures |batches| <= MAINTENANCE_BATCHES && PurgedFrom(old(queue.rows), queue.rows, batches, nows, cfg)
    ensures r.Ok? <==> 0 < |batches| <= available
                       && (|batches| == MAINTENANCE_BATCHES || |batches[|batches| - 1]| < PURGE_BATCH_SIZE)
    ensures r.Ok? ==>
        r.value == |All(batches)| ==
        Min(MAINTENANCE_BATCHES * PURGE_BATCH_SIZE, |Eligible(old(queue.rows), nows[|batches| - 1], cfg)|)
    ensures available >= MAINTENANCE_BATCHES ==> r.Ok?
    ensures r.Err? ==>
        r.error == Unavailable && |batches| == available
        && |All(batches)| == PURGE_BATCH_SIZE * available
  {
    hide PurgedFrom, PurgeableRows, Purgeable, All, Apply, Enabled, AgedRowsGo, Aged;
    ghost var t := queue.rows;
    var total := 0;
    batches := [];
    NothingPurgedYet(t, nows, cfg);
    for batch := 0 to MAINTENANCE_BATCHES
      invariant |batches| == batch <= available
      invariant total == PURGE_BATCH_SIZE * batch == |All(batches)|
      invariant forall i | 0 <= i < batch :: |batches[i]| == PURGE_BATCH_SIZE
      invariant PurgedFrom(t, queue.rows, batches, nows, cfg)
      invariant batch > 0 ==> total <= |Eligible(t, nows[batch - 1], cfg)|
    {
      if batch == available {
        return Err(Unavailable), batches;
      }
      ghost var before := queue.rows;
      var purged := queue.PurgeTerminal(nows[batch], cfg.completedRetention, cfg.deadRetention);
      total := total + purged;
      ghost var aged := before.Keys - queue.rows.Keys;
      OneStatementMore(t, before, queue.rows, batches, aged, nows, cfg);
      batches := batches + [aged];
      if purged < PURGE_BATCH_SIZE {
        break;
      }
    }
    r := Ok(total);
  }

  lemma GoneRowsAreTheBatches(t: Table, gone: set<JobId>, now: Time, cfg: Config)
    requires gone <= Eligible(t, now, cfg)
    ensures t.Keys - (t - gone).Keys == gone
  {
  }

  lemma AgedRowsAreEligible(t: Table, now: Time, cfg: Config)
    requires |Eligible(t, now, cfg)| == 0
    ensures forall id | id in t :: !Aged(t[id], now, cfg.completedRetention, cfg.deadRetention)
  {
    assert forall id | id in t && Aged(t[id], now, cfg.completedRetention, cfg.deadRetention) ::
        id in Eligible(t, now, cfg);
  }

  /** Below the limit of sixteen full batches, no aged row is left. */
  lemma MaintenanceIsThorough(t: Table, t': Table, batches: seq<set<JobId>>, nows: seq<Time>, cfg: Config)
    requires InOrder(nows) && 0 < |batches| <= |nows| && PurgedFrom(t, t', batches, nows, cfg)
    requires |All(batches)| == Min(MAINTENANCE_BATCHES * PURGE_BATCH_SIZE, |Eligible(t, nows[|batches| - 1], cfg)|)
    ensures |t.Keys - t'.Keys| == |All(batches)| <= 16_000
    ensures |All(batches)| < 16_000 ==> forall id | id in t' ::
              !Aged(t'[id], nows[|batches| - 1], cfg.completedRetention, cfg.deadRetention)
  {
    hide PurgeableRows, All, Aged;
    var now := nows[|batches| - 1];
    EligibleRowsShrink(t, t', batches, nows, cfg, now);
    BatchesStayEligible(t, batches, nows, cfg, now);
    GoneRowsAreTheBatches(t, All(batches), now, cfg);
    if |All(batches)| < 16_000 {
      AgedRowsAreEligible(t', now, cfg);
    }
  }

  lemma NothingPurgedYet(t: Table, nows: seq<Time>, cfg: Config)
    ensures PurgedFrom(t, t, [], nows, cfg) && All([]) == {}
  {
  }

  /** So the count lies between what was eligible at the first statement and what was at the last possible one. */
  lemma MaintenanceIsBounded(t: Table, nows: seq<Time>, cfg: Config, last: nat, total: nat)
    requires InOrder(nows) && last < |nows|
    requires total == Min(MAINTENANCE_BATCHES * PURGE_BATCH_SIZE, |Eligible(t, nows[last], cfg)|)
    ensures Min(MAINTENANCE_BATCHES * PURGE_BATCH_SIZE, |Eligible(t, nows[0], cfg)|) <= total
            <= Min(MAINTENANCE_BATCHES * PURGE_BATCH_SIZE, |Eligible(t, nows[MAINTENANCE_BATCHES - 1], cfg)|)
  {
    MoreBecomesEligible(t, nows[0], nows[last], cfg);
    MoreBecomesEligible(t, nows[last], nows[MAINTENANCE_BATCHES - 1], cfg);
  }
}
