/**
 What one worker may observe and do while it runs jobs: `run_once` and `execute_with_heartbeat` as an
 automaton over timed events. JobWorker.dfy proves that the imperative worker follows it for every
 environment; LeaseProtocol.dfy runs any number of them against one table.
 */
module WorkerAutomaton {
  import opened Wrappers
  import opened JobQueue

  datatype Config = Config(
    workerId: string,
    lease: nat,
    retryBase: nat,
    retryMax: nat,
    completedRetention: nat,
    deadRetention: nat,
    handlers: set<string>)

  datatype HandlerResult = Succeeded | Failed(message: string)

  /** The terminal write a worker issues, and what the queue answers to it. */
  datatype TerminalWrite = Completion | Failure(message: string, delay: nat)
  datatype WriteAnswer = Done | Disposed(disposition: JobDisposition)

  datatype RunOutcome = Idled | JobCompleted | JobRetryScheduled | JobDeadLettered

  // ---------------------------------------------------------------- retry delay

  const DURATION_MAX: nat := 0xffff_ffff_ffff_ffff * 1_000_000_000 + 999_999_999

  function Pow2(n: nat): (p: nat)
    ensures p >= 1
  {
    if n == 0 then 1 else 2 * Pow2(n - 1)
  }

  function RetryDelay(base: nat, maximum: nat, attempt: nat): nat {
    var exponent := Min(if attempt == 0 then 0 else attempt - 1, 31);
    Min(Min(base * Pow2(exponent), DURATION_MAX), maximum)
  }

  lemma {:induction false} Pow2Grows(a: nat, b: nat)
    requires a <= b
    ensures Pow2(a) <= Pow2(b) && (a < b ==> 2 * Pow2(a) <= Pow2(b))
  {
    if a < b {
      Pow2Grows(a, b - 1);
    }
  }

  lemma ScaledPow2(base: nat, p: nat, q: nat)
    requires p <= q
    ensures base * p <= base * q
    ensures base > 0 && 2 * p <= q && p > 0 ==> base * p < base * q
  {
    assert base * q - base * p == base * (q - p);
    if base > 0 && 2 * p <= q && p > 0 {
      assert base * (q - p) >= 1 by { assert (base - 1) * (q - p) >= 0; }
    }
  }

  /** The delay never shrinks from one attempt to the next and never exceeds the maximum. */
  lemma RetryDelayIsMonotone(base: nat, maximum: nat, a: nat, b: nat)
    requires a <= b
    ensures RetryDelay(base, maximum, a) <= RetryDelay(base, maximum, b) <= maximum
  {
    var e, f := Min(if a == 0 then 0 else a - 1, 31), Min(if b == 0 then 0 else b - 1, 31);
    Pow2Grows(e, f);
    ScaledPow2(base, Pow2(e), Pow2(f));
  }

  /** The documented formula without a cap on the exponent. */
  function DocumentedDelay(base: nat, maximum: nat, attempt: nat): nat
    requires attempt >= 1
  {
    Min(base * Pow2(attempt - 1), maximum)
  }

  /** Exactly when the capped exponent gives the documented delay. */
  lemma DelayIsAsDocumentedUnlessCapped(base: nat, maximum: nat, attempt: nat)
    requires attempt >= 1 && maximum <= DURATION_MAX
    ensures RetryDelay(base, maximum, attempt) == DocumentedDelay(base, maximum, attempt)
            <==> attempt <= 32 || base == 0 || maximum <= base * Pow2(31)
  {
    if attempt > 32 {
      Pow2Grows(31, attempt - 1);
      ScaledPow2(base, Pow2(31), Pow2(attempt - 1));
    }
  }

  const SECOND: nat := 1_000_000_000

  /** A configuration in whole seconds on which the cap shows: one second, doubled 32 times up to a larger maximum. */
  lemma CappedDelayExample()
    ensures RetryDelay(SECOND, 0x1_0000_0000 * SECOND, 33) != DocumentedDelay(SECOND, 0x1_0000_0000 * SECOND, 33)
  {
    assert Pow2(31) == 0x8000_0000 by {
      assert Pow2(8) == 0x100;
      assert Pow2(16) == 0x1_0000;
      assert Pow2(24) == 0x100_0000;
    }
    DelayIsAsDocumentedUnlessCapped(SECOND, 0x1_0000_0000 * SECOND, 33);
  }

  // ---------------------------------------------------------------- heartbeat arithmetic

  function Max(a: nat, b: nat): nat {
    if a < b then b else a
  }

  function Interval(lease: nat): nat {
    Max(lease / 3, 1)
  }

  function RetryInterval(lease: nat): nat {
    Max(Interval(lease) / 4, 1)
  }

  datatype Beat = Beat(deadline: Time, nextRenewal: Time)

  function BeatFrom(start: Time, lease: nat): Beat {
    Beat(start + lease, start + Interval(lease))
  }

  // ---------------------------------------------------------------- the automaton

  datatype Phase =
    | Idle
    | Reaping(claimedAt: Time)                                     // first statement of claim in flight
    | Claiming(claimedAt: Time)                                    // second statement of claim in flight
    | Top(job: ClaimedJob, beat: Beat)                             // top of the heartbeat loop
    | Waiting(job: ClaimedJob, beat: Beat)                         // timer against handler
    | Due(job: ClaimedJob, beat: Beat)                             // timer fired
    | Renewing(job: ClaimedJob, beat: Beat, started: Time, finished: Option<HandlerResult>)
    | Retrying(job: ClaimedJob, beat: Beat, finished: Option<HandlerResult>)  // a renewal failed but may be tried again
    | Settled(job: ClaimedJob, deadline: Time, result: HandlerResult)
    | Writing(job: ClaimedJob, deadline: Time, result: HandlerResult)  // terminal write in flight
    | Ended(last: Option<ClaimedJob>, outcome: Result<RunOutcome, JobQueueError>)

  datatype Event =
    | ClaimStarted
    | ReapReplied(ok: bool)
    | ClaimReplied(claim: Result<Option<ClaimedJob>, JobQueueError>)
    | LoopEntered
    | LoopTooLate
    | RenewalTimerFired
    | HandlerFinished(result: HandlerResult)
    | HandlerTimedOut
    | RenewalStarted
    | RenewalTooLate
    | HandlerFinishedDuringRenewal(result: HandlerResult)
    | RenewalReplied(renewal: Result<(), JobQueueError>)
    | RenewalTimedOut
    | RetryTimed
    | WriteStarted(issued: TerminalWrite)
    | WriteTooLate
    | WriteReplied(write: Result<WriteAnswer, JobQueueError>)
    | WriteTimedOut
    | Rested

  /** The worker's own steps; all other events arrive from the clock, the handler or the database. */
  predicate Internal(e: Event) {
    e.ClaimStarted? || e.LoopEntered? || e.LoopTooLate? || e.RenewalStarted? || e.RenewalTooLate? || e.RetryTimed?
    || e.WriteStarted? || e.WriteTooLate? || e.Rested?
  }

  /** The worker has a claimed job and has not issued the job's terminal write. */
  predicate Holding(p: Phase) {
    p.Top? || p.Waiting? || p.Due? || p.Renewing? || p.Retrying? || p.Settled?
  }

  function Deadline(p: Phase): Time
    requires Holding(p)
  {
    if p.Settled? then p.deadline else p.beat.deadline
  }

  /** A job type without a registered handler fails at once. */
  predicate CanReturn(cfg: Config, job: ClaimedJob, result: HandlerResult) {
    job.jobType in cfg.handlers || result.Failed?
  }

  /** The terminal write that a handler result calls for. */
  function WriteFor(cfg: Config, job: ClaimedJob, result: HandlerResult): TerminalWrite {
    match result
    case Succeeded => Completion
    case Failed(message) => Failure(message, RetryDelay(cfg.retryBase, cfg.retryMax, job.attempts))
  }

  /** Only a completion is answered without a disposition. */
  predicate CanAnswer(result: HandlerResult, write: Result<WriteAnswer, JobQueueError>) {
    write.Ok? ==> (result.Succeeded? <==> write.value.Done?)
  }

  function OutcomeOf(answer: WriteAnswer): RunOutcome {
    match answer
    case Done => JobCompleted
    case Disposed(RetryScheduled) => JobRetryScheduled
    case Disposed(DeadLettered) => JobDeadLettered
  }

  const LOST: Result<RunOutcome, JobQueueError> := Err(LeaseLost)

  /**
   One event at time `at`; None when it cannot happen in this phase. Replies are accepted at any time,
   since a timeout may lose the race against a reply that is ready; timeouts fire no earlier than the deadline.
   */
  function Step(cfg: Config, p: Phase, at: Time, e: Event): Option<Phase> {
    match p
    case Idle => if e.ClaimStarted? then Some(Reaping(at)) else None
    case Reaping(claimedAt) =>
      if e.ReapReplied? then Some(if e.ok then Claiming(claimedAt) else Ended(None, Err(Unavailable))) else None
    case Claiming(claimedAt) => if e.ClaimReplied? then Some(AfterClaim(cfg, claimedAt, e.claim)) else None
    case Top(job, beat) =>
      if e.LoopEntered? && at < beat.deadline then Some(Waiting(job, beat))
      else if e.LoopTooLate? && at >= beat.deadline then Some(Ended(Some(job), LOST))
      else None
    case Waiting(job, beat) =>
      if e.RenewalTimerFired? && at >= beat.nextRenewal then Some(Due(job, beat))
      else if e.HandlerFinished? && CanReturn(cfg, job, e.result) then Some(Settled(job, beat.deadline, e.result))
      else if e.HandlerTimedOut? && at >= beat.deadline then Some(Ended(Some(job), LOST))
      else None
    case Due(job, beat) =>
      if e.RenewalStarted? && at < beat.deadline then Some(Renewing(job, beat, at, None))
      else if e.RenewalTooLate? && at >= beat.deadline then Some(Ended(Some(job), LOST))
      else None
    case Renewing(job, beat, started, finished) =>
      if e.HandlerFinishedDuringRenewal? && finished.None? && CanReturn(cfg, job, e.result) then
        Some(Renewing(job, beat, started, Some(e.result)))
      else if e.RenewalReplied? then Some(AfterRenewal(cfg, p, e.renewal))
      else if e.RenewalTimedOut? && at >= beat.deadline then Some(Ended(Some(job), LOST))
      else None
    case Retrying(job, beat, finished) =>
      if e.RetryTimed? then Some(Resumed(job, beat.(nextRenewal := at + RetryInterval(cfg.lease)), finished)) else None
    case Settled(job, deadline, result) =>
      if e.WriteStarted? && at < deadline
          && e.issued == WriteFor(cfg, job, result) then Some(Writing(job, deadline, result))
      else if e.WriteTooLate? && at >= deadline then Some(Ended(Some(job), LOST))
      else None
    case Writing(job, deadline, result) =>
      if e.WriteReplied? && CanAnswer(result, e.write) then Some(Ended(Some(job), Reported(e.write)))
      else if e.WriteTimedOut? && at >= deadline then Some(Ended(Some(job), LOST))
      else None
    case Ended(_, _) => if e.Rested? then Some(Idle) else None
  }

  function AfterClaim(cfg: Config, claimedAt: Time, claim: Result<Option<ClaimedJob>, JobQueueError>): Phase {
    match claim
    case Err(error) => Ended(None, Err(error))
    case Ok(None) => Ended(None, Ok(Idled))
    case Ok(Some(job)) => Top(job, BeatFrom(claimedAt, cfg.lease))
  }

  /** A lost lease ends the run; success restarts the beat at the renewal's start; anything else is retried. */
  function AfterRenewal(cfg: Config, p: Phase, renewal: Result<(), JobQueueError>): Phase
    requires p.Renewing?
  {
    match renewal
    case Ok(_) => Resumed(p.job, BeatFrom(p.started, cfg.lease), p.finished)
    case Err(LeaseLost) => Ended(Some(p.job), LOST)
    case Err(Unavailable) => Retrying(p.job, p.beat, p.finished)
  }

  function Resumed(job: ClaimedJob, beat: Beat, finished: Option<HandlerResult>): Phase {
    match finished
    case Some(result) => Settled(job, beat.deadline, result)
    case None => Top(job, beat)
  }

  function Reported(write: Result<WriteAnswer, JobQueueError>): Result<RunOutcome, JobQueueError> {
    match write
    case Ok(answer) => Ok(OutcomeOf(answer))
    case Err(error) => Err(error)
  }

  // ---------------------------------------------------------------- traces

  datatype Timed = Timed(at: Time, event: Event)

  /** The phase after a trace of events in time order, if the automaton accepts it. */
  function Replay(cfg: Config, trace: seq<Timed>): Option<Phase> {
    var n := |trace|;
    if n == 0 then Some(Idle)
    else if n >= 2 && trace[n - 1].at < trace[n - 2].at then None
    else match Replay(cfg, trace[..n - 1])
         case None => None
         case Some(p) => Step(cfg, p, trace[n - 1].at, trace[n - 1].event)
  }

  lemma ReplayOneMore(cfg: Config, trace: seq<Timed>, e: Timed)
    ensures Replay(cfg, trace + [e]) ==
            if trace != [] && e.at < trace[|trace| - 1].at then None
            else match Replay(cfg, trace) case None => None case Some(p) => Step(cfg, p, e.at, e.event)
  {
  }

  /**
   What a trace says about its latest job, read off the events alone: when the claim or the last renewal that
   succeeded was started, when the last renewal was started, how many were started since that success, which job
   was handed out, what its handler returned, and when a failed renewal was last put off since that success.
   */
  datatype History = History(
    success: Time,
    asked: Time,
    renewals: nat,
    at: Time,
    job: Option<ClaimedJob>,
    result: Option<HandlerResult>,
    putOff: Option<Time>)

  function Noted(h: History, e: Timed): History {
    match e.event
    case ClaimStarted => History(e.at, h.asked, 0, e.at, None, None, None)
    case ClaimReplied(Ok(Some(job))) => h.(job := Some(job), at := e.at)
    case HandlerFinished(result) => h.(result := Some(result), at := e.at)
    case HandlerFinishedDuringRenewal(result) => h.(result := Some(result), at := e.at)
    case RetryTimed => h.(putOff := Some(e.at), at := e.at)
    case RenewalStarted => h.(asked := e.at, renewals := h.renewals + 1, at := e.at)
    case RenewalReplied(Ok(_)) => h.(success := h.asked, renewals := 0, at := e.at, putOff := None)
    case _ => h.(at := e.at)
  }

  function HistoryOf(trace: seq<Timed>): History {
    if trace == [] then History(0, 0, 0, 0, None, None, None)
    else Noted(HistoryOf(trace[..|trace| - 1]), trace[|trace| - 1])
  }

  /** n steps of the given length. */
  function Steps(n: nat, length: nat): nat {
    if n == 0 then 0 else length + Steps(n - 1, length)
  }

  lemma {:induction false} StepsIsTheProduct(n: nat, length: nat)
    ensures Steps(n, length) == n * length
  {
    if n > 0 {
      StepsIsTheProduct(n - 1, length);
    }
  }

  lemma {:induction false} StepsAreMonotone(n: nat, m: nat, length: nat)
    requires n <= m
    ensures Steps(n, length) <= Steps(m, length)
  {
    if n < m {
      StepsAreMonotone(n, m - 1, length);
    }
  }

  /** What the local variables of the worker mean in terms of its history. */
  ghost predicate Meaning(lease: nat, h: History, p: Phase) {
    && (p.Reaping? || p.Claiming? ==> p.claimedAt == h.success && h.renewals == 0)
    && (Holding(p) ==> Deadline(p) == h.success + lease)
    && (p.Writing? ==> p.deadline == h.success + lease)
    && (p.Top? || p.Waiting? || p.Due? ==>
        p.beat.nextRenewal >= h.success + Interval(lease) + Steps(h.renewals, RetryInterval(lease)))
    && (p.Due? ==> h.at >= p.beat.nextRenewal)
    && (p.Renewing? ==> p.started == h.asked)
    && (p.Renewing? || p.Retrying? ==> && h.success <= h.asked <= h.at && h.renewals >= 1
                                       && h.asked >= h.success + Interval(lease) + Steps(h.renewals - 1,
                                           RetryInterval(lease)))
    && (!p.Idle? && !p.Ended? ==> h.success <= h.at)
    && (h.renewals >= 1 ==> Interval(lease) + Steps(h.renewals - 1, RetryInterval(lease)) < lease)
  }

  lemma StepsKeepMeaning(cfg: Config, h: History, p: Phase, e: Timed)
    requires Meaning(cfg.lease, h, p) && (h.at <= e.at || p == Idle) && Step(cfg, p, e.at, e.event).Some?
    ensures Meaning(cfg.lease, Noted(h, e), Step(cfg, p, e.at, e.event).value)
  {
    hide Steps, WriteFor, RetryDelay, AfterRenewal, Interval, RetryInterval;
    match p {
      case Idle =>
      case Renewing(_, _, _, _) => RenewalsKeepMeaning(cfg, h, p, e);
      case Claiming(_) => ClaimsHaveMeaning(cfg, h, p, e);
      case Due(_, _) => RenewalStartsHaveMeaning(cfg, h, p, e);
      case Retrying(_, _, _) => RetriesHaveMeaning(cfg, h, p, e);
      case Top(_, _) =>
      case Waiting(_, _) =>
      case _ =>
    }
  }

  lemma ClaimsHaveMeaning(cfg: Config, h: History, p: Phase, e: Timed)
    requires p.Claiming? && Meaning(cfg.lease, h, p) && h.at <= e.at && Step(cfg, p, e.at, e.event).Some?
    ensures Meaning(cfg.lease, Noted(h, e), Step(cfg, p, e.at, e.event).value)
  {
  }

  lemma RenewalStartsHaveMeaning(cfg: Config, h: History, p: Phase, e: Timed)
    requires p.Due? && Meaning(cfg.lease, h, p) && h.at <= e.at && Step(cfg, p, e.at, e.event).Some?
    ensures Meaning(cfg.lease, Noted(h, e), Step(cfg, p, e.at, e.event).value)
  {
  }

  lemma RetriesHaveMeaning(cfg: Config, h: History, p: Phase, e: Timed)
    requires p.Retrying? && Meaning(cfg.lease, h, p) && h.at <= e.at && Step(cfg, p, e.at, e.event).Some?
    ensures Meaning(cfg.lease, Noted(h, e), Step(cfg, p, e.at, e.event).value)
  {
  }

  lemma RenewalsKeepMeaning(cfg: Config, h: History, p: Phase, e: Timed)
    requires p.Renewing? && Meaning(cfg.lease, h, p) && h.at <= e.at && Step(cfg, p, e.at, e.event).Some?
    ensures Meaning(cfg.lease, Noted(h, e), Step(cfg, p, e.at, e.event).value)
  {
  }

  lemma {:induction false} TracesHaveMeaning(cfg: Config, trace: seq<Timed>)
    requires Replay(cfg, trace).Some?
    ensures Meaning(cfg.lease, HistoryOf(trace), Replay(cfg, trace).value)
    ensures trace != [] ==> HistoryOf(trace).at == trace[|trace| - 1].at
  {
    if trace != [] {
      var n := |trace|;
      var before, last := trace[..n - 1], trace[n - 1];
      TracesHaveMeaning(cfg, before);
      assert n >= 2 ==> before[|before| - 1] == trace[n - 2];
      StepsKeepMeaning(cfg, HistoryOf(before), Replay(cfg, before).value, last);
    }
  }

  /** While a job is held, the deadline is the start of the claim or last successful renewal plus the lease. */
  lemma DeadlineIsLastSuccessPlusLease(cfg: Config, trace: seq<Timed>)
    requires Replay(cfg, trace).Some? && Holding(Replay(cfg, trace).value)
    ensures Deadline(Replay(cfg, trace).value) == HistoryOf(trace).success + cfg.lease
  {
    TracesHaveMeaning(cfg, trace);
  }

  /** From one event to the next, the deadline of a held job never moves backwards. */
  lemma DeadlineNeverMovesBack(cfg: Config, trace: seq<Timed>, e: Timed)
    requires Replay(cfg, trace).Some? && Holding(Replay(cfg, trace).value)
    requires Replay(cfg, trace + [e]).Some? && Holding(Replay(cfg, trace + [e]).value)
    ensures Deadline(Replay(cfg, trace).value) <= Deadline(Replay(cfg, trace + [e]).value)
  {
    TracesHaveMeaning(cfg, trace);
    ReplayOneMore(cfg, trace, e);
  }

  /** Every terminal write is issued strictly before the deadline that the last success established. */
  lemma WritesStartBeforeTheDeadline(cfg: Config, trace: seq<Timed>, at: Time, issued: TerminalWrite)
    requires Replay(cfg, trace + [Timed(at, WriteStarted(issued))]).Some?
    ensures at < HistoryOf(trace).success + cfg.lease
  {
    ReplayOneMore(cfg, trace, Timed(at, WriteStarted(issued)));
    TracesHaveMeaning(cfg, trace);
  }

  /**
   Between two successes the renewals started all fit, one retry interval apart, into what is left of the
   lease after the first interval: at most nine of them for any lease of at least 96 nanoseconds.
   */
  lemma RenewalsBetweenSuccessesAreBounded(cfg: Config, trace: seq<Timed>)
    requires Replay(cfg, trace).Some?
    ensures var n := HistoryOf(trace).renewals;
            && (n >= 1 ==> Interval(cfg.lease) + (n - 1) * RetryInterval(cfg.lease) < cfg.lease)
            && (cfg.lease >= 96 ==> n <= 9)
  {
    TracesHaveMeaning(cfg, trace);
    var n, R := HistoryOf(trace).renewals, RetryInterval(cfg.lease);
    if n >= 1 {
      StepsIsTheProduct(n - 1, R);
    }
    if n > 9 {
      StepsAreMonotone(9, n - 1, R);
      StepsIsTheProduct(9, R);
    }
  }

  // ---------------------------------------------------------------- the automaton, read off the events

  /** The last event of a trace; before the first one, a worker is as after a rest. */
  function Last(trace: seq<Timed>): Event {
    if trace == [] then Rested else trace[|trace| - 1].event
  }

  /** When the next renewal is due: a third of the lease after the success, a twelfth after a renewal was put off. */
  function DueAt(lease: nat, h: History): Time {
    match h.putOff
    case None => h.success + if lease < 3 then 1 else lease / 3
    case Some(t) => t + if lease < 12 then 1 else lease / 12
  }

  /** The phase is determined by the last event and the history. */
  ghost predicate Agrees(cfg: Config, h: History, last: Event, p: Phase) {
    var deadline := h.success + cfg.lease;
    var beat := Beat(deadline, DueAt(cfg.lease, h));
    match last
    case Rested => p == Idle
    case ClaimStarted => p == Reaping(h.success) && h.result == None && h.putOff == None
    case ReapReplied(ok) =>
      if ok then p == Claiming(h.success) && h.result == None && h.putOff == None
      else p == Ended(None, Err(Unavailable))
    case ClaimReplied(Err(error)) => p == Ended(None, Err(error))
    case ClaimReplied(Ok(None)) => p == Ended(None, Ok(Idled))
    case ClaimReplied(Ok(Some(job))) => h.job == Some(job) && h.result == None && p == Top(job, beat)
    case LoopEntered => h.job.Some? && h.result == None && p == Waiting(h.job.value, beat)
    case RenewalTimerFired => h.job.Some? && h.result == None && p == Due(h.job.value, beat)
    case HandlerFinished(result) =>
      h.job.Some? && h.result == Some(result) && p == Settled(h.job.value, deadline, result)
    case RenewalStarted => h.job.Some? && h.result == None && p == Renewing(h.job.value, beat, h.asked, None)
    case HandlerFinishedDuringRenewal(result) =>
      h.job.Some? && h.result == Some(result) && p == Renewing(h.job.value, beat, h.asked, Some(result))
    case RenewalReplied(Ok(_)) => h.job.Some? && p == Resumed(h.job.value, beat, h.result)
    case RenewalReplied(Err(Unavailable)) =>
      h.job.Some? && p.Retrying? && p.job == h.job.value && p.finished == h.result && p.beat.deadline == deadline
    case RetryTimed => h.job.Some? && p == Resumed(h.job.value, beat, h.result)
    case WriteStarted(_) => h.job.Some? && h.result.Some? && p == Writing(h.job.value, deadline, h.result.value)
    case WriteReplied(Err(error)) => h.job.Some? && p == Ended(h.job, Err(error))
    case WriteReplied(Ok(Done)) => h.job.Some? && p == Ended(h.job, Ok(JobCompleted))
    case WriteReplied(Ok(Disposed(RetryScheduled))) => h.job.Some? && p == Ended(h.job, Ok(JobRetryScheduled))
    case WriteReplied(Ok(Disposed(DeadLettered))) => h.job.Some? && p == Ended(h.job, Ok(JobDeadLettered))
    case _ => h.job.Some? && p == Ended(h.job, Err(LeaseLost))
  }

  lemma RenewalTimes(lease: nat)
    ensures Interval(lease) == if lease < 3 then 1 else lease / 3
    ensures RetryInterval(lease) == if lease < 12 then 1 else lease / 12
  {
  }

  lemma StepsAgree(cfg: Config, h: History, last: Event, p: Phase, e: Timed)
    requires Agrees(cfg, h, last, p) && Step(cfg, p, e.at, e.event).Some?
    ensures Agrees(cfg, Noted(h, e), e.event, Step(cfg, p, e.at, e.event).value)
  {
    hide WriteFor, RetryDelay, Interval, RetryInterval, CanReturn;
    RenewalTimes(cfg.lease);
  }

  lemma {:induction false} TracesAgree(cfg: Config, trace: seq<Timed>)
    requires Replay(cfg, trace).Some?
    ensures Agrees(cfg, HistoryOf(trace), Last(trace), Replay(cfg, trace).value)
  {
    hide Agrees, Step, Noted;
    if trace == [] {
      assert Agrees(cfg, HistoryOf(trace), Rested, Idle) by { NothingAgreesWithIdle(cfg); }
    } else {
      var before, last := trace[..|trace| - 1], trace[|trace| - 1];
      TracesAgree(cfg, before);
      StepsAgree(cfg, HistoryOf(before), Last(before), Replay(cfg, before).value, last);
    }
  }

  lemma NothingAgreesWithIdle(cfg: Config)
    ensures Agrees(cfg, HistoryOf([]), Rested, Idle)
  {
  }

  /**
   Exactly which event may follow which, from the events alone. A job is held up to the start of the last success
   plus the lease; the timers, the write and its contents follow from the history.
   */
  lemma EventsFollowExactly(cfg: Config, trace: seq<Timed>, e: Timed)
    requires Replay(cfg, trace).Some? && (trace != [] ==> trace[|trace| - 1].at <= e.at)
    ensures var h := HistoryOf(trace);
            var deadline := h.success + cfg.lease;
            var top := (e.event == LoopEntered && e.at < deadline) || (e.event == LoopTooLate && e.at >= deadline);
            var write := (e.event.WriteStarted? && e.at < deadline && h.job.Some? && h.result.Some?
                          && e.event.issued ==
                             match h.result.value
                             case Succeeded => Completion
                             case Failed(message) =>
                               Failure(message, RetryDelay(cfg.retryBase, cfg.retryMax, h.job.value.attempts)))
                         || (e.event == WriteTooLate && e.at >= deadline);
            var handled := h.job.Some? && h.job.value.jobType in cfg.handlers;
            Replay(cfg, trace + [e]).Some? <==>
            match Last(trace)
            case Rested => e.event == ClaimStarted
            case ClaimStarted => e.event.ReapReplied?
            case ReapReplied(ok) => if ok then e.event.ClaimReplied? else e.event == Rested
            case ClaimReplied(claim) => if claim.Ok? && claim.value.Some? then top else e.event == Rested
            case LoopEntered =>
              || (e.event == RenewalTimerFired
                  && e.at >= match h.putOff
                             case None => h.success + (if cfg.lease < 3 then 1 else cfg.lease / 3)
                             case Some(t) => t + if cfg.lease < 12 then 1 else cfg.lease / 12)
              || (e.event.HandlerFinished? && (handled || e.event.result.Failed?))
              || (e.event == HandlerTimedOut && e.at >= deadline)
            case RenewalTimerFired =>
              (e.event == RenewalStarted && e.at < deadline) || (e.event == RenewalTooLate && e.at >= deadline)
            case HandlerFinished(_) => write
            case RenewalStarted =>
              || (e.event.HandlerFinishedDuringRenewal? && (handled || e.event.result.Failed?))
              || e.event.RenewalReplied? || (e.event == RenewalTimedOut && e.at >= deadline)
            case HandlerFinishedDuringRenewal(_) =>
              e.event.RenewalReplied? || (e.event == RenewalTimedOut && e.at >= deadline)
            case RenewalReplied(Err(Unavailable)) => e.event == RetryTimed
            case RenewalReplied(Err(LeaseLost)) => e.event == Rested
            case RenewalReplied(Ok(_)) => if h.result.Some? then write else top
            case RetryTimed => if h.result.Some? then write else top
            case WriteStarted(_) =>
              || (e.event.WriteReplied? && h.result.Some?
                  && (e.event.write.Ok? ==> (h.result.value == Succeeded <==> e.event.write.value == Done)))
              || (e.event == WriteTimedOut && e.at >= deadline)
            case _ => e.event == Rested
  {
    TracesAgree(cfg, trace);
    ReplayOneMore(cfg, trace, e);
    hide Replay, HistoryOf, RetryDelay;
  }

  /** What a worker writes is what its handler returned: completion for a success, else the handler's own message. */
  lemma WritesReportTheHandler(cfg: Config, trace: seq<Timed>, at: Time, issued: TerminalWrite)
    requires Replay(cfg, trace + [Timed(at, WriteStarted(issued))]).Some?
    ensures HistoryOf(trace).result.Some? && HistoryOf(trace).job.Some?
    ensures issued == Completion <==> HistoryOf(trace).result == Some(Succeeded)
    ensures forall message, delay :: issued == Failure(message, delay) ==>
              HistoryOf(trace).result == Some(Failed(message))
              && delay == RetryDelay(cfg.retryBase, cfg.retryMax, HistoryOf(trace).job.value.attempts)
  {
    ReplayOneMore(cfg, trace, Timed(at, WriteStarted(issued)));
    TracesAgree(cfg, trace);
    hide Replay, HistoryOf, RetryDelay;
  }

  /** What a finished run answers, from its last event alone: each answer has exactly its own events. */
  lemma AnswersFollowTheLastEvent(cfg: Config, trace: seq<Timed>)
    requires Replay(cfg, trace).Some? && Replay(cfg, trace).value.Ended?
    ensures var last, outcome := Last(trace), Replay(cfg, trace).value.outcome;
            && (outcome == Ok(JobCompleted) <==> last == WriteReplied(Ok(Done)))
            && (outcome == Ok(JobRetryScheduled) <==> last == WriteReplied(Ok(Disposed(RetryScheduled))))
            && (outcome == Ok(JobDeadLettered) <==> last == WriteReplied(Ok(Disposed(DeadLettered))))
            && (outcome == Ok(Idled) <==> last == ClaimReplied(Ok(None)))
  {
    TracesAgree(cfg, trace);
    hide Replay, HistoryOf, DueAt, Step, Last;
  }

  lemma ErrorsFollowTheLastEvent(cfg: Config, trace: seq<Timed>)
    requires Replay(cfg, trace).Some? && Replay(cfg, trace).value.Ended?
    ensures var last, outcome := Last(trace), Replay(cfg, trace).value.outcome;
            && (outcome == Err(Unavailable) <==>
                last in {ReapReplied(false), ClaimReplied(Err(Unavailable)), WriteReplied(Err(Unavailable))})
            && (outcome == Err(LeaseLost) <==>
                last in {LoopTooLate, HandlerTimedOut, RenewalTooLate, RenewalTimedOut, WriteTooLate, WriteTimedOut,
                         ClaimReplied(Err(LeaseLost)), RenewalReplied(Err(LeaseLost)), WriteReplied(Err(LeaseLost))})
  {
    TracesAgree(cfg, trace);
    hide Replay, HistoryOf, DueAt, Step, Last;
  }

  /** A settled result is the one in the trace's last handler event, with the deadline of the last success. */
  lemma SettledResultsAreTheHandlers(cfg: Config, trace: seq<Timed>)
    requires Replay(cfg, trace).Some? && Replay(cfg, trace).value.Settled?
    ensures HistoryOf(trace).result == Some(Replay(cfg, trace).value.result)
    ensures Replay(cfg, trace).value.deadline == HistoryOf(trace).success + cfg.lease
  {
    TracesAgree(cfg, trace);
    hide Replay, HistoryOf;
  }
}
