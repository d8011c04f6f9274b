/**
 `key_for`: a shared index of signing keys that any number of callers read, and that at most one of them
 refreshes at a time, under a throttle. Callers interleave at every await, and any of them may be
 cancelled at any await. Proved for every interleaving: what a returned key came from, single flight,
 the throttle, and that a failed or cancelled refresh changes nothing.
 */
module KeyCache {
  import opened Wrappers
  import opened KeyIndex

  type CallerId = nat

  datatype Settings = Settings(maxAge: nat, interval: nat, algorithms: set<Algorithm>, decode: Decoder)

  /** The cached index with its time stamp, and (history) the document it was built from. */
  datatype Snapshot = Snapshot(index: Index, fetchedAt: Time, document: seq<Jwk>)

  datatype AuthError = InvalidToken | AuthenticationUnavailable

  type Answer = Result<DecodingKey, AuthError>

  /** Why a call answered as it did: the snapshot it relied on, when it read it, and whether it fetched it itself. */
  datatype Reason =
    | Read(snapshot: Snapshot, at: Time)
    | Fetched(snapshot: Snapshot)
    | Throttled(snapshot: Snapshot, at: Time)
    | FetchFailed

  datatype Phase =
    | Entered
    | WaitingForLock
    | Locked
    | Rechecked(seen: Snapshot, stale: bool, at: Time)
    | Cleared                                    // the throttle lets this call fetch
    | Fetching(started: Time)
    | Publishing(taken: Snapshot)                // waits for the write lock
    | Returned(answer: Answer, reason: Reason)
    | Cancelled

  datatype Caller = Caller(kid: string, algorithm: Algorithm, phase: Phase)

  /** A caller looked at its clock and the cache, or its fetch or discovery brought a well-formed document or none. */
  datatype Observation =
    | Looked(id: CallerId, at: Time)
    | Received(receiver: Option<CallerId>, snapshot: Snapshot)
    | Denied(id: CallerId)

  datatype State = State(
    now: Time,
    cached: Snapshot,
    lastAttempt: Option<Time>,
    holder: Option<CallerId>,
    callers: map<CallerId, Caller>,
    starts: seq<Time>,                           // history: when fetches were started
    seen: set<Observation>)                      // history

  /** What the provider's reply to a fetch amounts to. */
  datatype Reply = Unreachable | Document(keys: seq<Jwk>, indexed: Result<Index, IndexError>)

  datatype Event =
    | Tick(ticks: nat)
    | Enter(id: CallerId, kid: string, algorithm: Algorithm)
    | ReadCache(id: CallerId)
    | Lock(id: CallerId)
    | Recheck(id: CallerId)
    | CheckThrottle(id: CallerId)
    | StartFetch(id: CallerId)
    | FinishFetch(id: CallerId, reply: Reply)
    | Publish(id: CallerId)
    | Cancel(id: CallerId)

  predicate Fresh(snapshot: Snapshot, at: Time, cfg: Settings) {
    at - snapshot.fetchedAt < cfg.maxAge
  }

  predicate HoldsLock(p: Phase) {
    p.Locked? || p.Rechecked? || p.Cleared? || p.Fetching? || p.Publishing?
  }

  // ---------------------------------------------------------------- what one call does between awaits

  function AfterRead(cfg: Settings, c: Caller, cached: Snapshot, now: Time): Phase {
    if Fresh(cached, now, cfg) && Lookup(cached.index, c.algorithm, c.kid).Some?
    then Returned(Ok(Lookup(cached.index, c.algorithm, c.kid).value), Read(cached, now))
    else WaitingForLock
  }

  function AfterRecheck(cfg: Settings, c: Caller, cached: Snapshot, now: Time): Phase {
    if Fresh(cached, now, cfg) then
      match Lookup(cached.index, c.algorithm, c.kid)
      case Some(key) => Returned(Ok(key), Read(cached, now))
      case None => Rechecked(cached, false, now)
    else Rechecked(cached, true, now)
  }

  function AfterThrottle(cfg: Settings, p: Phase, lastAttempt: Option<Time>, now: Time): Phase
    requires p.Rechecked?
  {
    if lastAttempt.Some? && now - lastAttempt.value < cfg.interval
    then Returned(Err(if p.stale then AuthenticationUnavailable else InvalidToken), Throttled(p.seen, p.at))
    else Cleared
  }

  /** The index's time stamp is taken when the reply is indexed, before waiting for the write lock. */
  function AfterFetch(reply: Reply, now: Time): Phase {
    if reply.Document? && reply.indexed.Ok? then Publishing(Snapshot(reply.indexed.value, now, reply.keys))
    else Returned(Err(AuthenticationUnavailable), FetchFailed)
  }

  function AfterPublish(c: Caller, taken: Snapshot): Phase {
    match Lookup(taken.index, c.algorithm, c.kid)
    case Some(key) => Returned(Ok(key), Fetched(taken))
    case None => Returned(Err(InvalidToken), Fetched(taken))
  }

  // ---------------------------------------------------------------- steps

  function Started(e: Event, now: Time): seq<Time> {
    if e.StartFetch? then [now] else []
  }

  /** What an event at time `now` lets its caller observe, read off the event alone. */
  function Observed(e: Event, now: Time): set<Observation> {
    match e
    case ReadCache(id) => {Looked(id, now)}
    case Recheck(id) => {Looked(id, now)}
    case FinishFetch(id, Document(keys, Ok(index))) => {Received(Some(id), Snapshot(index, now, keys))}
    case FinishFetch(id, _) => {Denied(id)}
    case _ => {}
  }

  ghost predicate Possible(cfg: Settings, s: State, e: Event) {
    match e
    case Tick(_) => true
    case Enter(id, _, _) => id !in s.callers
    case ReadCache(id) => id in s.callers && s.callers[id].phase.Entered?
    case Lock(id) => id in s.callers && s.callers[id].phase.WaitingForLock? && s.holder.None?
    case Recheck(id) => id in s.callers && s.callers[id].phase.Locked?
    case CheckThrottle(id) => id in s.callers && s.callers[id].phase.Rechecked?
    case StartFetch(id) => id in s.callers && s.callers[id].phase.Cleared?
    case FinishFetch(id, reply) =>
      && id in s.callers && s.callers[id].phase.Fetching?
      && (reply.Document? ==> Indexes(reply.keys, cfg.algorithms, cfg.decode, reply.indexed))
    case Publish(id) => id in s.callers && s.callers[id].phase.Publishing?
    case Cancel(id) => id in s.callers && !s.callers[id].phase.Returned?
  }

  /** A caller moves to a phase; leaving the locked section, by return or cancellation, frees the lock. */
  function Move(s: State, id: CallerId, p: Phase): State
    requires id in s.callers
  {
    s.(callers := s.callers[id := s.callers[id].(phase := p)],
       holder := if HoldsLock(p) then Some(id) else if HoldsLock(s.callers[id].phase) then None else s.holder)
  }

  ghost function Do(cfg: Settings, s: State, e: Event): State
    requires Possible(cfg, s, e)
  {
    match e
    case Tick(ticks) => s.(now := s.now + ticks)
    case Enter(id, kid, algorithm) => s.(callers := s.callers[id := Caller(kid, algorithm, Entered)])
    case ReadCache(id) => Move(s, id,
        AfterRead(cfg, s.callers[id], s.cached, s.now)).(seen := s.seen + Observed(e, s.now))
    case Lock(id) => Move(s, id, Locked)
    case Recheck(id) => Move(s, id,
        AfterRecheck(cfg, s.callers[id], s.cached, s.now)).(seen := s.seen + Observed(e, s.now))
    case CheckThrottle(id) => Move(s, id, AfterThrottle(cfg, s.callers[id].phase, s.lastAttempt, s.now))
    case StartFetch(id) => Move(s, id, Fetching(s.now)).(lastAttempt := Some(s.now), starts := s.starts + [s.now])
    case FinishFetch(id, reply) => Move(s, id, AfterFetch(reply, s.now)).(seen := s.seen + Observed(e, s.now))
    case Publish(id) =>
      var taken := s.callers[id].phase.taken;
      Move(s, id, AfterPublish(s.callers[id], taken)).(cached := taken)
    case Cancel(id) => Move(s, id, Cancelled)
  }

  /** After discovery: an index built from the first document, no refresh attempted yet, nobody calling. */
  ghost predicate Initial(cfg: Settings, s: State) {
    && Genuine(cfg, s.cached) && s.cached.fetchedAt <= s.now
    && s.lastAttempt.None? && s.holder.None? && s.callers == map[] && s.starts == []
        && s.seen == {Received(None, s.cached)}
  }

  // ---------------------------------------------------------------- invariant

  /** The index really is the index of the document. */
  ghost predicate Genuine(cfg: Settings, snapshot: Snapshot) {
    Indexes(snapshot.document, cfg.algorithms, cfg.decode, Ok(snapshot.index))
  }

  /** The key that linear search in the document selects and decodes, if any. */
  ghost function Wanted(cfg: Settings, algorithm: Algorithm, kid: string, document: seq<Jwk>): Option<DecodingKey> {
    match Selected(document, cfg.algorithms, algorithm, kid)
    case None => None
    case Some(key) => cfg.decode(key)
  }

  /** An answer is justified by its reason; this is what callers of `key_for` rely on. */
  ghost predicate Justified(cfg: Settings, algorithm: Algorithm, kid: string, answer: Answer, reason: Reason) {
    match reason
    case Read(snapshot, at) =>
      && Genuine(cfg, snapshot) && snapshot.fetchedAt <= at && Fresh(snapshot, at, cfg)
      && answer.Ok? && Wanted(cfg, algorithm, kid, snapshot.document) == Some(answer.value)
    case Fetched(snapshot) =>
      && Genuine(cfg, snapshot)
      && answer == (match Wanted(cfg, algorithm, kid, snapshot.document)
                    case Some(key) => Ok(key)
                    case None => Err(InvalidToken))
    case Throttled(snapshot, at) =>
      snapshot.fetchedAt <= at && if Fresh(snapshot, at, cfg) then Genuine(cfg, snapshot)
          && Wanted(cfg, algorithm, kid, snapshot.document).None? && answer == Err(InvalidToken)
      else answer == Err(AuthenticationUnavailable)
    case FetchFailed => answer == Err(AuthenticationUnavailable)
  }

  /** What a caller must establish to be in a phase. */
  ghost predicate Earned(cfg: Settings, s: State, c: Caller, p: Phase) {
    match p
    case Rechecked(seen, stale, at) =>
      && Genuine(cfg, seen) && seen.fetchedAt <= at && (stale <==> !Fresh(seen, at, cfg))
          && (!stale ==> Lookup(seen.index, c.algorithm, c.kid).None?)
    case Cleared => s.lastAttempt.None? || s.now - s.lastAttempt.value >= cfg.interval
    case Fetching(started) => s.lastAttempt == Some(started) && s.cached.fetchedAt <= started <= s.now
    case Publishing(taken) => Genuine(cfg, taken) && s.cached.fetchedAt <= taken.fetchedAt <= s.now
    case Returned(answer, reason) => Justified(cfg, c.algorithm, c.kid, answer, reason)
    case _ => true
  }

  ghost predicate CallerOk(cfg: Settings, s: State, id: CallerId)
    requires id in s.callers
  {
    && (HoldsLock(s.callers[id].phase) <==> s.holder == Some(id))
    && Earned(cfg, s, s.callers[id], s.callers[id].phase)
  }

  /** Starts are in order and at least the refresh interval apart. */
  ghost predicate Spaced(starts: seq<Time>, interval: nat) {
    forall i | 0 < i < |starts| :: starts[i] - starts[i - 1] >= interval
  }

  ghost predicate Inv(cfg: Settings, s: State) {
    && Genuine(cfg, s.cached) && s.cached.fetchedAt <= s.now
    && (s.holder.Some? ==> s.holder.value in s.callers)
    && (forall id | id in s.callers :: CallerOk(cfg, s, id))
    && Spaced(s.starts, cfg.interval)
    && (s.lastAttempt == if s.starts == [] then None else Some(s.starts[|s.starts| - 1]))
    && (s.lastAttempt.Some? ==> s.lastAttempt.value <= s.now)
  }

  lemma CallersStayOk(cfg: Settings, s: State, id: CallerId, p: Phase, s': State)
    requires Inv(cfg, s) && id in s.callers && s'.now == s.now
    requires s'.callers == Move(s, id, p).callers && s'.holder == Move(s, id, p).holder
    requires HoldsLock(p) ==> s.holder.None? || s.holder == Some(id)
    requires (s'.cached == s.cached && s'.lastAttempt == s.lastAttempt) || HoldsLock(s.callers[id].phase)
    requires Earned(cfg, s', s.callers[id], p)
    ensures forall other | other in s'.callers :: CallerOk(cfg, s', other)
    ensures s'.holder.Some? ==> s'.holder.value in s'.callers
  {
  }

  lemma EventsKeepInv(cfg: Settings, s: State, e: Event)
    requires Inv(cfg, s) && Possible(cfg, s, e)
    ensures Inv(cfg, Do(cfg, s, e))
  {
    hide Genuine, Justified, Earned, CallerOk, Indexes;
    var s' := Do(cfg, s, e);
    match e {
      case Tick(_) =>
        forall id | id in s'.callers ensures CallerOk(cfg, s', id) {
          WaitingKeepsCallersOk(cfg, s, s', id);
        }
      case Enter(added, _, _) =>
        forall id | id in s'.callers ensures CallerOk(cfg, s', id) {
          EnteringKeepsCallersOk(cfg, s, s', added, id);
        }
      case _ =>
        var id, p := e.id, s'.callers[e.id].phase;
        StepsAreEarned(cfg, s, e);
        StepsKeepSharedState(cfg, s, e);
        CallersStayOk(cfg, s, id, p, s');
    }
  }

  lemma WaitingKeepsCallersOk(cfg: Settings, s: State, s': State, id: CallerId)
    requires id in s.callers && CallerOk(cfg, s, id) && s.now <= s'.now && s' == s.(now := s'.now)
    ensures CallerOk(cfg, s', id)
  {
  }

  lemma EnteringKeepsCallersOk(cfg: Settings, s: State, s': State, added: CallerId, id: CallerId)
    requires Inv(cfg, s) && added !in s.callers && s' == s.(callers := s'.callers)
    requires exists kid, algorithm :: s'.callers == s.callers[added := Caller(kid, algorithm, Entered)]
    requires id in s'.callers
    ensures CallerOk(cfg, s', id)
  {
  }

  /** Each step of a call earns the phase it leads to; the lock keeps what was established under it. */
  lemma StepsAreEarned(cfg: Settings, s: State, e: Event)
    requires Inv(cfg, s) && Possible(cfg, s, e) && !e.Tick? && !e.Enter?
    ensures Earned(cfg, Do(cfg, s, e), s.callers[e.id], Do(cfg, s, e).callers[e.id].phase)
  {
  }

  /** Only the holder of the lock changes the cache, the last attempt or the history. */
  lemma StepsKeepSharedState(cfg: Settings, s: State, e: Event)
    requires Inv(cfg, s) && Possible(cfg, s, e) && !e.Tick? && !e.Enter?
    ensures var s' := Do(cfg, s, e);
            && (HoldsLock(s'.callers[e.id].phase) ==> s.holder.None? || s.holder == Some(e.id))
            && ((s'.cached == s.cached && s'.lastAttempt == s.lastAttempt) || HoldsLock(s.callers[e.id].phase))
            && Genuine(cfg, s'.cached) && s'.cached.fetchedAt <= s'.now
            && Spaced(s'.starts, cfg.interval)
            && (s'.lastAttempt == if s'.starts == [] then None else Some(s'.starts[|s'.starts| - 1]))
            && (s'.lastAttempt.Some? ==> s'.lastAttempt.value <= s'.now)
  {
  }

  // ---------------------------------------------------------------- where snapshots come from

  /** Somebody received this snapshot. */
  ghost predicate Arrived(seen: set<Observation>, snapshot: Snapshot) {
    exists receiver :: Received(receiver, snapshot) in seen
  }

  /** The snapshots and times a phase speaks of are ones that were observed, by this caller where it claims so. */
  ghost predicate Sourced(seen: set<Observation>, id: CallerId, p: Phase) {
    match p
    case Rechecked(snapshot, _, at) => Arrived(seen, snapshot) && Looked(id, at) in seen
    case Publishing(taken) => Received(Some(id), taken) in seen
    case Returned(_, Read(snapshot, at)) => Arrived(seen, snapshot) && Looked(id, at) in seen
    case Returned(_, Throttled(snapshot, at)) => Arrived(seen, snapshot) && Looked(id, at) in seen
    case Returned(_, Fetched(snapshot)) => Received(Some(id), snapshot) in seen
    case Returned(_, FetchFailed) => Denied(id) in seen
    case _ => true
  }

  ghost predicate Sources(s: State) {
    Arrived(s.seen, s.cached) && forall id | id in s.callers :: Sourced(s.seen, id, s.callers[id].phase)
  }

  lemma SourcesPersist(seen: set<Observation>, seen': set<Observation>, id: CallerId, p: Phase)
    requires seen <= seen'
    ensures Sourced(seen, id, p) ==> Sourced(seen', id, p)
    ensures forall snapshot :: Arrived(seen, snapshot) ==> Arrived(seen', snapshot)
  {
  }

  /** Every step keeps the cache and every answer tied to a document that arrived. */
  lemma EventsKeepSources(cfg: Settings, s: State, e: Event)
    requires Sources(s) && Possible(cfg, s, e)
    ensures Sources(Do(cfg, s, e)) && Do(cfg, s, e).seen == s.seen + Observed(e, s.now)
    ensures Do(cfg, s, e).starts == s.starts + Started(e, s.now)
  {
    hide Indexes, Lookup, Fresh, Arrived;
    var s' := Do(cfg, s, e);
    if e.Publish? || e.FinishFetch? {
      assert Sourced(s.seen, e.id, s.callers[e.id].phase);
    }
    forall id | id in s'.callers ensures Sourced(s'.seen, id, s'.callers[id].phase) {
      SourcesPersist(s.seen, s'.seen, id, s'.callers[id].phase);
    }
    assert Arrived(s'.seen, s'.cached) by {
      SourcesPersist(s.seen, s'.seen, 0, Entered);
      if e.Publish? {
        ReceivedSnapshotsArrived(s.seen, e.id, s'.cached);
      }
    }
  }

  lemma ReceivedSnapshotsArrived(seen: set<Observation>, id: CallerId, snapshot: Snapshot)
    requires Received(Some(id), snapshot) in seen
    ensures Arrived(seen, snapshot)
  {
  }

  // ---------------------------------------------------------------- runs

  ghost predicate Plays(cfg: Settings, s: State, events: seq<Event>)
    decreases events
  {
    events == [] || (Possible(cfg, s, events[0]) && Plays(cfg, Do(cfg, s, events[0]), events[1..]))
  }

  ghost function End(cfg: Settings, s: State, events: seq<Event>): State
    requires Plays(cfg, s, events)
    decreases events
  {
    if events == [] then s else End(cfg, Do(cfg, s, events[0]), events[1..])
  }

  lemma {:induction false} RunsKeepInv(cfg: Settings, s: State, events: seq<Event>)
    requires Inv(cfg, s) && Plays(cfg, s, events)
    ensures Inv(cfg, End(cfg, s, events))
    decreases events
  {
    hide Inv, Possible, Do;
    if events != [] {
      EventsKeepInv(cfg, s, events[0]);
      RunsKeepInv(cfg, Do(cfg, s, events[0]), events[1..]);
    }
  }

  /** All that is observed in a run that begins at time `now`, read off the events alone. */
  function ObservedIn(events: seq<Event>, now: Time): set<Observation> {
    if events == [] then {}
    else Observed(events[0], now) + ObservedIn(events[1..], if events[0].Tick? then now + events[0].ticks else now)
  }

  /** When the run starts fetches, read off the events alone. */
  function StartsIn(events: seq<Event>, now: Time): seq<Time> {
    if events == [] then []
    else Started(events[0], now) + StartsIn(events[1..], if events[0].Tick? then now + events[0].ticks else now)
  }

  lemma {:induction false} RunsKeepSources(cfg: Settings, s: State, events: seq<Event>)
    requires Sources(s) && Plays(cfg, s, events)
    ensures Sources(End(cfg, s, events)) && End(cfg, s, events).seen == s.seen + ObservedIn(events, s.now)
    ensures End(cfg, s, events).starts == s.starts + StartsIn(events, s.now)
    decreases events
  {
    hide Sources, Possible, Observed, Started;
    if events != [] {
      EventsKeepSources(cfg, s, events[0]);
      RunsKeepSources(cfg, Do(cfg, s, events[0]), events[1..]);
    }
  }

  /** Discovery's document and what arrived since. */
  function Known(s0: State, events: seq<Event>): set<Observation> {
    {Received(None, s0.cached)} + ObservedIn(events, s0.now)
  }

  lemma ReachableStatesAreOk(cfg: Settings, s0: State, events: seq<Event>)
    requires Initial(cfg, s0) && Plays(cfg, s0, events)
    ensures Inv(cfg, End(cfg, s0, events))
    ensures Sources(End(cfg, s0, events)) && End(cfg, s0, events).seen == Known(s0, events)
    ensures End(cfg, s0, events).starts == StartsIn(events, s0.now)
  {
    RunsKeepInv(cfg, s0, events);
    assert Sources(s0) by {
      assert Received(None, s0.cached) in s0.seen;
    }
    RunsKeepSources(cfg, s0, events);
  }

  // ---------------------------------------------------------------- main results

  /**
   No stale keys. A key that `key_for` returned is the one linear search selects in a document that arrived in
   this run (or at discovery) and whose snapshot was younger than the maximum age when this call looked at it, or
   in the document that this very call received.
   */
  lemma ReturnedKeysAreFresh(cfg: Settings, s0: State, events: seq<Event>, id: CallerId)
    requires Initial(cfg, s0) && Plays(cfg, s0, events)
    ensures var s := End(cfg, s0, events);
            id in s.callers && s.callers[id].phase.Returned? && s.callers[id].phase.answer.Ok? ==>
              var c, reason := s.callers[id], s.callers[id].phase.reason;
              && (reason.Read? || reason.Fetched?)
              && (reason.Read? ==>
                  && 0 <= reason.at - reason.snapshot.fetchedAt < cfg.maxAge
                  && Looked(id, reason.at) in Known(s0, events)
                                   && Arrived(Known(s0, events), reason.snapshot))
              && (reason.Fetched? ==> Received(Some(id), reason.snapshot) in ObservedIn(events, s0.now))
              && Wanted(cfg, c.algorithm, c.kid, reason.snapshot.document) == Some(c.phase.answer.value)
  {
    ReachableStatesAreOk(cfg, s0, events);
    var s := End(cfg, s0, events);
    assert id in s.callers ==> CallerOk(cfg, s, id) && Sourced(s.seen, id, s.callers[id].phase);
    hide Genuine, Wanted, Arrived, Initial;
  }

  /** A token is called invalid for lack of its key only on the word of a fresh document that lacks it. */
  lemma InvalidTokensLackTheirKey(cfg: Settings, s0: State, events: seq<Event>, id: CallerId)
    requires Initial(cfg, s0) && Plays(cfg, s0, events)
    ensures var s := End(cfg, s0, events);
            id in s.callers && s.callers[id].phase.Returned? && s.callers[id].phase.answer == Err(InvalidToken) ==>
              var c, reason := s.callers[id], s.callers[id].phase.reason;
              && (reason.Throttled? || reason.Fetched?)
              && (reason.Throttled? ==>
                  && 0 <= reason.at - reason.snapshot.fetchedAt < cfg.maxAge
                  && Looked(id, reason.at) in Known(s0, events)
                                        && Arrived(Known(s0, events), reason.snapshot))
              && (reason.Fetched? ==> Received(Some(id), reason.snapshot) in ObservedIn(events, s0.now))
              && Wanted(cfg, c.algorithm, c.kid, reason.snapshot.document) == None
  {
    ReachableStatesAreOk(cfg, s0, events);
    var s := End(cfg, s0, events);
    assert id in s.callers ==> CallerOk(cfg, s, id) && Sourced(s.seen, id, s.callers[id].phase);
    hide Genuine, Wanted, Arrived, Initial;
  }

  /**
   Authentication is reported unavailable only if this call was throttled after it looked at a cache that had reached
   the maximum age, or if its own fetch brought no usable document.
   */
  lemma UnavailableHasAReason(cfg: Settings, s0: State, events: seq<Event>, id: CallerId)
    requires Initial(cfg, s0) && Plays(cfg, s0, events)
    ensures var s := End(cfg, s0, events);
            id in s.callers && s.callers[id].phase.Returned?
            && s.callers[id].phase.answer == Err(AuthenticationUnavailable) ==>
              var reason := s.callers[id].phase.reason;
              || (reason.Throttled? && reason.at - reason.snapshot.fetchedAt >= cfg.maxAge
                  && Looked(id, reason.at) in Known(s0, events) && Arrived(Known(s0, events), reason.snapshot))
              || (reason.FetchFailed? && Denied(id) in ObservedIn(events, s0.now))
  {
    ReachableStatesAreOk(cfg, s0, events);
    var s := End(cfg, s0, events);
    assert id in s.callers ==> CallerOk(cfg, s, id) && Sourced(s.seen, id, s.callers[id].phase);
    hide Genuine, Wanted, Arrived, Initial, Inv, Plays, End;
  }

  /**
   A key that the cached document holds is returned at once while the cache is younger than the maximum age, at the
   first look as at the second; otherwise the call goes on.
   */
  lemma YoungKeysAreReturned(cfg: Settings, s0: State, events: seq<Event>, e: Event)
    requires Initial(cfg, s0) && Plays(cfg, s0, events) && Possible(cfg, End(cfg, s0, events), e)
    requires e.ReadCache? || e.Recheck?
    ensures var s := End(cfg, s0, events);
            var c := s.callers[e.id];
            var wanted := Wanted(cfg, c.algorithm, c.kid, s.cached.document);
            var phase := Do(cfg, s, e).callers[e.id].phase;
            if s.now - s.cached.fetchedAt < cfg.maxAge && wanted.Some?
            then phase.Returned? && phase.answer == Ok(wanted.value)
            else if e.ReadCache? then phase == WaitingForLock
            else phase == Rechecked(s.cached, s.now - s.cached.fetchedAt >= cfg.maxAge, s.now)
  {
    ReachableStatesAreOk(cfg, s0, events);
    var s := End(cfg, s0, events);
    var c := s.callers[e.id];
    CachedLookups(cfg, s, c.algorithm, c.kid);
    hide Inv, Sources, Plays, End, Wanted, Initial;
  }

  lemma CachedLookups(cfg: Settings, s: State, algorithm: Algorithm, kid: string)
    requires Inv(cfg, s)
    ensures Lookup(s.cached.index, algorithm, kid) == Wanted(cfg, algorithm, kid, s.cached.document)
  {
  }

  /** A call that returned is over: it takes no further step, so it starts no fetch. */
  lemma {:induction false} ReturnedCallsAreOver(cfg: Settings, s: State, events: seq<Event>, id: CallerId)
    requires Plays(cfg, s, events) && id in s.callers && s.callers[id].phase.Returned?
    ensures id in End(cfg, s, events).callers && End(cfg, s, events).callers[id] == s.callers[id]
    ensures forall e | e in events && !e.Tick? :: e.id != id
    decreases events
  {
    if events != [] {
      OtherStepsLeaveReturnedCalls(cfg, s, events[0], id);
      hide Possible, Do;
      ReturnedCallsAreOver(cfg, Do(cfg, s, events[0]), events[1..], id);
      assert forall e | e in events :: e == events[0] || e in events[1..];
    }
  }

  lemma OtherStepsLeaveReturnedCalls(cfg: Settings, s: State, e: Event, id: CallerId)
    requires Possible(cfg, s, e) && id in s.callers && s.callers[id].phase.Returned?
    ensures (e.Tick? || e.id != id) && id in Do(cfg, s, e).callers && Do(cfg, s, e).callers[id] == s.callers[id]
  {
  }

  /**
   What the locked section does after the second look. It fetches exactly if no fetch was started within the refresh
   interval; a refused caller is told that its key is unknown only if the cache it saw was young. A reply without a
   usable document makes authentication unavailable; any other is published and answers by what it holds.
   */
  lemma LockedStepsAreExact(cfg: Settings, s0: State, events: seq<Event>, e: Event)
    requires Initial(cfg, s0) && Plays(cfg, s0, events) && Possible(cfg, End(cfg, s0, events), e)
    requires e.CheckThrottle? || e.FinishFetch? || e.Publish?
    ensures var s := End(cfg, s0, events);
            var starts := StartsIn(events, s0.now);
            var before, after := s.callers[e.id].phase, Do(cfg, s, e).callers[e.id].phase;
            match e
            case CheckThrottle(_) =>
              if starts != [] && s.now - starts[|starts| - 1] < cfg.interval
              then && after.Returned? && before.Rechecked?
                   && after.answer == Err(if before.at - before.seen.fetchedAt < cfg.maxAge then InvalidToken
                                          else AuthenticationUnavailable)
              else after == Cleared
            case FinishFetch(_, Document(keys, Ok(index))) => after == Publishing(Snapshot(index, s.now, keys))
            case FinishFetch(_, _) => after.Returned? && after.answer == Err(AuthenticationUnavailable)
            case Publish(_) =>
              && before.Publishing? && after.Returned?
              && after.answer == (match Wanted(cfg, s.callers[e.id].algorithm, s.callers[e.id].kid,
                                               before.taken.document)
                                  case Some(key) => Ok(key)
                                  case None => Err(InvalidToken))
            case _ => true
  {
    ReachableStatesAreOk(cfg, s0, events);
    var s := End(cfg, s0, events);
    assert CallerOk(cfg, s, e.id);
    if e.Publish? {
      TakenLookups(cfg, s.callers[e.id].phase.taken, s.callers[e.id].algorithm, s.callers[e.id].kid);
    }
    hide Sources, Plays, End, Wanted, Initial, Genuine, Indexes, Lookup, Justified;
  }

  lemma TakenLookups(cfg: Settings, taken: Snapshot, algorithm: Algorithm, kid: string)
    requires Genuine(cfg, taken)
    ensures Lookup(taken.index, algorithm, kid) == Wanted(cfg, algorithm, kid, taken.document)
  {
  }

  /** Only a completed, well-formed fetch that is published changes the cache, and it never brings back an older one. */
  lemma CacheOnlyMovesForward(cfg: Settings, s0: State, events: seq<Event>, e: Event)
    requires Initial(cfg, s0) && Plays(cfg, s0, events) && Possible(cfg, End(cfg, s0, events), e)
    ensures var s := End(cfg, s0, events);
            && (!e.Publish? ==> Do(cfg, s, e).cached == s.cached)
            && (e.Publish? ==> && Received(Some(e.id), Do(cfg, s, e).cached) in ObservedIn(events, s0.now)
                               && Genuine(cfg, Do(cfg, s, e).cached)
                               && Do(cfg, s, e).cached.fetchedAt >= s.cached.fetchedAt)
  {
    ReachableStatesAreOk(cfg, s0, events);
    var s := End(cfg, s0, events);
    assert e.Publish? ==> CallerOk(cfg, s, e.id) && Sourced(s.seen, e.id, s.callers[e.id].phase);
    hide Genuine, Justified, Lookup, Fresh, Wanted, Arrived;
  }

  /** A call that ended, be it answered, refused, failed or cancelled, leaves the lock free. */
  lemma EndedCallsReleaseTheLock(cfg: Settings, s0: State, events: seq<Event>, id: CallerId)
    requires Initial(cfg, s0) && Plays(cfg, s0, events)
    requires id in End(cfg, s0, events).callers
    requires End(cfg, s0, events).callers[id].phase.Returned? || End(cfg, s0, events).callers[id].phase.Cancelled?
    ensures End(cfg, s0, events).holder != Some(id)
  {
    ReachableStatesAreOk(cfg, s0, events);
    assert CallerOk(cfg, End(cfg, s0, events), id);
  }

  /** At most one fetch is in flight, and while one is, nobody else is in the locked section. */
  lemma SingleFlight(cfg: Settings, s0: State, events: seq<Event>, a: CallerId, b: CallerId)
    requires Initial(cfg, s0) && Plays(cfg, s0, events)
    ensures var s := End(cfg, s0, events);
            a in s.callers && b in s.callers && s.callers[a].phase.Fetching? && HoldsLock(s.callers[b].phase) ==> a == b
  {
    ReachableStatesAreOk(cfg, s0, events);
    var s := End(cfg, s0, events);
    assert (a in s.callers ==> CallerOk(cfg, s, a)) && (b in s.callers ==> CallerOk(cfg, s, b));
  }

  lemma {:induction false} SpacedStartsAreFarApart(starts: seq<Time>, interval: nat, i: nat, j: nat)
    requires Spaced(starts, interval) && i <= j < |starts|
    ensures starts[j] - starts[i] >= (j - i) * interval
  {
    if i < j {
      SpacedStartsAreFarApart(starts, interval, i, j - 1);
      assert (j - i) * interval == (j - 1 - i) * interval + interval;
    }
  }

  lemma {:induction false} SmallestIndex(indices: set<nat>) returns (first: nat)
    requires indices != {}
    ensures first in indices && forall i | i in indices :: first <= i
  {
    first :| first in indices;
    if indices != {first} {
      var rest := SmallestIndex(indices - {first});
      assert forall i | i in indices :: i == first || i in indices - {first};
      if rest < first {
        first := rest;
      }
    }
  }

  function Range(first: nat, n: nat): (r: set<nat>)
    ensures |r| == n && forall i: nat :: i in r <==> first <= i < first + n
  {
    if n == 0 then {} else Range(first, n - 1) + {first + n - 1}
  }

  /** Which fetches were started in the closed window of the given length. */
  function InWindow(starts: seq<Time>, opens: Time, length: nat): set<nat> {
    set i: nat | i < |starts| && opens <= starts[i] <= opens + length
  }

  lemma SpacedStartsFitTheWindow(starts: seq<Time>, interval: nat, opens: Time, length: nat)
    requires interval > 0 && Spaced(starts, interval)
    ensures |InWindow(starts, opens, length)| <= length / interval + 1
  {
    var inside := InWindow(starts, opens, length);
    if inside != {} {
      var first := SmallestIndex(inside);
      var room := length / interval + 1;
      var range := Range(first, room);
      forall i | i in inside ensures i in range {
        StartsInWindowAreClose(starts, interval, opens, length, first, i);
      }
      SubsetSize(inside, range);
    }
  }

  lemma StartsInWindowAreClose(starts: seq<Time>, interval: nat, opens: Time, length: nat, i: nat, j: nat)
    requires interval > 0 && Spaced(starts, interval) && i <= j
    requires i in InWindow(starts, opens, length) && j in InWindow(starts, opens, length)
    ensures j - i <= length / interval
  {
    SpacedStartsAreFarApart(starts, interval, i, j);
    QuotientBound(j - i, interval, length);
  }

  lemma QuotientBound(k: nat, interval: nat, length: nat)
    requires interval > 0 && k * interval <= length
    ensures k <= length / interval
  {
    var q := length / interval;
    assert length < q * interval + interval;
    if k > q {
      ProductsGrow(q + 1, k, interval);
    }
  }

  lemma {:induction false} ProductsGrow(a: nat, b: nat, n: nat)
    requires a <= b
    ensures a * n <= b * n && (a + 1) * n == a * n + n
  {
  }

  /**
   Refresh throttle. However many callers race or are cancelled, two fetches start at least the refresh
   interval apart, so a window of length T sees at most T/interval + 1 of them.
   */
  lemma RefreshesAreThrottled(cfg: Settings, s0: State, events: seq<Event>, opens: Time, length: nat)
    requires cfg.interval > 0 && Initial(cfg, s0) && Plays(cfg, s0, events)
    ensures Spaced(StartsIn(events, s0.now), cfg.interval)
    ensures |InWindow(StartsIn(events, s0.now), opens, length)| <= length / cfg.interval + 1
  {
    ReachableStatesAreOk(cfg, s0, events);
    SpacedStartsFitTheWindow(StartsIn(events, s0.now), cfg.interval, opens, length);
  }

  /** The lock's holder can always take its next step: no interleaving deadlocks. */
  lemma TheHolderCanProceed(cfg: Settings, s0: State, events: seq<Event>)
    requires Initial(cfg, s0) && Plays(cfg, s0, events) && End(cfg, s0, events).holder.Some?
    ensures var s, id := End(cfg, s0, events), End(cfg, s0, events).holder.value;
            || Possible(cfg, s, Recheck(id)) || Possible(cfg, s, CheckThrottle(id)) || Possible(cfg, s, StartFetch(id))
            || Possible(cfg, s, FinishFetch(id, Unreachable)) || Possible(cfg, s, Publish(id))
  {
    ReachableStatesAreOk(cfg, s0, events);
    var s := End(cfg, s0, events);
    assert CallerOk(cfg, s, s.holder.value);
    hide Possible, Genuine, Justified, Earned, Sources;
    LockedPhasesGoOn(cfg, s, s.holder.value);
  }

  lemma LockedPhasesGoOn(cfg: Settings, s: State, id: CallerId)
    requires id in s.callers && HoldsLock(s.callers[id].phase)
    ensures || Possible(cfg, s, Recheck(id)) || Possible(cfg, s, CheckThrottle(id)) || Possible(cfg, s, StartFetch(id))
            || Possible(cfg, s, FinishFetch(id, Unreachable)) || Possible(cfg, s, Publish(id))
  {
  }

  // ---------------------------------------------------------------- the call itself

  /** One call with nobody else around, as the steps above compose. */
  ghost function Alone(cfg: Settings, c: Caller, cached: Snapshot, lastAttempt: Option<Time>, t: seq<Time>,
          reply: Reply): (Phase, Snapshot, Option<Time>)
    requires |t| == 5
  {
    var read := AfterRead(cfg, c, cached, t[0]);
    if read.Returned? then (read, cached, lastAttempt) else
      var rechecked := AfterRecheck(cfg, c, cached, t[1]);
      if rechecked.Returned? then (rechecked, cached, lastAttempt) else
        var throttled := AfterThrottle(cfg, rechecked, lastAttempt, t[2]);
        if throttled.Returned? then (throttled, cached, lastAttempt) else
          var fetched := AfterFetch(reply, t[4]);
          if fetched.Returned? then (fetched, cached, Some(t[3]))
              else (AfterPublish(c, fetched.taken), fetched.taken, Some(t[3]))
  }

  class OidcAccessTokenVerifier {
    var cached: Snapshot
    var lastAttempt: Option<Time>

    constructor (index: Index, fetchedAt: Time, document: seq<Jwk>)
      ensures cached == Snapshot(index, fetchedAt, document) && lastAttempt.None?
    {
      cached, lastAttempt := Snapshot(index, fetchedAt, document), None;
    }

    /**
     `key_for` without competitors: clock readings `t` in order, the provider's document if it can be fetched,
     and the iteration order of the allowed algorithms. It does what the interleaved steps do one after another.
     */
    method KeyFor(cfg: Settings, order: seq<Algorithm>, kid: string, algorithm: Algorithm, t: seq<Time>,
            document: Option<seq<Jwk>>)
      returns (r: Answer, ghost reply: Reply)
      requires |t| == 5 && cfg.algorithms == Elements(order)
      modifies this
      ensures reply.Document? ==>
          document == Some(reply.keys)
          && Indexes(reply.keys, cfg.algorithms, cfg.decode, reply.indexed)
      ensures reply == Unreachable && document.Some? ==> lastAttempt == old(lastAttempt)  // nothing was fetched
      ensures var (phase, cached', lastAttempt') := Alone(cfg, Caller(kid, algorithm, Entered), old(cached),
          old(lastAttempt), t, reply);
              phase.Returned? && phase.answer == r && cached == cached' && lastAttempt == lastAttempt'
      ensures var held := if algorithm in old(cached).index && kid in old(cached).index[algorithm]
                          then Some(old(cached).index[algorithm][kid]) else None;
              if held.Some? && (t[0] - old(cached).fetchedAt < cfg.maxAge || t[1] - old(cached).fetchedAt < cfg.maxAge)
              then r == Ok(held.value) && cached == old(cached) && lastAttempt == old(lastAttempt)
              else if old(lastAttempt).Some? && t[2] - old(lastAttempt).value < cfg.interval
              then && r == Err(if t[1] - old(cached).fetchedAt < cfg.maxAge then InvalidToken
                               else AuthenticationUnavailable)
                   && cached == old(cached) && lastAttempt == old(lastAttempt)
              else && lastAttempt == Some(t[3])
                   && (document.Some? ==> reply.Document?)
                   && if reply.Document? && reply.indexed.Ok?
                      then && cached == Snapshot(reply.indexed.value, t[4], document.value)
                           && r == if algorithm in reply.indexed.value && kid in reply.indexed.value[algorithm]
                                   then Ok(reply.indexed.value[algorithm][kid]) else Err(InvalidToken)
                      else r == Err(AuthenticationUnavailable) && cached == old(cached)
      ensures cached != old(cached) ==> document.Some? && cached.document == document.value && cached.fetchedAt == t[4]
      ensures lastAttempt != old(lastAttempt) ==>
                lastAttempt == Some(t[3]) && (old(lastAttempt).Some? ==> t[2] - old(lastAttempt).value >= cfg.interval)
    {
      reply := Unreachable;
      if t[0] - cached.fetchedAt < cfg.maxAge {
        var key := Lookup(cached.index, algorithm, kid);
        if key.Some? {
          return Ok(key.value), reply;
        }
      }
      var cacheIsStale := true;
      if t[1] - cached.fetchedAt < cfg.maxAge {
        var key := Lookup(cached.index, algorithm, kid);
        if key.Some? {
          return Ok(key.value), reply;
        }
        cacheIsStale := false;
      }
      if lastAttempt.Some? && t[2] - lastAttempt.value < cfg.interval {
        return Err(if cacheIsStale then AuthenticationUnavailable else InvalidToken), reply;
      }
      lastAttempt := Some(t[3]);
      if document.None? {
        return Err(AuthenticationUnavailable), reply;
      }
      var indexed := IndexKeys(document.value, order, cfg.decode);
      reply := Document(document.value, indexed);
      if indexed.Err? {
        return Err(AuthenticationUnavailable), reply;
      }
      var index := indexed.value;
      var key := Lookup(index, algorithm, kid);
      cached := Snapshot(index, t[4], document.value);
      r := if key.Some? then Ok(key.value) else Err(InvalidToken);
    }
  }
}
