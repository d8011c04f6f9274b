/**
 The four user use cases over one repository and one best-effort cache, interleaved at every await. A cache
 command may take effect late, even after its call returned, or never; its reply may be lost either way.
 Proved over every run: what a read takes from the cache is a value the repository held a bounded time ago.
 */
module UserCache {
  import opened Wrappers
  import opened Users

  type CallId = nat

  /** `ttl` in the clock's unit; `longest` bounds how long a call and its cache commands stay unsettled. */
  datatype Settings = Settings(ttl: nat, longest: nat)

  /** A cached value, when it was written, and (history) when the repository held it. */
  datatype Entry = Entry(user: User, writtenAt: Time, sampledAt: Time)

  /** History: the repository from time `at` until the next version. */
  datatype Version = Version(at: Time, users: Repository)

  datatype Command = NotIssued | Outstanding | Applied | Lost

  datatype Request = Get(id: UserId) | Update(id: UserId, profile: Profile) | Delete(id: UserId) | Create(user: User)

  datatype Outcome =
    | Served(user: User, at: Time)     // from the cache
    | Loaded(user: User)               // from the repository
    | Stored(user: User)
    | Deleted
    | NotFound
    | Failed

  datatype Phase =
    | Begun
    | Missed                           // get: not in the cache, or the cache failed
    | Writing                          // the cache set is awaited
    | Invalidating                     // the cache delete is awaited
    | Done(outcome: Outcome)

  /** A call with its cache commands; `sample` is the repository value it is about to cache. */
  datatype Call = Call(request: Request, started: Time, phase: Phase, sample: Option<(User, Time)>, set_: Command,
          delete_: Command)

  datatype State = State(
    now: Time,
    users: Repository,
    cache: map<UserId, Entry>,
    calls: map<CallId, Call>,
    log: seq<Version>)

  /** A repository write may commit although its call reports a failure. */
  datatype WriteOutcome = Succeeds | FailsBefore | FailsAfter

  datatype Event =
    | Tick(ticks: nat)
    | Begin(c: CallId, request: Request)
    | ReadCache(c: CallId, works: bool)
    | ReadRow(c: CallId, works: bool)
    | WriteRow(c: CallId, outcome: WriteOutcome)
    | ApplySet(c: CallId)
    | LoseSet(c: CallId)
    | ApplyDelete(c: CallId)
    | LoseDelete(c: CallId)
    | Reply(c: CallId, ok: bool)

  function IdOf(r: Request): UserId {
    if r.Create? then r.user.id else r.id
  }

  /** SETEX: readable until its time to live has passed. */
  predicate Live(e: Entry, now: Time, cfg: Settings) {
    now < e.writtenAt + cfg.ttl
  }

  predicate Settled(c: Call) {
    c.phase.Done? && !c.set_.Outstanding? && !c.delete_.Outstanding?
  }

  predicate Possible(cfg: Settings, s: State, e: Event) {
    match e
    case Tick(ticks) => forall c | c in s.calls ::
        Settled(s.calls[c])
        || s.now + ticks <= s.calls[c].started + cfg.longest
    case Begin(c, _) => c !in s.calls
    case ReadCache(c, _) => c in s.calls && s.calls[c].phase.Begun? && s.calls[c].request.Get?
    case ReadRow(c, _) => c in s.calls && s.calls[c].phase.Missed?
    case WriteRow(c, _) => c in s.calls && s.calls[c].phase.Begun? && !s.calls[c].request.Get?
    case ApplySet(c) => c in s.calls && s.calls[c].set_.Outstanding? && s.calls[c].sample.Some?
    case LoseSet(c) => c in s.calls && s.calls[c].set_.Outstanding?
    case ApplyDelete(c) => c in s.calls && s.calls[c].delete_.Outstanding?
    case LoseDelete(c) => c in s.calls && s.calls[c].delete_.Outstanding?
    case Reply(c, ok) =>
      && c in s.calls && (s.calls[c].phase.Writing? || s.calls[c].phase.Invalidating?)
      && (ok ==> if s.calls[c].phase.Writing? then s.calls[c].set_.Applied? else s.calls[c].delete_.Applied?)
  }

  /** The call awaits its cache set of a value it read from or wrote to the repository now. */
  function Caching(c: Call, user: User, now: Time): Call {
    c.(phase := Writing, sample := Some((user, now)), set_ := Outstanding)
  }

  /** The users after a successful write, if the request can succeed. */
  function Written(s: State, r: Request): Option<Repository>
    requires !r.Get?
  {
    match r
    case Update(id, profile) => if id in s.users
        then Some(s.users[id := s.users[id].(profile := profile, updatedAt := s.now)]) else None
    case Delete(id) => if id in s.users then Some(s.users - {id}) else None
    case Create(user) => if user.id !in s.users then Some(s.users[user.id := user]) else None
  }

  function AfterReply(c: Call, ok: bool): Call
    requires c.phase.Writing? || c.phase.Invalidating?
  {
    if c.phase.Writing? && c.request.Update? && !ok then c.(phase := Invalidating, delete_ := Outstanding)
    else c.(phase := Done(match c.request
                          case Get(_) => if c.sample.Some? then Loaded(c.sample.value.0) else Failed
                          case Delete(_) => Deleted
                          case _ => if c.sample.Some? then Stored(c.sample.value.0) else Failed))
  }

  function Do(cfg: Settings, s: State, e: Event): State
    requires Possible(cfg, s, e)
  {
    match e
    case Tick(ticks) => s.(now := s.now + ticks)
    case Begin(c, request) => s.(calls := s.calls[c := Call(request, s.now, Begun, None, NotIssued, NotIssued)])
    case ReadCache(c, works) =>
      var id := IdOf(s.calls[c].request);
      if works && id in s.cache && Live(s.cache[id], s.now, cfg)
      then s.(calls := s.calls[c := s.calls[c].(phase := Done(Served(s.cache[id].user, s.now)))])
      else s.(calls := s.calls[c := s.calls[c].(phase := Missed)])
    case ReadRow(c, works) =>
      var id := IdOf(s.calls[c].request);
      s.(calls := s.calls[c := if works && id in s.users then Caching(s.calls[c], s.users[id], s.now)
                               else s.calls[c].(phase := Done(if works then NotFound else Failed))])
    case WriteRow(c, outcome) =>
      var call := s.calls[c];
      var id := IdOf(call.request);
      var written := Written(s, call.request);
      if outcome != FailsBefore && written.Some? then
        s.(users := written.value, log := s.log + [Version(s.now, written.value)],
           calls := s.calls[c := if outcome == FailsAfter then call.(phase := Done(Failed))
                                 else if id in written.value then Caching(call, written.value[id], s.now)
                                 else call.(phase := Invalidating, delete_ := Outstanding)])
      else
        s.(calls := s.calls[c := call.(phase := Done(if outcome == Succeeds
            && !call.request.Create? then NotFound else Failed))])
    case ApplySet(c) =>
      var (user, at) := s.calls[c].sample.value;
      s.(cache := s.cache[user.id := Entry(user, s.now, at)], calls := s.calls[c := s.calls[c].(set_ := Applied)])
    case LoseSet(c) => s.(calls := s.calls[c := s.calls[c].(set_ := Lost)])
    case ApplyDelete(c) =>
      s.(cache := s.cache - {IdOf(s.calls[c].request)}, calls := s.calls[c := s.calls[c].(delete_ := Applied)])
    case LoseDelete(c) => s.(calls := s.calls[c := s.calls[c].(delete_ := Lost)])
    case Reply(c, ok) => s.(calls := s.calls[c := AfterReply(s.calls[c], ok)])
  }

  ghost predicate Initial(s: State) {
    s.cache == map[] && s.calls == map[] && s.log == [Version(s.now, s.users)] && Keyed(s.users)
  }

  // ---------------------------------------------------------------- invariant

  /** The repository held this user at time `at`, in its k-th version. */
  ghost predicate HeldIn(log: seq<Version>, k: nat, user: User, at: Time) {
    && k < |log| && log[k].at <= at && (k + 1 < |log| ==> at <= log[k + 1].at)
    && user.id in log[k].users && log[k].users[user.id] == user
  }

  ghost predicate Held(log: seq<Version>, user: User, at: Time) {
    exists k: nat :: HeldIn(log, k, user, at)
  }

  ghost predicate EntryOk(cfg: Settings, s: State, id: UserId)
    requires id in s.cache
  {
    var e := s.cache[id];
    && e.user.id == id && Held(s.log, e.user, e.sampledAt)
    && e.sampledAt <= e.writtenAt <= s.now && e.writtenAt - e.sampledAt <= cfg.longest
  }

  /** A user served from the cache was held no longer ago than the bound when it was served. */
  ghost predicate ServedOk(cfg: Settings, log: seq<Version>, user: User, at: Time) {
    exists sampledAt :: Held(log, user, sampledAt) && sampledAt <= at < sampledAt + cfg.ttl + cfg.longest
  }

  ghost predicate CallOk(cfg: Settings, s: State, c: CallId)
    requires c in s.calls
  {
    var call := s.calls[c];
    && call.started <= s.now
    && (!Settled(call) ==> s.now <= call.started + cfg.longest)
    && (call.sample.Some? ==>
        Held(s.log, call.sample.value.0, call.sample.value.1)
        && call.started <= call.sample.value.1 <= s.now)
    && (call.phase.Done? && call.phase.outcome.Served? ==>
          ServedOk(cfg, s.log, call.phase.outcome.user, call.phase.outcome.at)
          && call.phase.outcome.user.id == IdOf(call.request) && call.phase.outcome.at <= s.now)
  }

  ghost predicate Inv(cfg: Settings, s: State) {
    && Keyed(s.users)
    && |s.log| > 0 && s.log[|s.log| - 1].users == s.users && s.log[|s.log| - 1].at <= s.now
    && (forall k | 0 < k < |s.log| :: s.log[k - 1].at <= s.log[k].at)
    && (forall id | id in s.cache :: EntryOk(cfg, s, id))
    && (forall c | c in s.calls :: CallOk(cfg, s, c))
  }

  lemma HeldPersists(log: seq<Version>, v: Version, user: User, at: Time)
    requires Held(log, user, at) && at <= v.at
    ensures Held(log + [v], user, at)
  {
    var k: nat :| HeldIn(log, k, user, at);
    assert HeldIn(log + [v], k, user, at);
  }

  lemma CurrentUsersAreHeld(log: seq<Version>, user: User, at: Time)
    requires |log| > 0 && log[|log| - 1].at <= at
    requires user.id in log[|log| - 1].users && log[|log| - 1].users[user.id] == user
    ensures Held(log, user, at)
  {
    assert HeldIn(log, |log| - 1, user, at);
  }

  /** What was all right stays so when the log grows or time passes within the bound. */
  lemma EntriesStayOk(cfg: Settings, s: State, s': State, id: UserId)
    requires id in s.cache && EntryOk(cfg, s, id) && s.now <= s'.now && id in s'.cache && s'.cache[id] == s.cache[id]
    requires s'.log == s.log || exists v :: s'.log == s.log + [v] && v.at == s.now
    ensures EntryOk(cfg, s', id)
  {
    if s'.log != s.log {
      HeldPersists(s.log, s'.log[|s.log|], s.cache[id].user, s.cache[id].sampledAt);
    }
  }

  lemma CallsStayOk(cfg: Settings, s: State, s': State, c: CallId)
    requires c in s.calls && CallOk(cfg, s, c) && s.now <= s'.now && c in s'.calls && s'.calls[c] == s.calls[c]
    requires !Settled(s.calls[c]) ==> s'.now <= s.calls[c].started + cfg.longest
    requires s'.log == s.log || exists v :: s'.log == s.log + [v] && v.at == s.now
    ensures CallOk(cfg, s', c)
  {
    var call := s.calls[c];
    if s'.log != s.log {
      var v := s'.log[|s.log|];
      if call.sample.Some? {
        HeldPersists(s.log, v, call.sample.value.0, call.sample.value.1);
      }
      if call.phase.Done? && call.phase.outcome.Served? {
        var sampledAt :| Held(s.log, call.phase.outcome.user, sampledAt)
            && sampledAt <= call.phase.outcome.at < sampledAt + cfg.ttl + cfg.longest;
        HeldPersists(s.log, v, call.phase.outcome.user, sampledAt);
      }
    }
  }

  lemma TheCallItself(cfg: Settings, s: State, e: Event)
    requires Inv(cfg, s) && Possible(cfg, s, e) && !e.Tick? && !e.Begin?
    ensures CallOk(cfg, Do(cfg, s, e), e.c)
  {
    var s', call := Do(cfg, s, e), s.calls[e.c];
    var id := IdOf(call.request);
    assert CallOk(cfg, s, e.c);
    match e {
      case ReadCache(c, works) =>
        if works && id in s.cache && Live(s.cache[id], s.now, cfg) {
          assert EntryOk(cfg, s, id);
          assert ServedOk(cfg, s.log, s.cache[id].user, s.now) by {
            assert Held(s.log, s.cache[id].user, s.cache[id].sampledAt);
          }
        }
      case ReadRow(c, works) =>
        if id in s.users {
          CurrentUsersAreHeld(s.log, s.users[id], s.now);
        }
      case WriteRow(c, outcome) =>
        WritersStayOk(cfg, s, c, outcome);
      case _ =>
    }
  }

  lemma WritersStayOk(cfg: Settings, s: State, c: CallId, outcome: WriteOutcome)
    requires Inv(cfg, s) && Possible(cfg, s, WriteRow(c, outcome))
    ensures CallOk(cfg, Do(cfg, s, WriteRow(c, outcome)), c)
  {
    var s', call := Do(cfg, s, WriteRow(c, outcome)), s.calls[c];
    var id := IdOf(call.request);
    assert CallOk(cfg, s, c);
    if s'.log != s.log {
      if call.sample.Some? {
        HeldPersists(s.log, s'.log[|s.log|], call.sample.value.0, call.sample.value.1);
      }
      if id in s'.users {
        CurrentUsersAreHeld(s'.log, s'.users[id], s.now);
      }
    }
  }

  lemma EntriesStayOkOrAreWritten(cfg: Settings, s: State, e: Event)
    requires Inv(cfg, s) && Possible(cfg, s, e)
    ensures var s' := Do(cfg, s, e); forall id | id in s'.cache :: EntryOk(cfg, s', id)
  {
    hide EntryOk, CallOk, Held, Settled;
    var s' := Do(cfg, s, e);
    forall id | id in s'.cache ensures EntryOk(cfg, s', id) {
      if id in s.cache && s'.cache[id] == s.cache[id] {
        EntriesStayOk(cfg, s, s', id);
      } else {
        WrittenEntriesAreOk(cfg, s, e, id);
      }
    }
  }

  lemma OtherCallsStayOk(cfg: Settings, s: State, e: Event, c: CallId)
    requires Inv(cfg, s) && Possible(cfg, s, e) && c in s.calls && (e.Tick? || e.c != c)
    ensures c in Do(cfg, s, e).calls && CallOk(cfg, Do(cfg, s, e), c)
  {
    if !Settled(s.calls[c]) {
      UnsettledCallsAreYoung(cfg, s, e, c);
    }
    hide EntryOk, CallOk, Held, Settled;
    CallsStayOk(cfg, s, Do(cfg, s, e), c);
  }

  /** Every step keeps the invariant. */
  lemma EventsKeepInv(cfg: Settings, s: State, e: Event)
    requires Inv(cfg, s) && Possible(cfg, s, e)
    ensures Inv(cfg, Do(cfg, s, e))
  {
    hide EntryOk, CallOk, Held, Settled;
    var s' := Do(cfg, s, e);
    EntriesStayOkOrAreWritten(cfg, s, e);
    forall c | c in s'.calls ensures CallOk(cfg, s', c) {
      if c in s.calls && (e.Tick? || e.c != c) {
        OtherCallsStayOk(cfg, s, e, c);
      } else if e.Begin? {
        NewCallsAreOk(cfg, s, e);
      } else {
        TheCallItself(cfg, s, e);
      }
    }
  }

  lemma UnsettledCallsAreYoung(cfg: Settings, s: State, e: Event, c: CallId)
    requires Inv(cfg, s) && Possible(cfg, s, e) && c in s.calls && !Settled(s.calls[c])
    ensures Do(cfg, s, e).now <= s.calls[c].started + cfg.longest
  {
  }

  lemma NewCallsAreOk(cfg: Settings, s: State, e: Event)
    requires Inv(cfg, s) && Possible(cfg, s, e) && e.Begin?
    ensures CallOk(cfg, Do(cfg, s, e), e.c)
  {
  }

  /** What a call writes to the cache it sampled since it started. */
  lemma WrittenEntriesAreOk(cfg: Settings, s: State, e: Event, id: UserId)
    requires Inv(cfg, s) && Possible(cfg, s, e)
    requires id in Do(cfg, s, e).cache && (id !in s.cache || Do(cfg, s, e).cache[id] != s.cache[id])
    ensures EntryOk(cfg, Do(cfg, s, e), id)
  {
  }

  // ---------------------------------------------------------------- runs

  ghost predicate Plays(cfg: Settings, s: State, events: seq<Event>)
    decreases events
  {
    events == [] || (Possible(cfg, s, events[0]) && Plays(cfg, Do(cfg, s, events[0]), events[1..]))
  }

  ghost function End(cfg: Settings, s: State, events: seq<Event>): State
    requires Plays(cfg, s, events)
    decreases events
  {
    if events == [] then s else End(cfg, Do(cfg, s, events[0]), events[1..])
  }

  lemma {:induction false} RunsKeepInv(cfg: Settings, s: State, events: seq<Event>)
    requires Inv(cfg, s) && Plays(cfg, s, events)
    ensures Inv(cfg, End(cfg, s, events))
    decreases events
  {
    hide Inv, Possible, Do;
    if events != [] {
      EventsKeepInv(cfg, s, events[0]);
      RunsKeepInv(cfg, Do(cfg, s, events[0]), events[1..]);
    }
  }

  // ---------------------------------------------------------------- what the history stands for

  /** After some first events of the run the repository held `users` at time `at`. */
  ghost predicate Was(cfg: Settings, s: State, events: seq<Event>, users: Repository, at: Time) {
    exists k: nat :: k <= |events| && Plays(cfg, s, events[..k]) && End(cfg, s, events[..k]).users == users
        && End(cfg, s, events[..k]).now == at
  }

  lemma WasLater(cfg: Settings, s: State, events: seq<Event>, users: Repository, at: Time)
    requires events != [] && Possible(cfg, s, events[0]) && Was(cfg, Do(cfg, s, events[0]), events[1..], users, at)
    ensures Was(cfg, s, events, users, at)
  {
    hide Possible, Do;
    var s1 := Do(cfg, s, events[0]);
    var k: nat :| k <= |events[1..]| && Plays(cfg, s1, events[1..][..k])
                  && End(cfg, s1, events[1..][..k]).users == users && End(cfg, s1, events[1..][..k]).now == at;
    var first := events[..k + 1];
    assert first[0] == events[0] && first[1..] == events[1..][..k];
    assert Plays(cfg, s, first) && End(cfg, s, first) == End(cfg, s1, first[1..]);
  }

  lemma EventsExtendTheLog(cfg: Settings, s: State, e: Event)
    requires Inv(cfg, s) && Possible(cfg, s, e)
    ensures var s' := Do(cfg, s, e);
            s.now <= s'.now && (s'.log == s.log || (s'.now == s.now && s'.log == s.log + [Version(s.now, s'.users)]))
  {
  }

  /** The log only grows, and every version in it was the repository of the run at that version's time. */
  lemma {:induction false} VersionsAreReal(cfg: Settings, s: State, events: seq<Event>)
    requires Inv(cfg, s) && Plays(cfg, s, events)
    ensures var log := End(cfg, s, events).log;
            && s.log <= log && (forall i | |s.log| <= i < |log| ::
                Was(cfg, s, events, log[i].users, log[i].at)
                && s.now <= log[i].at)
    decreases events
  {
    hide Inv, Possible, Do, Was;
    if events != [] {
      var e := events[0];
      var s1 := Do(cfg, s, e);
      EventsKeepInv(cfg, s, e);
      EventsExtendTheLog(cfg, s, e);
      VersionsAreReal(cfg, s1, events[1..]);
      var log := End(cfg, s, events).log;
      forall i | |s.log| <= i < |log| ensures Was(cfg, s, events, log[i].users, log[i].at) && s.now <= log[i].at {
        assert Was(cfg, s1, events[1..], s1.users, s1.now) by {
          RunsStartWhereTheyAre(cfg, s1, events[1..]);
        }
        WasLater(cfg, s, events, log[i].users, log[i].at);
      }
    }
  }

  lemma RunsStartWhereTheyAre(cfg: Settings, s: State, events: seq<Event>)
    ensures Was(cfg, s, events, s.users, s.now)
  {
    assert events[..0] == [];
    assert Plays(cfg, s, events[..0]) && End(cfg, s, events[..0]) == s;
  }

  /** Whatever the repository holds at some point of a run is recorded as held then. */
  lemma RepositoryIsRecorded(cfg: Settings, s: State, events: seq<Event>, id: UserId)
    requires Inv(cfg, s) && Plays(cfg, s, events) && id in s.users
    ensures Held(End(cfg, s, events).log, s.users[id], s.now)
  {
    VersionsAreReal(cfg, s, events);
    var log := End(cfg, s, events).log;
    assert log[|s.log| - 1] == s.log[|s.log| - 1];
    assert HeldIn(log, |s.log| - 1, s.users[id], s.now);
  }

  /** When a call read the cache, read off the events alone. */
  function ReadsIn(events: seq<Event>, now: Time): set<(CallId, Time)> {
    if events == [] then {}
    else
      (if events[0].ReadCache? then {(events[0].c, now)} else {})
      + ReadsIn(events[1..], if events[0].Tick? then now + events[0].ticks else now)
  }

  ghost predicate ServedAt(s: State, c: CallId, at: Time) {
    c in s.calls && s.calls[c].phase.Done? && s.calls[c].phase.outcome.Served? && s.calls[c].phase.outcome.at == at
  }

  lemma ServingIsReading(cfg: Settings, s: State, e: Event, c: CallId, at: Time)
    requires Possible(cfg, s, e) && ServedAt(Do(cfg, s, e), c, at)
    ensures ServedAt(s, c, at) || (e.ReadCache? && e.c == c && at == s.now)
  {
  }

  lemma ClocksFollowEvents(cfg: Settings, s: State, e: Event)
    requires Possible(cfg, s, e)
    ensures Do(cfg, s, e).now == if e.Tick? then s.now + e.ticks else s.now
  {
  }

  lemma {:induction false} ServedTimesAreReal(cfg: Settings, s: State, events: seq<Event>, c: CallId, at: Time)
    requires Plays(cfg, s, events) && ServedAt(End(cfg, s, events), c, at)
    ensures ServedAt(s, c, at) || (c, at) in ReadsIn(events, s.now)
    decreases events
  {
    hide Possible, Do, ServedAt;
    if events != [] {
      ClocksFollowEvents(cfg, s, events[0]);
      ServedTimesAreReal(cfg, Do(cfg, s, events[0]), events[1..], c, at);
      if ServedAt(Do(cfg, s, events[0]), c, at) {
        ServingIsReading(cfg, s, events[0], c, at);
      }
    }
  }

  // ---------------------------------------------------------------- main results

  /**
   Bounded staleness. Whatever fails, is delayed or interleaves, a user that `get` took from the cache is one
   the repository held for that id less than the time to live plus the longest call ago.
   */
  lemma CachedReadsAreBoundedStale(cfg: Settings, s0: State, events: seq<Event>, c: CallId)
    requires Initial(s0) && Plays(cfg, s0, events)
    ensures var s := End(cfg, s0, events);
            c in s.calls && s.calls[c].phase.Done? && s.calls[c].phase.outcome.Served? ==>
              var user, at := s.calls[c].phase.outcome.user, s.calls[c].phase.outcome.at;
              && user.id == IdOf(s.calls[c].request) && (c, at) in ReadsIn(events, s0.now)
              && exists sampledAt :: Held(s.log, user, sampledAt) && sampledAt <= at < sampledAt + cfg.ttl + cfg.longest
  {
    RunsKeepInv(cfg, s0, events);
    var s := End(cfg, s0, events);
    if c in s.calls {
      assert CallOk(cfg, s, c);
    }
    if c in s.calls && s.calls[c].phase.Done? && s.calls[c].phase.outcome.Served? {
      ServedTimesAreReal(cfg, s0, events, c, s.calls[c].phase.outcome.at);
    }
    hide Inv, Held;
  }

  lemma {:induction false} VersionsAreInOrder(log: seq<Version>, i: nat, j: nat)
    requires forall k | 0 < k < |log| :: log[k - 1].at <= log[k].at
    requires i <= j < |log|
    ensures log[i].at <= log[j].at
  {
    if i < j {
      VersionsAreInOrder(log, i, j - 1);
    }
  }

  /** A deleted user that is not created again is served from the cache for less than that bound after the deletion. */
  lemma DeletedUsersAreForgotten(cfg: Settings, s0: State, events: seq<Event>, c: CallId, m: nat)
    requires Initial(s0) && Plays(cfg, s0, events)
    requires var s := End(cfg, s0, events);
             && c in s.calls && s.calls[c].phase.Done? && s.calls[c].phase.outcome.Served?
             && m < |s.log| && forall k | m <= k < |s.log| :: s.calls[c].phase.outcome.user.id !in s.log[k].users
    ensures var s := End(cfg, s0, events);
            s.calls[c].phase.outcome.at < s.log[m].at + cfg.ttl + cfg.longest
  {
    RunsKeepInv(cfg, s0, events);
    var s := End(cfg, s0, events);
    CachedReadsAreBoundedStale(cfg, s0, events, c);
    var user, at := s.calls[c].phase.outcome.user, s.calls[c].phase.outcome.at;
    var sampledAt :| Held(s.log, user, sampledAt) && sampledAt <= at < sampledAt + cfg.ttl + cfg.longest;
    var k: nat :| HeldIn(s.log, k, user, sampledAt);
    VersionsAreInOrder(s.log, k + 1, m);
  }

  // ---------------------------------------------------------------- what the answers say

  /** The repository lacked this id at time `at`, in its k-th version. */
  ghost predicate LackedIn(log: seq<Version>, k: nat, id: UserId, at: Time) {
    k < |log| && log[k].at <= at && (k + 1 < |log| ==> at <= log[k + 1].at) && id !in log[k].users
  }

  ghost predicate Lacked(log: seq<Version>, id: UserId, since: Time, until: Time) {
    exists k: nat, at: Time :: since <= at <= until && LackedIn(log, k, id, at)
  }

  lemma LackedPersists(log: seq<Version>, v: Version, id: UserId, since: Time, until: Time)
    requires Lacked(log, id, since, until) && until <= v.at
    ensures Lacked(log + [v], id, since, until)
  {
    var k: nat, at: Time :| since <= at <= until && LackedIn(log, k, id, at);
    assert LackedIn(log + [v], k, id, at);
  }

  lemma LackedLater(log: seq<Version>, id: UserId, since: Time, until: Time, later: Time)
    requires Lacked(log, id, since, until) && until <= later
    ensures Lacked(log, id, since, later)
  {
    var k: nat, at: Time :| since <= at <= until && LackedIn(log, k, id, at);
  }

  lemma LackedNow(log: seq<Version>, id: UserId, since: Time, now: Time)
    requires |log| > 0 && log[|log| - 1].at <= now && id !in log[|log| - 1].users && since <= now
    ensures Lacked(log, id, since, now)
  {
    assert LackedIn(log, |log| - 1, id, now);
  }

  /** The value a call is about to cache or to answer is the one it asked for. */
  ghost predicate Fitting(r: Request, user: User) {
    match r
    case Get(id) => user.id == id
    case Update(id, profile) => user.id == id && user.profile == profile
    case Delete(_) => false
    case Create(created) => user == created
  }

  ghost predicate CallTrue(s: State, c: CallId)
    requires c in s.calls
  {
    var call := s.calls[c];
    && call.started <= s.now
    && (call.sample.Some? ==> Fitting(call.request, call.sample.value.0))
    && (call.phase.Missed? ==> call.request.Get?)
    && (call.phase.Writing? ==> call.sample.Some?)
    && (call.phase.Invalidating? ==>
          call.sample.Some? || (call.request.Delete? && Lacked(s.log, IdOf(call.request), call.started, s.now)))
    && (call.phase.Done? ==>
          match call.phase.outcome
          case Loaded(user) => call.request.Get? && call.sample.Some? && call.sample.value.0 == user
          case Stored(user) => !call.request.Get? && call.sample.Some? && call.sample.value.0 == user
          case Deleted => call.request.Delete? && Lacked(s.log, IdOf(call.request), call.started, s.now)
          case NotFound => !call.request.Create? && Lacked(s.log, IdOf(call.request), call.started, s.now)
          case _ => true)
  }

  lemma TruthPersists(cfg: Settings, s: State, s': State, c: CallId)
    requires c in s.calls && CallTrue(s, c) && s.now <= s'.now && c in s'.calls && s'.calls[c] == s.calls[c]
    requires s'.log == s.log || exists v :: s'.log == s.log + [v] && v.at == s.now
    ensures CallTrue(s', c)
  {
    hide Fitting, Lacked;
    var call := s.calls[c];
    var id := IdOf(call.request);
    if Lacked(s.log, id, call.started, s.now) {
      if s'.log != s.log {
        LackedPersists(s.log, s'.log[|s.log|], id, call.started, s.now);
      }
      LackedLater(s'.log, id, call.started, s.now, s'.now);
    }
  }

  lemma MissingRowsAreLacked(cfg: Settings, s: State, id: UserId, since: Time)
    requires Inv(cfg, s) && id !in s.users && since <= s.now
    ensures Lacked(s.log, id, since, s.now)
  {
    LackedNow(s.log, id, since, s.now);
  }

  lemma WritesFit(s: State, r: Request)
    requires Keyed(s.users) && !r.Get? && Written(s, r).Some?
    ensures if r.Delete? then IdOf(r) !in Written(s, r).value
            else IdOf(r) in Written(s, r).value && Fitting(r, Written(s, r).value[IdOf(r)])
  {
  }

  lemma RowWritesAreTrue(cfg: Settings, s: State, e: Event)
    requires Inv(cfg, s) && Possible(cfg, s, e) && e.WriteRow? && CallTrue(s, e.c)
    ensures CallTrue(Do(cfg, s, e), e.c)
  {
    var s', r := Do(cfg, s, e), s.calls[e.c].request;
    EventsKeepInv(cfg, s, e);
    assert Keyed(s.users);
    if IdOf(r) !in s'.users {
      MissingRowsAreLacked(cfg, s', IdOf(r), s.calls[e.c].started);
    }
    if Written(s, r).Some? {
      WritesFit(s, r);
    }
    assert Written(s, r).None? && !r.Create? ==> IdOf(r) !in s.users;
    hide Inv, Lacked, Written, Fitting, Keyed;
  }

  lemma RowReadsAreTrue(cfg: Settings, s: State, e: Event)
    requires Inv(cfg, s) && Possible(cfg, s, e) && e.ReadRow? && CallTrue(s, e.c)
    ensures CallTrue(Do(cfg, s, e), e.c)
  {
    var id := IdOf(s.calls[e.c].request);
    assert Keyed(s.users);
    if id !in s.users {
      MissingRowsAreLacked(cfg, s, id, s.calls[e.c].started);
    }
    hide Inv, Lacked;
  }

  lemma CacheStepsAreTrue(cfg: Settings, s: State, e: Event)
    requires Possible(cfg, s, e) && !e.Tick? && !e.Begin? && !e.WriteRow? && !e.ReadRow? && CallTrue(s, e.c)
    ensures CallTrue(Do(cfg, s, e), e.c)
  {
    hide Lacked, Live;
  }

  lemma EventsKeepTruth(cfg: Settings, s: State, e: Event)
    requires Inv(cfg, s) && Possible(cfg, s, e) && forall c | c in s.calls :: CallTrue(s, c)
    ensures forall c | c in Do(cfg, s, e).calls :: CallTrue(Do(cfg, s, e), c)
  {
    hide CallTrue, Inv;
    var s' := Do(cfg, s, e);
    forall c | c in s'.calls ensures CallTrue(s', c) {
      if c in s.calls && (e.Tick? || e.c != c) {
        TruthPersists(cfg, s, s', c);
      } else if e.Begin? {
        NewCallsAreTrue(cfg, s, e);
      } else if e.WriteRow? {
        RowWritesAreTrue(cfg, s, e);
      } else if e.ReadRow? {
        RowReadsAreTrue(cfg, s, e);
      } else {
        CacheStepsAreTrue(cfg, s, e);
      }
    }
  }

  lemma NewCallsAreTrue(cfg: Settings, s: State, e: Event)
    requires Possible(cfg, s, e) && e.Begin?
    ensures CallTrue(Do(cfg, s, e), e.c)
  {
  }

  lemma {:induction false} RunsKeepTruth(cfg: Settings, s: State, events: seq<Event>)
    requires Inv(cfg, s) && Plays(cfg, s, events) && forall c | c in s.calls :: CallTrue(s, c)
    ensures Inv(cfg, End(cfg, s, events))
    ensures forall c | c in End(cfg, s, events).calls :: CallTrue(End(cfg, s, events), c)
    decreases events
  {
    hide Inv, Possible, Do, CallTrue;
    if events != [] {
      EventsKeepInv(cfg, s, events[0]);
      EventsKeepTruth(cfg, s, events[0]);
      RunsKeepTruth(cfg, Do(cfg, s, events[0]), events[1..]);
    }
  }

  /**
   Answers are true. A user that get loads is one the repository held during the call; what create and update return
   is the user asked for, as the repository held it during the call; and after a delete, or when a user is not found,
   the repository lacked the id at some time during the call.
   */
  lemma AnswersAreTrue(cfg: Settings, s0: State, events: seq<Event>, c: CallId)
    requires Initial(s0) && Plays(cfg, s0, events)
    ensures var s := End(cfg, s0, events);
            c in s.calls && s.calls[c].phase.Done? ==>
              var call := s.calls[c];
              match call.phase.outcome
              case Loaded(user) =>
                && call.request.Get? && user.id == call.request.id
                && exists at :: Held(s.log, user, at) && call.started <= at <= s.now
              case Stored(user) =>
                && (call.request.Create? ==> user == call.request.user)
                && (call.request.Update? ==> user.id == call.request.id && user.profile == call.request.profile)
                && exists at :: Held(s.log, user, at) && call.started <= at <= s.now
              case Deleted => call.request.Delete? && Lacked(s.log, call.request.id, call.started, s.now)
              case NotFound => !call.request.Create? && Lacked(s.log, call.request.id, call.started, s.now)
              case _ => true
  {
    RunsKeepTruth(cfg, s0, events);
    var s := End(cfg, s0, events);
    if c in s.calls {
      assert CallOk(cfg, s, c) && CallTrue(s, c);
    }
    hide Inv, Held, Lacked, Plays, End, Initial;
  }

  /** A read that the cache answers serves a live entry, and a live entry is served. */
  lemma LiveEntriesAreServed(cfg: Settings, s: State, c: CallId, works: bool)
    requires Possible(cfg, s, ReadCache(c, works))
    ensures var id, phase := s.calls[c].request.id, Do(cfg, s, ReadCache(c, works)).calls[c].phase;
            if works && id in s.cache && s.now < s.cache[id].writtenAt + cfg.ttl
            then phase == Done(Served(s.cache[id].user, s.now))
            else phase == Missed
  {
  }
}
