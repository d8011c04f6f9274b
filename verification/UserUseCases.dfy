/**
 The user use cases as they run one after another: the repository and the cache are updated in place, and
 every cache command may fail before or after it took effect. As long as the cache stays a faithful part of
 the repository, `get` is a plain lookup; what each call needs for that is stated before the call.
 */
module UserUseCases {
  import opened Wrappers
  import opened Users
  import JobTable
  import JobQueue

  datatype Entry = Entry(user: User, expiresAt: Time)

  datatype ApplicationError = Invalid | Missing | Duplicate | Down

  /** How a call to the repository or the cache goes. */
  datatype Fault = Works | FailsBefore | FailsAfter

  type Cache = map<UserId, Entry>

  datatype Settings = Settings(ttl: nat, jobMaxAttempts: nat)

  predicate Live(cache: Cache, id: UserId, now: Time) {
    id in cache && now < cache[id].expiresAt
  }

  /** Whatever the cache would still serve is what the repository holds. */
  ghost predicate Coherent(users: Repository, cache: Cache, now: Time) {
    forall id :: Live(cache, id, now) ==> id in users && users[id] == cache[id].user
  }

  /** Entries only expire as time passes. */
  lemma CoherenceSurvivesTime(users: Repository, cache: Cache, now: Time, later: Time)
    requires Coherent(users, cache, now) && now <= later
    ensures Coherent(users, cache, later)
  {
  }

  /** Who else uses this e-mail address; the address is unique among users. */
  function OthersWithEmail(users: Repository, email: string, self: UserId): set<UserId> {
    set id | id in users && id != self && users[id].profile.email == email
  }

  // ---------------------------------------------------------------- one call as a function

  /** A call with the faults it meets. A delete is answered without a user. */
  datatype Request =
    | Get(id: UserId, cacheRead: Fault, repository: Fault, cacheWrite: Fault)
    | Create(id: UserId, input: Option<Profile>, repository: Fault, cacheWrite: Fault)
    | Update(id: UserId, input: Option<Profile>, repository: Fault, cacheWrite: Fault, cacheDrop: Fault)
    | Delete(id: UserId, repository: Fault, cacheDrop: Fault)

  datatype Call = Call(now: Time, request: Request)

  type Answer = Result<Option<User>, ApplicationError>

  datatype Store = Store(users: Repository, cache: Cache, jobs: seq<UserId>)

  function Lifted(r: Result<User, ApplicationError>): Answer {
    match r case Ok(user) => Ok(Some(user)) case Err(e) => Err(e)
  }

  /** The service without any cache: what a call answers, and the users it leaves. */
  function Plain(cfg: Settings, users: Repository, c: Call): (Answer, Repository) {
    match c.request
    case Get(id, _, repository, _) =>
      (if repository != Works then Err(Down) else if id in users then Ok(Some(users[id])) else Err(Missing), users)
    case Create(id, input, repository, _) =>
      if input.None? then (Err(Invalid), users)
      else if !(1 <= cfg.jobMaxAttempts <= JobTable.I32_MAX) || repository == FailsBefore then (Err(Down), users)
      else if OthersWithEmail(users, input.value.email, id) != {} then
        (Err(if repository == Works then Duplicate else Down), users)
      else
        var user := User(id, input.value, c.now, c.now);
        (if repository == Works then Ok(Some(user)) else Err(Down), users[id := user])
    case Update(id, input, repository, _, _) =>
      if input.None? then (Err(Invalid), users)
      else if repository == FailsBefore then (Err(Down), users)
      else if id !in users || OthersWithEmail(users, input.value.email, id) != {} then
        (Err(if repository != Works then Down else if id !in users then Missing else Duplicate), users)
      else
        var user := users[id].(profile := input.value, updatedAt := c.now);
        (if repository == Works then Ok(Some(user)) else Err(Down), users[id := user])
    case Delete(id, repository, _) =>
      if repository == FailsBefore then (Err(Down), users)
      else if id !in users then (Err(if repository == Works then Missing else Down), users)
      else (if repository == Works then Ok(None) else Err(Down), users - {id})
  }

  function AfterSet(cfg: Settings, cache: Cache, user: User, now: Time, fault: Fault): Cache {
    if fault == FailsBefore then cache else cache[user.id := Entry(user, now + cfg.ttl)]
  }

  function AfterDrop(cache: Cache, id: UserId, fault: Fault): Cache {
    if fault == FailsBefore then cache else cache - {id}
  }

  /** The same call with the cache. */
  function Step(cfg: Settings, s: Store, c: Call): (Answer, Store) {
    var (answer, users) := Plain(cfg, s.users, c);
    match c.request
    case Get(id, cacheRead, _, cacheWrite) =>
      if cacheRead == Works && Live(s.cache, id, c.now) then (Ok(Some(s.cache[id].user)), s)
      else if answer.Ok? && answer.value.Some?
          then (answer, s.(cache := AfterSet(cfg, s.cache, answer.value.value, c.now, cacheWrite)))
      else (answer, s)
    case Create(id, _, _, cacheWrite) =>
      var cache := if answer.Ok? && answer.value.Some?
          then AfterSet(cfg, s.cache, answer.value.value, c.now, cacheWrite) else s.cache;
      (answer, Store(users, cache, if users != s.users then s.jobs + [id] else s.jobs))
    case Update(id, _, _, cacheWrite, cacheDrop) =>
      if answer.Ok? && answer.value.Some? then
        var written := AfterSet(cfg, s.cache, answer.value.value, c.now, cacheWrite);
        (answer, s.(users := users,
                    cache := if cacheWrite == Works then written else AfterDrop(written, id, cacheDrop)))
      else (answer, s.(users := users))
    case Delete(id, _, cacheDrop) =>
      (answer, s.(users := users, cache := if answer.Ok? then AfterDrop(s.cache, id, cacheDrop) else s.cache))
  }

  /**
   What a call needs to keep the cache coherent, before the call: nothing for a get or a create. An update or a
   delete that will change the row needs a live entry of that row to be replaced or dropped.
   */
  predicate Keeps(s: Store, c: Call) {
    match c.request
    case Update(id, input, repository, cacheWrite, cacheDrop) =>
      || input.None? || repository == FailsBefore || id !in s.users
          || OthersWithEmail(s.users, input.value.email, id) != {}
      || (repository == Works && (cacheWrite != FailsBefore || cacheDrop != FailsBefore))
      || !Live(s.cache, id, c.now)
      || s.users[id] == s.users[id].(profile := input.value, updatedAt := c.now)
    case Delete(id, repository, cacheDrop) =>
      || repository == FailsBefore || id !in s.users
      || (repository == Works && cacheDrop != FailsBefore)
      || !Live(s.cache, id, c.now)
    case _ => true
  }

  /** Created users get fresh ids. */
  predicate FreshId(users: Repository, c: Call) {
    c.request.Create? ==> c.request.id !in users
  }

  lemma StepsKeepKeys(cfg: Settings, s: Store, c: Call)
    requires Keyed(s.users)
    ensures Keyed(Step(cfg, s, c).1.users) && Step(cfg, s, c).1.users == Plain(cfg, s.users, c).1
  {
  }

  /** One call can change users and cache only at its id. */
  lemma StepsAreLocal(cfg: Settings, s: Store, c: Call)
    requires Keyed(s.users)
    ensures var s' := Step(cfg, s, c).1;
            forall i :: i != c.request.id ==>
              && (i in s.users <==> i in s'.users) && (i in s.users ==> s'.users[i] == s.users[i])
              && (i in s.cache <==> i in s'.cache) && (i in s.cache ==> s'.cache[i] == s.cache[i])
  {
  }

  /** Exactly the calls that keep coherence. */
  lemma CoherenceIsKeptExactly(cfg: Settings, s: Store, c: Call)
    requires Keyed(s.users) && FreshId(s.users, c) && Coherent(s.users, s.cache, c.now)
    ensures Coherent(Step(cfg, s, c).1.users, Step(cfg, s, c).1.cache, c.now) <==> Keeps(s, c)
  {
    var s', id := Step(cfg, s, c).1, c.request.id;
    StepsAreLocal(cfg, s, c);
    assert Coherent(s'.users, s'.cache, c.now) <==>
        (Live(s'.cache, id, c.now) ==> id in s'.users && s'.users[id] == s'.cache[id].user) by {
      CoherenceIsLocal(s.users, s.cache, s'.users, s'.cache, c.now, id);
    }
    assert Live(s.cache, id, c.now) ==> id in s.users && s.users[id] == s.cache[id].user;
    hide Coherent;
  }

  /** A call that touches one id can lose coherence only at that id. */
  lemma CoherenceIsLocal(users: Repository, cache: Cache, users': Repository, cache': Cache, now: Time, id: UserId)
    requires forall i :: i != id ==> (i in users <==> i in users') && (i in users ==> users'[i] == users[i])
    requires forall i :: i != id ==> (i in cache <==> i in cache') && (i in cache ==> cache'[i] == cache[i])
    ensures Coherent(users, cache, now) ==>
              (Coherent(users', cache', now) <==>
                  (Live(cache', id, now) ==> id in users' && users'[id] == cache'[id].user))
  {
  }

  // ---------------------------------------------------------------- calls one after another

  ghost predicate InTimeOrder(since: Time, calls: seq<Call>)
    decreases calls
  {
    calls == [] || (since <= calls[0].now && InTimeOrder(calls[0].now, calls[1..]))
  }

  ghost predicate FreshIds(cfg: Settings, users: Repository, calls: seq<Call>)
    decreases calls
  {
    calls == [] || (FreshId(users, calls[0]) && FreshIds(cfg, Plain(cfg, users, calls[0]).1, calls[1..]))
  }

  /** The service with its cache, over a series of calls: all answers, and the final state. */
  function Serve(cfg: Settings, s: Store, calls: seq<Call>): (seq<Answer>, Store)
    decreases calls
  {
    if calls == [] then ([], s)
    else
      var (answer, s1) := Step(cfg, s, calls[0]);
      var (answers, end) := Serve(cfg, s1, calls[1..]);
      ([answer] + answers, end)
  }

  /** The service without a cache over the same calls; the repository just before each call comes along. */
  function PlainServe(cfg: Settings, users: Repository, calls: seq<Call>): (seq<(Answer, Repository)>, Repository)
    decreases calls
  {
    if calls == [] then ([], users)
    else
      var (answer, users1) := Plain(cfg, users, calls[0]);
      var (answers, end) := PlainServe(cfg, users1, calls[1..]);
      ([(answer, users)] + answers, end)
  }

  function LastTime(since: Time, calls: seq<Call>): Time
    decreases calls
  {
    if calls == [] then since else LastTime(calls[0].now, calls[1..])
  }

  /** Every call keeps coherence where it happens. */
  ghost predicate AllKeep(cfg: Settings, s: Store, calls: seq<Call>)
    decreases calls
  {
    calls == [] || (Keeps(s, calls[0]) && AllKeep(cfg, Step(cfg, s, calls[0]).1, calls[1..]))
  }

  /** The cached answer is the plain one, or, while the repository is down, the user it holds. */
  predicate Refines(c: Call, cached: Answer, plain: Answer, users: Repository) {
    cached == plain
    || (c.request.Get? && c.request.repository != Works && c.request.id in users
        && cached == Ok(Some(users[c.request.id])))
  }

  lemma AnswersRefine(cfg: Settings, s: Store, c: Call)
    requires Coherent(s.users, s.cache, c.now)
    ensures Refines(c, Step(cfg, s, c).0, Plain(cfg, s.users, c).0, s.users)
  {
    assert Live(s.cache, c.request.id, c.now) ==>
        c.request.id in s.users
        && s.users[c.request.id] == s.cache[c.request.id].user;
  }

  /**
   Sequential coherence. Over any series of calls that each keep it, the unexpired cache stays a part of the
   repository, the users are those of the service without a cache, and every answer refines that service's.
   */
  lemma {:induction false} CachedServiceRefinesPlain(cfg: Settings, s: Store, since: Time, calls: seq<Call>)
    requires Keyed(s.users) && Coherent(s.users, s.cache, since)
    requires InTimeOrder(since, calls) && FreshIds(cfg, s.users, calls) && AllKeep(cfg, s, calls)
    ensures var (answers, end) := Serve(cfg, s, calls);
            var (plain, users) := PlainServe(cfg, s.users, calls);
            && end.users == users && Coherent(end.users, end.cache, LastTime(since, calls))
            && |answers| == |plain| == |calls|
            && forall k | 0 <= k < |calls| :: Refines(calls[k], answers[k], plain[k].0, plain[k].1)
    decreases calls
  {
    hide Coherent, Keyed, Step, Plain, Keeps, FreshId, Refines;
    if calls != [] {
      var c := calls[0];
      var s1 := Step(cfg, s, c).1;
      CoherenceSurvivesTime(s.users, s.cache, since, c.now);
      CoherenceIsKeptExactly(cfg, s, c);
      StepsKeepKeys(cfg, s, c);
      AnswersRefine(cfg, s, c);
      CachedServiceRefinesPlain(cfg, s1, c.now, calls[1..]);
    }
  }

  /** Every write's cache command takes effect, and no repository write fails after it was committed. */
  predicate Confirmed(c: Call) {
    match c.request
    case Update(_, _, repository, cacheWrite, cacheDrop) => repository != FailsAfter
        && (cacheWrite != FailsBefore || cacheDrop != FailsBefore)
    case Delete(_, repository, cacheDrop) => repository != FailsAfter && cacheDrop != FailsBefore
    case _ => true
  }

  lemma {:induction false} ConfirmedCallsKeep(cfg: Settings, s: Store, calls: seq<Call>)
    requires forall c | c in calls :: Confirmed(c)
    ensures AllKeep(cfg, s, calls)
    decreases calls
  {
    hide Step;
    if calls != [] {
      assert calls[0] in calls;
      ConfirmedCallsKeep(cfg, Step(cfg, s, calls[0]).1, calls[1..]);
    }
  }

  /**
   In particular from an empty cache: if no repository write fails after its commit, every update's set or fallback
   takes effect and every delete's invalidation does, the cache never shows, except by serving during an outage.
   */
  lemma ConfirmedServiceRefinesPlain(cfg: Settings, users: Repository, jobs: seq<UserId>, since: Time, calls: seq<Call>)
    requires Keyed(users) && InTimeOrder(since, calls) && FreshIds(cfg, users, calls)
    requires forall c | c in calls :: Confirmed(c)
    ensures var (answers, end) := Serve(cfg, Store(users, map[], jobs), calls);
            var (plain, users') := PlainServe(cfg, users, calls);
            && end.users == users' && Coherent(end.users, end.cache, LastTime(since, calls))
            && |answers| == |plain| == |calls|
            && forall k | 0 <= k < |calls| :: Refines(calls[k], answers[k], plain[k].0, plain[k].1)
  {
    ConfirmedCallsKeep(cfg, Store(users, map[], jobs), calls);
    CachedServiceRefinesPlain(cfg, Store(users, map[], jobs), since, calls);
  }

  lemma TakenEmails(users: Repository, email: string, self: UserId)
    ensures OthersWithEmail(users, email, self) == {} <==>
            !exists other :: other in users && other != self && users[other].profile.email == email
  {
    if other :| other in users && other != self && users[other].profile.email == email {
      assert other in OthersWithEmail(users, email, self);
    }
  }

  lemma DroppedAfterSet(cache: Cache, id: UserId, entry: Entry)
    ensures cache[id := entry] - {id} == cache - {id}
  {
  }

  // ---------------------------------------------------------------- the use cases

  class UserService {
    var users: Repository
    var cache: Cache
    var jobs: seq<UserId>  // user.created jobs inserted together with their users
    const cfg: Settings

    constructor (ttl: nat, jobMaxAttempts: nat)
      ensures State() == Store(map[], map[], []) && cfg == Settings(ttl, jobMaxAttempts)
    {
      users, cache, jobs := map[], map[], [];
      cfg := Settings(ttl, jobMaxAttempts);
    }

    function State(): Store
      reads this
    {
      Store(users, cache, jobs)
    }

    method SetCache(user: User, now: Time, fault: Fault) returns (ok: bool)
      modifies this`cache
      ensures ok <==> fault == Works
      ensures cache == if fault == FailsBefore then old(cache) else old(cache)[user.id := Entry(user, now + cfg.ttl)]
    {
      if fault != FailsBefore {
        cache := cache[user.id := Entry(user, now + cfg.ttl)];
      }
      ok := fault == Works;
    }

    method DropFromCache(id: UserId, fault: Fault) returns (ok: bool)
      modifies this`cache
      ensures ok <==> fault == Works
      ensures cache == if fault == FailsBefore then old(cache) else old(cache) - {id}
    {
      if fault != FailsBefore {
        cache := cache - {id};
      }
      ok := fault == Works;
    }

    /** On a coherent cache `get` answers as the repository alone would, and it never loses coherence. */
    method Get(id: UserId, now: Time, cacheRead: Fault, repository: Fault, cacheWrite: Fault)
      returns (r: Result<User, ApplicationError>)
      requires Keyed(users)
      modifies this`cache
      ensures (Lifted(r), State()) == Step(cfg, old(State()),
          Call(now, Request.Get(id, cacheRead, repository, cacheWrite)))
      ensures var hit := cacheRead == Works && id in old(cache) && now < old(cache)[id].expiresAt;
              && r == (if hit then Ok(old(cache)[id].user)
                       else if repository != Works then Err(Down)
                       else if id in users then Ok(users[id]) else Err(Missing))
              && cache == if r.Ok? && !hit && cacheWrite != FailsBefore
                          then old(cache)[id := Entry(r.value, now + cfg.ttl)] else old(cache)
      ensures Coherent(users, old(cache), now) ==>
                && (r.Ok? ==> id in users && r.value == users[id])
                && (r == Err(Missing) ==> id !in users)
                && (repository == Works ==> r == if id in users then Ok(users[id]) else Err(Missing))
                && Coherent(users, cache, now)
    {
      if cacheRead == Works && Live(cache, id, now) {
        return Ok(cache[id].user);
      }
      if repository != Works {
        return Err(Down);
      }
      if id !in users {
        return Err(Missing);
      }
      var user := users[id];
      var stored := SetCache(user, now, cacheWrite);
      r := Ok(user);
    }

    /** Inserts the user and its job together or not at all, then caches the user; this never costs coherence. */
    method Create(id: UserId, input: Option<Profile>, now: Time, repository: Fault, cacheWrite: Fault)
      returns (r: Result<User, ApplicationError>)
      requires Keyed(users) && id !in users  // a fresh UUID
      modifies this
      ensures (Lifted(r), State()) == Step(cfg, old(State()),
          Call(now, Request.Create(id, input, repository, cacheWrite)))
      ensures Keyed(users) && (r.Ok? ==> id in users && r.value == users[id])
      ensures var taken := input.Some? && exists other ::
                             other in old(users) && old(users)[other].profile.email == input.value.email;
              var stored := && input.Some? && 1 <= cfg.jobMaxAttempts <= 0x7fff_ffff
                            && repository != FailsBefore && !taken;
              && users == (if stored then old(users)[id := User(id, input.value, now, now)] else old(users))
              && jobs == (if stored then old(jobs) + [id] else old(jobs))
              && r == (if stored && repository == Works then Ok(User(id, input.value, now, now))
                       else if input.None? then Err(Invalid)
                       else if taken && 1 <= cfg.jobMaxAttempts <= 0x7fff_ffff && repository == Works
                       then Err(Duplicate)
                       else Err(Down))
              && cache == if r.Ok? && cacheWrite != FailsBefore
                          then old(cache)[id := Entry(User(id, input.value, now, now), now + cfg.ttl)] else old(cache)
      ensures (users == old(users) && jobs == old(jobs))
          || (id in users && users - {id} == old(users) && jobs == old(jobs) + [id])
      ensures r.Ok? <==>
          && input.Some? && repository == Works
          && OthersWithEmail(old(users), input.value.email, id) == {}
                         && 1 <= cfg.jobMaxAttempts <= JobTable.I32_MAX
      ensures Coherent(old(users), old(cache), now) ==> Coherent(users, cache, now)
    {
      ghost var c := Call(now, Request.Create(id, input, repository, cacheWrite));
      if Coherent(users, cache, now) {
        CoherenceIsKeptExactly(cfg, State(), c);
      }
      if input.None? {
        return Err(Invalid);
      }
      var maxAttempts := JobQueue.ValidateMaxAttempts(cfg.jobMaxAttempts);
      if maxAttempts.None? || repository == FailsBefore {
        return Err(Down);
      }
      if OthersWithEmail(users, input.value.email, id) != {} {
        return Err(if repository == Works then Duplicate else Down);
      }
      var user := User(id, input.value, now, now);
      users, jobs := users[id := user], jobs + [id];
      assert users - {id} == old(users);
      if repository == FailsAfter {
        return Err(Down);
      }
      var stored := SetCache(user, now, cacheWrite);
      r := Ok(user);
    }

    /** Writes the row, then the cache, and drops the entry if the cache did not confirm. */
    method Update(id: UserId, input: Option<Profile>, now: Time, repository: Fault, cacheWrite: Fault, cacheDrop: Fault)
      returns (r: Result<User, ApplicationError>)
      requires Keyed(users)
      modifies this`users, this`cache
      ensures (Lifted(r), State()) == Step(cfg, old(State()),
          Call(now, Request.Update(id, input, repository, cacheWrite, cacheDrop)))
      ensures Keyed(users)
      ensures var taken := input.Some? && exists other ::
                             other in old(users) && other != id && old(users)[other].profile.email == input.value.email;
              var stored := input.Some? && id in old(users) && repository != FailsBefore && !taken;
              var updated := if stored then old(users)[id].(profile := input.value, updatedAt := now)
                             else User(id, Profile("", ""), now, now);
              && users == (if stored then old(users)[id := updated] else old(users))
              && r == (if stored && repository == Works then Ok(updated)
                       else if input.None? then Err(Invalid)
                       else if repository != Works then Err(Down)
                       else if id !in old(users) then Err(Missing) else Err(Duplicate))
              && cache == if r.Err? then old(cache)
                          else if cacheWrite == Works then old(cache)[id := Entry(updated, now + cfg.ttl)]
                          else if cacheDrop != FailsBefore then old(cache) - {id}
                          else if cacheWrite == FailsAfter then old(cache)[id := Entry(updated, now + cfg.ttl)]
                          else old(cache)
      ensures r.Ok? <==>
          input.Some? && id in old(users) && repository == Works
          && OthersWithEmail(old(users), input.value.email, id) == {}
      ensures r.Ok? ==> id in users && r.value == users[id] == old(users)[id].(profile := input.value, updatedAt := now)
      ensures Coherent(old(users), old(cache), now) ==>
                (Coherent(users, cache, now) <==>
                 || input.None? || repository == FailsBefore || id !in old(users)
                 || OthersWithEmail(old(users), input.value.email, id) != {}
                 || (repository == Works && (cacheWrite != FailsBefore || cacheDrop != FailsBefore))
                 || !Live(old(cache), id, now)
                 || old(users)[id] == old(users)[id].(profile := input.value, updatedAt := now))
    {
      ghost var c := Call(now, Request.Update(id, input, repository, cacheWrite, cacheDrop));
      if Coherent(users, cache, now) {
        CoherenceIsKeptExactly(cfg, State(), c);
      }
      if input.Some? {
        TakenEmails(users, input.value.email, id);
      }
      hide Coherent, Keeps, OthersWithEmail, Keyed;
      if input.None? {
        return Err(Invalid);
      }
      if repository == FailsBefore {
        return Err(Down);
      }
      if id !in users || OthersWithEmail(users, input.value.email, id) != {} {
        return Err(if repository != Works then Down else if id !in users then Missing else Duplicate);
      }
      var updated := users[id].(profile := input.value, updatedAt := now);
      users := users[id := updated];
      DroppedAfterSet(cache, id, Entry(updated, now + cfg.ttl));
      if repository == FailsAfter {
        return Err(Down);
      }
      var stored := SetCache(updated, now, cacheWrite);
      if !stored {
        var dropped := DropFromCache(id, cacheDrop);
      }
      r := Ok(updated);
    }

    /** Deletes the row, then the entry. */
    method Delete(id: UserId, now: Time, repository: Fault, cacheDrop: Fault) returns (r: Result<(), ApplicationError>)
      requires Keyed(users)
      modifies this`users, this`cache
      ensures (match r case Ok(_) => Ok(None) case Err(e) => Err(e), State()) ==
              Step(cfg, old(State()), Call(now, Request.Delete(id, repository, cacheDrop)))
      ensures Keyed(users)
      ensures users == if repository == FailsBefore then old(users) else old(users) - {id}
      ensures r == if repository != Works then Err(Down) else if id in old(users) then Ok(()) else Err(Missing)
      ensures cache == if r.Ok? && cacheDrop != FailsBefore then old(cache) - {id} else old(cache)
      ensures r.Ok? <==> id in old(users) && repository == Works
      ensures r.Ok? ==> id !in users
      ensures Coherent(old(users), old(cache), now) ==>
                (Coherent(users, cache, now) <==>
                 || repository == FailsBefore || id !in old(users)
                 || (repository == Works && cacheDrop != FailsBefore)
                 || !Live(old(cache), id, now))
    {
      ghost var c := Call(now, Request.Delete(id, repository, cacheDrop));
      if Coherent(users, cache, now) {
        CoherenceIsKeptExactly(cfg, State(), c);
      }
      if repository == FailsBefore {
        return Err(Down);
      }
      if id !in users {
        return Err(if repository == Works then Missing else Down);
      }
      users := users - {id};
      if repository == FailsAfter {
        return Err(Down);
      }
      var dropped := DropFromCache(id, cacheDrop);
      r := Ok(());
    }
  }

  /** The documented gap: a delete whose invalidation is lost leaves an entry that `get` still serves. */
  method LostInvalidationExample() returns (r: Result<User, ApplicationError>)
    ensures r == Ok(User(1, Profile("a@b.c", "A"), 0, 0))
  {
    var service := new UserService(300, 5);
    var created := service.Create(1, Some(Profile("a@b.c", "A")), 0, Works, Works);
    var deleted := service.Delete(1, 10, Works, FailsBefore);
    assert deleted.Ok? && 1 !in service.users;
    r := service.Get(1, 20, Works, Works, Works);
  }

  /** The same gap for an update whose cache set and fallback deletion are both lost. */
  method LostUpdateExample() returns (r: Result<User, ApplicationError>)
    ensures r == Ok(User(1, Profile("a@b.c", "A"), 0, 0))
  {
    var service := new UserService(300, 5);
    var created := service.Create(1, Some(Profile("a@b.c", "A")), 0, Works, Works);
    var updated := service.Update(1, Some(Profile("a@b.c", "B")), 10, Works, FailsBefore, FailsBefore);
    assert updated.Ok? && service.users[1].profile.displayName == "B";
    r := service.Get(1, 20, Works, Works, Works);
  }
}
