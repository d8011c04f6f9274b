/**
 The order in which `claim` serves pending rows, and why it starves none: everything that becomes
 pending later is stamped behind a row that is already due.
 */
module FairClaims {
  import opened Wrappers
  import opened JobTable

  /** ORDER BY available_at, created_at. */
  predicate Ahead(a: Row, b: Row) {
    a.availableAt < b.availableAt || (a.availableAt == b.availableAt && a.createdAt < b.createdAt)
  }

  /** A row that `ORDER BY available_at, created_at LIMIT 1` may return; ties are open. */
  ghost predicate FirstInLine(t: Table, now: Time, id: JobId) {
    && id in t && Claimable(t[id], now)
    && forall other | other in t && Claimable(t[other], now) :: !Ahead(t[other], t[id])
  }

  /** A claim statement returns the first row in line, and none only when no row is claimable. */
  ghost predicate InOrder(t: Table, now: Time, op: Op) {
    op.Claim? ==>
      match op.candidate
      case Some(id) => FirstInLine(t, now, id)
      case None => forall id | id in t :: !Claimable(t[id], now)
  }

  ghost predicate FairRun(t: Table, since: Time, run: seq<Statement>)
    decreases run
  {
    run == [] || (since <= run[0].now && Enabled(t, run[0].now, run[0].op) && InOrder(t, run[0].now, run[0].op)
                  && FairRun(Apply(t, run[0].now, run[0].op), run[0].now, run[1..]))
  }

  lemma {:induction false} FairRunsAreRuns(t: Table, since: Time, run: seq<Statement>)
    requires FairRun(t, since, run)
    ensures Run(t, since, run)
    decreases run
  {
    if run != [] {
      FairRunsAreRuns(Apply(t, run[0].now, run[0].op), run[0].now, run[1..]);
    }
  }

  /** The pending rows that are ordered at or before job `id`, itself included. */
  ghost function Line(t: Table, id: JobId): set<JobId>
    requires id in t
  {
    set other | other in t && t[other].status == Pending && !Ahead(t[id], t[other])
  }

  function ClaimStatements(run: seq<Statement>): nat {
    if run == [] then 0 else (if run[0].op.Claim? then 1 else 0) + ClaimStatements(run[1..])
  }

  /** One statement never lengthens the line of a row that is due, and a claim of another row shortens it. */
  lemma LineNeverGrows(t: Table, now: Time, op: Op, id: JobId)
    requires AllSound(t) && Enabled(t, now, op) && InOrder(t, now, op)
    requires id in t && t[id].status == Pending && t[id].availableAt < now
    requires !(op.Claim? && op.candidate == Some(id))
    ensures var t' := Apply(t, now, op);
            && id in t' && t'[id] == t[id]
            && Line(t', id) <= Line(t, id)
            && (op.Claim? ==> op.candidate.Some? && op.candidate.value in Line(t, id)
                              && Line(t', id) <= Line(t, id) - {op.candidate.value})
  {
  }

  /**
   No starvation: once a pending job is due, it is claimed within as many claim statements as there are
   pending rows ordered at or before it, whatever else is enqueued, failed or reaped meanwhile.
   */
  lemma {:induction false} NoStarvation(t: Table, since: Time, run: seq<Statement>, id: JobId)
    requires AllSound(t) && FairRun(t, since, run)
    requires id in t && t[id].status == Pending && t[id].availableAt < since
    ensures ClaimStatements(run) >= |Line(t, id)| ==> Claims(run, id) >= 1
    ensures Claims(run, id) == 0 ==>
              && Run(t, since, run) && id in After(t, since, run) && After(t, since, run)[id] == t[id]
              && |Line(After(t, since, run), id)| + ClaimStatements(run) <= |Line(t, id)|
    decreases run
  {
    FairRunsAreRuns(t, since, run);
    if run == [] {
      assert id in Line(t, id);
    } else if !(run[0].op.Claim? && run[0].op.candidate == Some(id)) {
      var now, op := run[0].now, run[0].op;
      var t1 := Apply(t, now, op);
      StatementKeepsRowsSound(t, now, op);
      LineNeverGrows(t, now, op, id);
      SubsetSize(Line(t1, id), if op.Claim? then Line(t, id) - {op.candidate.value} else Line(t, id));
      NoStarvation(t1, now, run[1..], id);
    }
  }
}
