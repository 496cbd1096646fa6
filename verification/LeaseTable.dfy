/** The lock table as every store sees it: one row per lock key, each row an
    expiring lease that names the run key holding it. A step is one atomic
    statement (or one critical section of the in-memory store); the clock value
    it uses was captured earlier, so it may lag behind the table's clock. */
module LeaseTable {
  import opened Outcomes

  type RunKey = string

  /** expires is None only for a row whose expiry column is NULL. */
  datatype Row = Row(owner: string, runKey: RunKey, expires: Option<int>)

  /** What the table last promised to a run key, and whether its holder has let go. */
  datatype Grant = Grant(key: string, owner: string, expires: Option<int>, released: bool)

  datatype State = State(now: int, rows: map<string, Row>, grants: map<RunKey, Grant>)

  const MINUTE: int := 60_000_000_000

  function EffectiveTtl(ttl: int): (d: int)
    ensures d > 0
  {
    if ttl <= 0 then MINUTE else ttl
  }

  predicate Live(row: Row, at: int) {
    row.expires.Some? && at < row.expires.value
  }

  predicate Free(rows: map<string, Row>, key: string, at: int) {
    key in rows ==> !Live(rows[key], at)
  }

  predicate Holds(rows: map<string, Row>, key: string, owner: string, runKey: RunKey) {
    key in rows && rows[key].owner == owner && rows[key].runKey == runKey
  }

  function LeaseRow(owner: string, runKey: RunKey, ttl: int, captured: int): Row {
    Row(owner, runKey, Some(captured + EffectiveTtl(ttl)))
  }

  function AcquireRows(rows: map<string, Row>, key: string, owner: string, runKey: RunKey, ttl: int,
                       captured: int): map<string, Row> {
    if Free(rows, key, captured) then rows[key := LeaseRow(owner, runKey, ttl, captured)] else rows
  }

  function RenewRows(rows: map<string, Row>, key: string, owner: string, runKey: RunKey, ttl: int,
                     captured: int): map<string, Row> {
    if Holds(rows, key, owner, runKey) then rows[key := LeaseRow(owner, runKey, ttl, captured)] else rows
  }

  function ReleaseRows(rows: map<string, Row>, key: string, owner: string, runKey: RunKey): map<string, Row> {
    if Holds(rows, key, owner, runKey) then rows - {key} else rows
  }

  /** The operator's clean-up: delete the row only if it is still exactly the observed one. */
  function DeleteRows(rows: map<string, Row>, key: string, observed: Row): map<string, Row> {
    if key in rows && rows[key] == observed then rows - {key} else rows
  }

  datatype Step =
    | Advance(until: int)
    | Acquire(key: string, owner: string, runKey: RunKey, ttl: int, captured: int)
    | Renew(key: string, owner: string, runKey: RunKey, ttl: int, captured: int)
    | Release(key: string, owner: string, runKey: RunKey, applied: bool)
    | DeleteStale(key: string, observed: Row, captured: int)

  predicate Enabled(s: State, step: Step) {
    match step
    case Advance(until) => s.now <= until
    case Acquire(_, _, runKey, _, captured) => captured <= s.now && runKey !in s.grants
    case Renew(_, _, _, _, captured) => captured <= s.now
    case Release(_, _, _, _) => true
    case DeleteStale(_, observed, captured) =>
      captured <= s.now && observed.expires.Some? && observed.expires.value < captured
  }

  function Apply(s: State, step: Step): State
    requires Enabled(s, step)
  {
    match step
    case Advance(until) => s.(now := until)
    case Acquire(key, owner, runKey, ttl, captured) =>
      if Free(s.rows, key, captured) then
        s.(rows := AcquireRows(s.rows, key, owner, runKey, ttl, captured),
           grants := s.grants[runKey := Grant(key, owner, Some(captured + EffectiveTtl(ttl)), false)])
      else s
    case Renew(key, owner, runKey, ttl, captured) =>
      if Holds(s.rows, key, owner, runKey) && runKey in s.grants then
        s.(rows := RenewRows(s.rows, key, owner, runKey, ttl, captured),
           grants := s.grants[runKey := s.grants[runKey].(expires := Some(captured + EffectiveTtl(ttl)))])
      else s
    case Release(key, owner, runKey, applied) =>
      // A release whose statement fails leaves the row to expire; its holder is gone either way.
      s.(rows := if applied then ReleaseRows(s.rows, key, owner, runKey) else s.rows,
         grants := if runKey in s.grants then s.grants[runKey := s.grants[runKey].(released := true)] else s.grants)
    case DeleteStale(key, observed, _) => s.(rows := DeleteRows(s.rows, key, observed))
  }

  ghost predicate Next(s: State, t: State) {
    exists step: Step :: Enabled(s, step) && t == Apply(s, step)
  }

  /** A table found at start-up: every row counts as one grant and run keys are unique. */
  ghost predicate Init(s: State) {
    && (forall k :: k in s.rows ==>
          s.rows[k].runKey in s.grants && s.grants[s.rows[k].runKey] ==
            Grant(k, s.rows[k].owner, s.rows[k].expires, false))
    && (forall r :: r in s.grants ==> s.grants[r].key in s.rows && s.rows[s.grants[r].key].runKey == r)
  }

  ghost predicate Carries(s: State, runKey: RunKey) {
    runKey in s.grants && s.grants[runKey].key in s.rows && s.rows[s.grants[runKey].key].runKey == runKey
  }

  /** The holder has not released and the clock is before the expiry it was last given. */
  ghost predicate Current(s: State, runKey: RunKey) {
    && runKey in s.grants && !s.grants[runKey].released
    && s.grants[runKey].expires.Some? && s.now < s.grants[runKey].expires.value
  }

  ghost predicate RowsAreGranted(s: State) {
    forall k :: k in s.rows ==>
      && s.rows[k].runKey in s.grants
      && s.grants[s.rows[k].runKey].key == k
      && s.grants[s.rows[k].runKey].owner == s.rows[k].owner
      && s.grants[s.rows[k].runKey].expires == s.rows[k].expires
  }

  ghost predicate Inv(s: State) {
    && RowsAreGranted(s)
    && (forall r :: Current(s, r) ==> Carries(s, r))
  }

  lemma StepKeepsInv(s: State, step: Step)
    requires Inv(s) && Enabled(s, step)
    ensures Inv(Apply(s, step))
  {
    var t := Apply(s, step);
    forall r | Current(t, r) ensures Carries(t, r) {
      if r in s.grants && s.grants[r].expires == t.grants[r].expires {
        assert Current(s, r);
        assert Carries(s, r);
      }
    }
  }

  /** Once a granted run key has left its row, no step puts it back: a superseded
      or cleaned-up holder stays superseded. */
  lemma StepKeepsLoss(s: State, step: Step, runKey: RunKey)
    requires Inv(s) && Enabled(s, step) && runKey in s.grants && !Carries(s, runKey)
    ensures runKey in Apply(s, step).grants && Apply(s, step).grants[runKey].key == s.grants[runKey].key
    ensures !Carries(Apply(s, step), runKey)
  {
  }

  ghost predicate IsRun(run: seq<State>) {
    && |run| > 0 && Init(run[0])
    && (forall i :: 0 < i < |run| ==> Next(run[i - 1], run[i]))
  }

  lemma {:induction false} RunInv(run: seq<State>, i: nat)
    requires IsRun(run) && i < |run|
    ensures Inv(run[i])
  {
    if i > 0 {
      RunInv(run, i - 1);
      assert Next(run[i - 1], run[i]);
      var step: Step :| Enabled(run[i - 1], step) && run[i] == Apply(run[i - 1], step);
      StepKeepsInv(run[i - 1], step);
    }
  }

  lemma {:induction false} GrantsPersist(run: seq<State>, i: nat, j: nat, runKey: RunKey)
    requires IsRun(run) && i <= j < |run| && runKey in run[i].grants
    ensures runKey in run[j].grants && run[j].grants[runKey].key == run[i].grants[runKey].key
    ensures run[i].grants[runKey].released ==> run[j].grants[runKey].released
    decreases j
  {
    if i < j {
      GrantsPersist(run, i, j - 1, runKey);
      assert Next(run[j - 1], run[j]);
    }
  }

  lemma {:induction false} LossPersists(run: seq<State>, i: nat, j: nat, runKey: RunKey)
    requires IsRun(run) && i <= j < |run| && runKey in run[i].grants && !Carries(run[i], runKey)
    ensures !Carries(run[j], runKey)
    decreases j
  {
    if i < j {
      LossPersists(run, i, j - 1, runKey);
      GrantsPersist(run, i, j - 1, runKey);
      RunInv(run, j - 1);
      assert Next(run[j - 1], run[j]);
      var step: Step :| Enabled(run[j - 1], step) && run[j] == Apply(run[j - 1], step);
      StepKeepsLoss(run[j - 1], step, runKey);
    }
  }

  /** Lease safety. If a run key granted by time i is still current at time j, then at
      every moment in between its row carried it, so nobody else acquired that key. */
  lemma LeaseSafety(run: seq<State>, i: nat, j: nat, runKey: RunKey)
    requires IsRun(run) && i <= j < |run|
    requires runKey in run[i].grants && Current(run[j], runKey)
    ensures forall m :: i <= m <= j ==> Carries(run[m], runKey)
    ensures forall other, m :: i < m <= j && other in run[m].grants && other !in run[m - 1].grants ==>
              run[m].grants[other].key != run[i].grants[runKey].key
  {
    RunInv(run, j);
    forall m | i <= m <= j ensures Carries(run[m], runKey) {
      GrantsPersist(run, i, m, runKey);
      if !Carries(run[m], runKey) {
        LossPersists(run, m, j, runKey);
      }
    }
    forall other, m | i < m <= j && other in run[m].grants && other !in run[m - 1].grants
      ensures run[m].grants[other].key != run[i].grants[runKey].key
    {
      GrantsPersist(run, i, m, runKey);
      assert Next(run[m - 1], run[m]);
      assert Carries(run[m], runKey);
    }
  }

  /** A superseded holder is harmless: once run key 'mine' has lost its row, no
      renewal or release it sends later in the run changes any row. */
  lemma SupersededIsHarmless(run: seq<State>, i: nat, j: nat, mine: RunKey, step: Step)
    requires IsRun(run) && i <= j < |run|
    requires mine in run[i].grants && !Carries(run[i], mine)
    requires (step.Renew? || step.Release?) && step.runKey == mine && Enabled(run[j], step)
    ensures Apply(run[j], step).rows == run[j].rows
  {
    RunInv(run, j);
    GrantsPersist(run, i, j, mine);
    LossPersists(run, i, j, mine);
  }

  /** The operator's clean-up never takes a lease that is still current. */
  lemma CleanUpSparesCurrentLeases(s: State, step: Step, runKey: RunKey)
    requires Inv(s) && step.DeleteStale? && Enabled(s, step) && Current(s, runKey)
    ensures Carries(Apply(s, step), runKey) && Apply(s, step).rows[s.grants[runKey].key] == s.rows[s.grants[runKey].key]
  {
    assert Carries(s, runKey);
  }
}
