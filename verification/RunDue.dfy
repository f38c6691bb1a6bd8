/** ExecutionService.runDue: turning due schedule occurrences into executions or skip events, each counted once. */
module RunDue {
  import opened ExecutionTypes
  import opened Wrappers
  import opened ExecutionStore
  import ExecutionInvariant
  import opened ExecutionWorld
  import opened ExecutionService
  import opened Cron
  import opened Dispatcher
  import opened Recovery

  const BOUND := 10000

  // A row of backup_jobs with its connections and targets; None when they cannot be read and enqueue throws.
  datatype Job = Job(id: string, fields: seq<Field>, zone: Zone, enabled: bool, next: Option<int>, queues: bool,
                     requests: Option<seq<Request>>)

  datatype Event =
    | OverlapSkipped(job: string, execution: nat, from: int, to: int, count: nat)
    | EnqueueFailed(job: string)

  predicate JobDue(j: Job, now: int) { j.enabled && j.next.Some? && j.next.value <= now }

  // Executions whose status still blocks a skipping schedule.
  predicate Unfinished(e: Execution) { e.status in {Queued, Running, Retrying, CancelRequested} }

  predicate Overlaps(t: Table, job: string) { exists i | 0 <= i < |t| :: t[i].job == job && Unfinished(t[i]) }

  predicate OpenWork(p: Pair) { p.status in {Queued, Running, RetryWait, CancelRequested} }

  // A schedule is held back by work of its own that has not come to an end: a pair that waits, runs or is stopping.
  lemma OverlapsWhen(t: Table, job: string)
    requires TableOk(t)
    ensures Overlaps(t, job) <==>
              exists r :: ValidRef(t, r) && t[r.execution].job == job && OpenWork(PairAt(t, r))
  {
    hide ExecutionInvariant.ExecutionOk, Increasing;
    if Overlaps(t, job) {
      var i: nat :| i < |t| && t[i].job == job && Unfinished(t[i]);
      var p := OpenPair(t[i]);
      assert ValidRef(t, PairRef(i, p));
    }
    if r :| ValidRef(t, r) && t[r.execution].job == job && OpenWork(PairAt(t, r)) {
      OpenExecution(t[r.execution], r.pair);
      assert Unfinished(t[r.execution]);
    }
  }

  lemma OpenPair(e: Execution) returns (p: nat)
    requires ExecutionInvariant.ExecutionOk(e) && Unfinished(e)
    ensures p < |e.pairs| && OpenWork(e.pairs[p])
  {
    ExecutionInvariant.FinishedIffPairsTerminal(e);
    var q :| q in e.pairs && !Terminal(q.status);
    var i: nat :| i < |e.pairs| && e.pairs[i] == q;
    p := i;
    assert ExecutionInvariant.PairOk(e.pairs[p]);
  }

  lemma OpenExecution(e: Execution, p: nat)
    requires ExecutionInvariant.ExecutionOk(e) && p < |e.pairs| && OpenWork(e.pairs[p])
    ensures Unfinished(e)
  {
    ExecutionInvariant.FinishedIffPairsTerminal(e);
    assert e.pairs[p] in e.pairs;
  }

  // ---------------------------------------------------------------- counting occurrences

  // Occurrences from a up to, but without, b.
  ghost function Between(s: Schedule, zone: Zone, a: int, b: int): set<int> {
    set t | a <= t < b && Fires(s, zone, t)
  }

  lemma BetweenStep(s: Schedule, zone: Zone, a: int, t: int, u: int)
    requires a <= t && Fires(s, zone, t) && IsNext(s, zone, t, u)
    ensures Between(s, zone, a, u) == Between(s, zone, a, t) + {t}
    ensures |Between(s, zone, a, u)| == |Between(s, zone, a, t)| + 1
  {
    assert t !in Between(s, zone, a, t);
  }

  lemma BetweenJoins(s: Schedule, zone: Zone, a: int, b: int, c: int)
    requires a <= b <= c
    ensures |Between(s, zone, a, c)| == |Between(s, zone, a, b)| + |Between(s, zone, b, c)|
  {
    assert Between(s, zone, a, c) == Between(s, zone, a, b) + Between(s, zone, b, c);
    assert Between(s, zone, a, b) !! Between(s, zone, b, c);
  }

  lemma BetweenHas(s: Schedule, zone: Zone, a: int, b: int)
    requires a < b && Fires(s, zone, a)
    ensures |Between(s, zone, a, b)| > 0
  {
    assert a in Between(s, zone, a, b);
  }

  lemma BetweenGap(s: Schedule, zone: Zone, a: int, now: int, t: int)
    requires now < t && forall u | now < u < t :: !Fires(s, zone, u)
    ensures Between(s, zone, a, t) == Between(s, zone, a, now + 1)
  {
  }

  // What the execution rows of a job account for: a scheduled one for its occurrence and those missed with it,
  // a catch-up only for those it lists as missed.
  function ExecutionCount(e: Execution, job: string): nat {
    if e.job == job && e.scheduledFor.Some? then (if e.trigger == Catchup then e.missed else 1 + e.missed) else 0
  }

  function TableCount(t: Table, job: string): nat
  {
    if t == [] then 0 else TableCount(t[..|t| - 1], job) + ExecutionCount(t[|t| - 1], job)
  }

  function EventCount(events: seq<Event>, job: string): nat {
    if events == [] then 0
    else
      var e := events[|events| - 1];
      EventCount(events[..|events| - 1], job) + if e.OverlapSkipped? && e.job == job then e.count else 0
  }

  function Counted(t: Table, events: seq<Event>, job: string): nat { TableCount(t, job) + EventCount(events, job) }

  lemma AppendCounts(t: Table, e: Execution, job: string)
    ensures TableCount(t + [e], job) == TableCount(t, job) + ExecutionCount(e, job)
  {
    assert (t + [e])[..|t|] == t;
  }

  lemma AppendEventCounts(events: seq<Event>, e: Event, job: string)
    ensures EventCount(events + [e], job)
            == EventCount(events, job) + if e.OverlapSkipped? && e.job == job then e.count else 0
  {
    assert (events + [e])[..|events|] == events;
  }

  // ---------------------------------------------------------------- one due job

  // The loop over missed occurrences, ended early by the bound.
  datatype Sweep = Sweep(count: nat, last: int, following: int, bounded: bool)

  ghost predicate SweepOf(s: Schedule, zone: Zone, next: int, now: int, w: Sweep) {
    && w.following > now
    && 1 <= w.count <= BOUND
    && (!w.bounded ==>
          && w.count == |Between(s, zone, next, now + 1)|
          && next <= w.last <= now && Fires(s, zone, w.last) && IsNext(s, zone, w.last, w.following))
    && (w.bounded ==> w.count == 10000 && w.count < |Between(s, zone, next, now + 1)| && w.last == now)
    && (forall t | now < t < w.following :: !Fires(s, zone, t))
    && Fires(s, zone, w.following)
  }

  method NextAfter(s: Schedule, zone: Zone, from: int) returns (t: Option<int>)
    requires Visible(zone) && MinutesAdvance(zone) && Clock(s)
    ensures t.Some? ==> IsNext(s, zone, from, t.value)
    ensures t.None? <==> Exhausted(s, zone, from)
  {
    var r := Search(s, from, zone);
    SearchIsLeast(s, zone, from, r);
    t := if r.Ok? then Some(r.value) else None;
  }

  // Nothing fires within the horizon of nextCron from t on.
  ghost predicate Exhausted(s: Schedule, zone: Zone, t: int) {
    forall u | u > t && Fires(s, zone, u) :: LocalDay(zone, u) >= LocalDay(zone, t) + 366 * 8
  }

  // None when nextCron throws, which takes a due instant from which the schedule has no near occurrence.
  method SweepOccurrences(s: Schedule, zone: Zone, next: int, now: int) returns (w: Option<Sweep>)
    requires Visible(zone) && MinutesAdvance(zone) && Clock(s)
    requires Fires(s, zone, next) && next <= now
    ensures w.Some? ==> SweepOf(s, zone, next, now, w.value)
    ensures w.None? ==> exists t :: next <= t <= now && Exhausted(s, zone, t)
  {
    hide Exhausted, Fires, Visible, MinutesAdvance, Clock;
    var occurrence, count, last := next, 0, next;
    while occurrence <= now && count < BOUND
      invariant next <= occurrence && 0 <= count <= BOUND && Fires(s, zone, occurrence)
      invariant count == |Between(s, zone, next, occurrence)|
      invariant count == 0 ==> occurrence == next
      invariant count > 0 ==> next <= last <= now && Fires(s, zone, last) && IsNext(s, zone, last, occurrence)
      decreases BOUND - count
    {
      count := count + 1;
      last := occurrence;
      var following := NextAfter(s, zone, occurrence);
      if following.None? { return None; }
      BetweenStep(s, zone, next, last, following.value);
      occurrence := following.value;
    }
    var bounded := occurrence <= now;
    if bounded {
      BetweenHas(s, zone, occurrence, now + 1);
      BetweenJoins(s, zone, next, occurrence, now + 1);
      last := now;
      var following := NextAfter(s, zone, now);
      if following.None? { return None; }
      occurrence := following.value;
    } else {
      BetweenGap(s, zone, next, now, occurrence);
    }
    w := Some(Sweep(count, last, occurrence, bounded));
  }

  // Row i of u is the execution admitted for the occurrence `next`; the rest of u is t.
  ghost predicate Admitted(job: string, next: Option<int>, startup: bool, count: nat, t: Table, u: Table, i: nat) {
    && i < |u| && i <= |t| && (i == |t| <==> !AlreadyAdmitted(t, job, next))
    && u[i].job == job && u[i].scheduledFor == next
    && u[i].missed == (if startup then count else if count == 0 then 0 else count - 1)
    && if i == |t| then
         u == t + [u[i]] && u[i].trigger == (if startup then Catchup else Scheduled) && u[i].status == Queued
       else u == t[i := t[i].(missed := u[i].missed)]
  }

  ghost predicate Skipped(job: string, next: int, w: Sweep, t: Table, events: seq<Event>, more: seq<Event>, i: nat) {
    i < |t| && t[i].job == job && Unfinished(t[i]) && more == events + [OverlapSkipped(job, i, next, w.last, w.count)]
  }

  // The whole effect of one successful transaction of runDue on the tables: an execution, or a skip event if
  // one of the job is unfinished and the job does not queue.
  ghost predicate Booked(j: Job, startup: bool, w: Sweep, t: Table, events: seq<Event>, u: Table, more: seq<Event>)
    requires j.next.Some?
  {
    if Overlaps(t, j.id) && !j.queues then
      u == t && exists i :: Skipped(j.id, j.next.value, w, t, events, more, i)
    else
      more == events && exists i :: Admitted(j.id, j.next, startup, w.count, t, u, i)
  }

  // A new row accounts for the occurrences up to now, unless the bound was reached: at startup all of them were
  // missed, and otherwise all but the one it stands for.
  lemma MissedMeans(
    j: Job, s: Schedule, startup: bool, now: int, w: Sweep, t: Table, events: seq<Event>, u: Table, more: seq<Event>)
    requires j.next.Some? && SweepOf(s, j.zone, j.next.value, now, w) && !w.bounded
    requires Booked(j, startup, w, t, events, u, more) && |u| > |t|
    ensures var e := u[|t|];
            && u[..|t|] == t && e.job == j.id && e.scheduledFor == j.next
            && e.missed == |Between(s, j.zone, j.next.value, now + 1)| - (if startup then 0 else 1)
            && e.trigger == (if startup then Catchup else Scheduled)
  {
    hide Between, Fires, IsNext;
  }

  // ---------------------------------------------------------------- exactly-once accounting

  // Every execution admitted for an occurrence of the job lies before its next one. It holds under a clock that
  // does not go back, because next_run_at only moves forward.
  ghost predicate AllBefore(t: Table, job: string, next: int) {
    forall i | 0 <= i < |t| && t[i].job == job && t[i].scheduledFor.Some? :: t[i].scheduledFor.value < next
  }

  lemma AdmittedCounts(job: string, next: int, startup: bool, count: nat, t: Table, u: Table, i: nat)
    requires Admitted(job, Some(next), startup, count, t, u, i) && AllBefore(t, job, next) && count >= 1
    ensures u == t + [u[|t|]] && i == |t|
    ensures TableCount(u, job) == TableCount(t, job) + count
    ensures forall other | other != job :: TableCount(u, other) == TableCount(t, other)
    ensures forall following | following > next :: AllBefore(u, job, following)
  {
    assert !AlreadyAdmitted(t, job, Some(next)) by {
      forall e | e in t && e.job == job ensures e.scheduledFor != Some(next) {
        var k :| 0 <= k < |t| && t[k] == e;
      }
    }
    AppendCounts(t, u[i], job);
    forall other | other != job ensures TableCount(u, other) == TableCount(t, other) { AppendCounts(t, u[i], other); }
  }

  // A transaction of runDue counts exactly the occurrences it swept, for its own job and no other.
  lemma BookedCounts(j: Job, startup: bool, w: Sweep, t: Table, events: seq<Event>, u: Table, more: seq<Event>)
    requires j.next.Some? && Booked(j, startup, w, t, events, u, more)
    requires AllBefore(t, j.id, j.next.value) && w.count >= 1 && w.following > j.next.value
    ensures Counted(u, more, j.id) == Counted(t, events, j.id) + w.count
    ensures forall other | other != j.id :: Counted(u, more, other) == Counted(t, events, other)
    ensures AllBefore(u, j.id, w.following)
    ensures forall other, next | other != j.id && AllBefore(t, other, next) :: AllBefore(u, other, next)
    ensures Overlaps(t, j.id) && !j.queues ==> u == t
  {
    if Overlaps(t, j.id) && !j.queues {
      var i :| Skipped(j.id, j.next.value, w, t, events, more, i);
      var e := OverlapSkipped(j.id, i, j.next.value, w.last, w.count);
      AppendEventCounts(events, e, j.id);
      forall other | other != j.id ensures EventCount(more, other) == EventCount(events, other) {
        AppendEventCounts(events, e, other);
      }
    } else {
      var i :| Admitted(j.id, j.next, startup, w.count, t, u, i);
      AdmittedCounts(j.id, j.next.value, startup, w.count, t, u, i);
    }
  }

  lemma {:induction false} SameRowsCount(t: Table, u: Table, job: string)
    requires |u| == |t| && forall i | 0 <= i < |t| :: SameOrigin(t[i], u[i])
    ensures TableCount(u, job) == TableCount(t, job)
    ensures forall next :: AllBefore(t, job, next) ==> AllBefore(u, job, next)
  {
    if t != [] { SameRowsCount(t[..|t| - 1], u[..|u| - 1], job); }
  }

  // Whatever else happens to the queue in between, crashes and manual executions included, leaves what the rows
  // of a job account for alone.
  lemma OtherStepsCountNothing(x: World, a: Action, job: string)
    requires WorldOk(x) && (a.Enqueue? && a.job == job ==> a.scheduledFor == None)
    ensures TableCount(Do(x, a).table, job) == TableCount(x.table, job)
    ensures forall next | AllBefore(x.table, job, next) :: AllBefore(Do(x, a).table, job, next)
  {
    hide WorldOk, Do;
    if a.Enqueue? {
      EnqueueCounts(x, a, job);
    } else {
      OriginsStay(x, a);
      SameRowsCount(x.table, Do(x, a).table, job);
    }
  }

  lemma EnqueueCounts(x: World, a: Action, job: string)
    requires a.Enqueue? && (a.job == job ==> a.scheduledFor == None)
    ensures TableCount(Do(x, a).table, job) == TableCount(x.table, job)
    ensures forall next | AllBefore(x.table, job, next) :: AllBefore(Do(x, a).table, job, next)
  {
    hide Do;
    if a.requests == [] {
      NothingEnqueued(x, a);
    } else {
      EnqueuedTable(x, a);
      var t := Do(x, a).table;
      if t != x.table { AppendCounts(x.table, t[|x.table|], job); }
    }
  }

  lemma NothingEnqueued(x: World, a: Action)
    requires a.Enqueue? && a.requests == []
    ensures Do(x, a).table == x.table
  {
  }

  // The row of an admission, if it is new.
  lemma EnqueuedTable(x: World, a: Action)
    requires a.Enqueue? && a.requests != []
    ensures var t := Do(x, a).table;
            if |t| <= |x.table| || AlreadyAdmitted(x.table, a.job, a.scheduledFor) then t == x.table
            else
              && t == x.table + [t[|x.table|]] && t[|x.table|].job == a.job && t[|x.table|].trigger == a.trigger
              && t[|x.table|].scheduledFor == a.scheduledFor && t[|x.table|].status == Queued
  {
    RegisteringIsInvisible(x, a.requests);
  }

  lemma OriginsStay(x: World, a: Action)
    requires WorldOk(x) && !a.Enqueue?
    ensures |Do(x, a).table| == |x.table| && forall i | 0 <= i < |x.table| :: SameOrigin(x.table[i], Do(x, a).table[i])
  {
    hide TableOk, Live, GroupsAgree, Backed, ReadyPairs, PumpList, RecoverList, RunningAttempts;
    match a
    case Pump(now, lag) =>
      if !x.stopped {
        QueueIsPassable(x.table, x.workers, now, now + lag);
        PassIsKin(x.table, x.workers, x.config, now, now + lag, ReadyPairs(x.table));
      }
    case Restart(rows, now) => RecoveryIsExact(x.table, rows, now);
    case _ =>
  }

  // ---------------------------------------------------------------- runs

  // The queue, the rows of backup_jobs and the events logged by runDue.
  datatype State = State(world: World, jobs: seq<Job>, events: seq<Event>)

  // A stored job: nextCron can search its time zone, and next_run_at is an occurrence.
  ghost predicate JobOk(s: Schedule, j: Job) {
    && Visible(j.zone) && MinutesAdvance(j.zone) && Reads(j.fields, s) && Clock(s)
    && (j.requests.Some? ==> j.requests.value != [])
    && (j.next.Some? ==> Fires(s, j.zone, j.next.value))
  }

  ghost predicate Unbooked(x: State, k: nat)
    requires k < |x.jobs|
  {
    x.jobs[k].next.Some? ==> AllBefore(x.world.table, x.jobs[k].id, x.jobs[k].next.value)
  }

  predicate DistinctIds(jobs: seq<Job>) { forall i, k | 0 <= i < k < |jobs| :: jobs[i].id != jobs[k].id }

  // What holds at every moment. Between two transactions, everything admitted for an occurrence of a job lies before
  // its next_run_at.
  ghost predicate Consistent(schedules: seq<Schedule>, x: State) {
    && WorldOk(x.world) && DistinctIds(x.jobs) && |schedules| == |x.jobs|
    && forall k | 0 <= k < |x.jobs| :: JobOk(schedules[k], x.jobs[k]) && Unbooked(x, k)
  }

  function Admission(j: Job, startup: bool, now: int): Action
    requires j.requests.Some?
  {
    Action.Enqueue(j.id, if startup then Catchup else Scheduled, j.next, j.requests.value, now)
  }

  // y is x after the admission, with missed counts stored.
  ghost predicate Admits(j: Job, startup: bool, now: int, x: World, y: World) {
    && j.requests.Some?
    && var v := Do(x, Admission(j, startup, now));
       y == v.(table := y.table) && OnlyMissed(v.table, y.table)
  }

  // A committed transaction of runDue for job k.
  ghost predicate Books(schedules: seq<Schedule>, x: State, y: State, k: nat, now: int, startup: bool, w: Sweep) {
    && k < |x.jobs| == |schedules| && JobDue(x.jobs[k], now)
    && SweepOf(schedules[k], x.jobs[k].zone, x.jobs[k].next.value, now, w)
    && Booked(x.jobs[k], startup, w, x.world.table, x.events, y.world.table, y.events)
    && (if Overlaps(x.world.table, x.jobs[k].id) && !x.jobs[k].queues then y.world == x.world
        else Admits(x.jobs[k], startup, now, x.world, y.world))
    && y.jobs == x.jobs[k := x.jobs[k].(next := Some(w.following))]
  }

  // A transaction of runDue for job k that throws: it is rolled back, and the failure is logged.
  ghost predicate Fails(x: State, y: State, k: nat) {
    k < |x.jobs| && y == x.(events := x.events + [EnqueueFailed(x.jobs[k].id)])
  }

  // Everything else: no caller but runDue names an occurrence.
  predicate Elsewhere(a: Action) { a.Enqueue? ==> a.scheduledFor == None }

  ghost predicate Acts(x: State, y: State, a: Action) { Elsewhere(a) && y == x.(world := Do(x.world, a)) }

  ghost predicate Next(schedules: seq<Schedule>, x: State, y: State) {
    || (exists a :: Acts(x, y, a))
    || (exists k :: Fails(x, y, k))
    || (exists k, now, startup, w :: Books(schedules, x, y, k, now, startup, w))
  }

  // Any sequence of transactions of runDue, failed ones included, and of pumps, results, cancellations, manual work,
  // crashes and restarts.
  ghost predicate IsRun(schedules: seq<Schedule>, history: seq<State>) {
    history != [] && forall i | 0 <= i < |history| - 1 :: Next(schedules, history[i], history[i + 1])
  }

  function CountOf(x: State, k: nat): nat
    requires k < |x.jobs|
  {
    Counted(x.world.table, x.events, x.jobs[k].id)
  }

  // Occurrences that next_run_at of job k has passed on the way from x to y.
  ghost function Passed(s: Schedule, x: State, y: State, k: nat): set<int>
    requires k < |x.jobs| && k < |y.jobs| && x.jobs[k].next.Some? && y.jobs[k].next.Some?
  {
    Between(s, x.jobs[k].zone, x.jobs[k].next.value, y.jobs[k].next.value)
  }

  // The step books job k after a sweep that the bound ended.
  ghost predicate CutShort(schedules: seq<Schedule>, x: State, y: State, k: nat) {
    exists now, startup, w :: Books(schedules, x, y, k, now, startup, w) && w.bounded
  }

  // Job k after a step: its count has grown by what was passed, or by less if the bound ended the sweep.
  ghost predicate Accounted(s: Schedule, x: State, y: State, k: nat, short: bool)
    requires k < |x.jobs| && k < |y.jobs|
  {
    && y.jobs[k] == x.jobs[k].(next := y.jobs[k].next)
    && (x.jobs[k].next.Some? ==>
          && y.jobs[k].next.Some? && x.jobs[k].next.value <= y.jobs[k].next.value
          && if short then CountOf(y, k) < CountOf(x, k) + |Passed(s, x, y, k)|
             else CountOf(y, k) == CountOf(x, k) + |Passed(s, x, y, k)|)
  }

  lemma NothingBetween(s: Schedule, zone: Zone, a: int)
    ensures Between(s, zone, a, a) == {}
  {
  }

  lemma Unmoved(s: Schedule, x: State, y: State, k: nat)
    requires k < |x.jobs| && k < |y.jobs| && y.jobs[k] == x.jobs[k] && CountOf(y, k) == CountOf(x, k)
    ensures Accounted(s, x, y, k, false)
  {
    hide Between;
    if x.jobs[k].next.Some? { NothingBetween(s, x.jobs[k].zone, x.jobs[k].next.value); }
  }

  lemma ActCounts(schedules: seq<Schedule>, x: State, y: State, a: Action, k: nat)
    requires Consistent(schedules, x) && Acts(x, y, a) && k < |x.jobs|
    ensures Accounted(schedules[k], x, y, k, false) && Unbooked(y, k)
  {
    hide WorldOk, Do, Accounted, Between, AllBefore, JobOk;
    var j := x.jobs[k];
    assert Unbooked(x, k);
    OtherStepsCountNothing(x.world, a, j.id);
    Unmoved(schedules[k], x, y, k);
  }

  lemma FailCounts(schedules: seq<Schedule>, x: State, y: State, f: nat, k: nat)
    requires Consistent(schedules, x) && Fails(x, y, f) && k < |x.jobs|
    ensures Accounted(schedules[k], x, y, k, false) && Unbooked(y, k)
  {
    hide WorldOk, Accounted, Between, AllBefore, JobOk;
    assert Unbooked(x, k);
    FailureCountsNothing(x.world.table, x.events, x.jobs[f].id);
    Unmoved(schedules[k], x, y, k);
  }

  // The booked job itself.
  lemma BookCountsOwn(schedules: seq<Schedule>, x: State, y: State, k: nat, now: int, startup: bool, w: Sweep)
    requires Consistent(schedules, x) && Books(schedules, x, y, k, now, startup, w)
    ensures Accounted(schedules[k], x, y, k, w.bounded) && Unbooked(y, k) && JobOk(schedules[k], y.jobs[k])
  {
    hide WorldOk, Do, AllBefore, Booked, Counted, Reads, Clock, Visible, MinutesAdvance, Fires, Admits;
    var j := x.jobs[k];
    assert Unbooked(x, k) && JobOk(schedules[k], j);
    BookedCounts(j, startup, w, x.world.table, x.events, y.world.table, y.events);
    BetweenGap(schedules[k], j.zone, j.next.value, now, w.following);
  }

  // All other jobs.
  lemma BookCountsOther(schedules: seq<Schedule>, x: State, y: State, b: nat, now: int, startup: bool, w: Sweep, k: nat)
    requires Consistent(schedules, x) && Books(schedules, x, y, b, now, startup, w) && k < |x.jobs| && k != b
    ensures Accounted(schedules[k], x, y, k, false) && Unbooked(y, k)
  {
    hide WorldOk, Do, AllBefore, Booked, Counted, JobOk, Accounted, Between, Admits;
    var j := x.jobs[b];
    assert x.jobs[k].id != j.id;
    assert Unbooked(x, b) && Unbooked(x, k);
    BookedCounts(j, startup, w, x.world.table, x.events, y.world.table, y.events);
    Unmoved(schedules[k], x, y, k);
  }

  lemma BookKeepsWorld(schedules: seq<Schedule>, x: State, y: State, k: nat, now: int, startup: bool, w: Sweep)
    requires WorldOk(x.world) && Books(schedules, x, y, k, now, startup, w)
    ensures WorldOk(y.world)
  {
    hide WorldOk, Do, Booked, SweepOf, OnlyMissed;
    if !(Overlaps(x.world.table, x.jobs[k].id) && !x.jobs[k].queues) {
      DoKeeps(x.world, Admission(x.jobs[k], startup, now));
      OnlyMissedKeeps(Do(x.world, Admission(x.jobs[k], startup, now)), y.world.table);
    }
  }

  // Every step keeps the state consistent, and accounts for what it passes: in full, unless it is cut short.
  lemma StepAccounts(schedules: seq<Schedule>, x: State, y: State)
    requires Consistent(schedules, x) && Next(schedules, x, y)
    ensures Consistent(schedules, y) && |y.jobs| == |x.jobs|
    ensures forall k | 0 <= k < |x.jobs| :: Accounted(schedules[k], x, y, k, CutShort(schedules, x, y, k))
  {
    hide WorldOk, Do, Books, JobOk, Accounted, Unbooked;
    if a :| Acts(x, y, a) {
      DoKeeps(x.world, a);
      forall k | 0 <= k < |x.jobs| ensures Accounted(schedules[k], x, y, k, false) && Unbooked(y, k) {
        ActCounts(schedules, x, y, a, k);
      }
    } else if f :| Fails(x, y, f) {
      forall k | 0 <= k < |x.jobs| ensures Accounted(schedules[k], x, y, k, false) && Unbooked(y, k) {
        FailCounts(schedules, x, y, f, k);
      }
    } else {
      var b, now, startup, w :| Books(schedules, x, y, b, now, startup, w);
      BookKeepsState(schedules, x, y, b, now, startup, w);
    }
    forall k | 0 <= k < |x.jobs| ensures Accounted(schedules[k], x, y, k, CutShort(schedules, x, y, k)) {
      ShortIfBounded(schedules, x, y, k);
    }
  }

  lemma BookKeepsState(schedules: seq<Schedule>, x: State, y: State, b: nat, now: int, startup: bool, w: Sweep)
    requires Consistent(schedules, x) && Books(schedules, x, y, b, now, startup, w)
    ensures Consistent(schedules, y) && |y.jobs| == |x.jobs|
    ensures forall k | 0 <= k < |x.jobs| :: Accounted(schedules[k], x, y, k, k == b && w.bounded)
  {
    hide WorldOk, Do, JobOk, Accounted, Unbooked, Booked, SweepOf, Admits;
    BookKeepsWorld(schedules, x, y, b, now, startup, w);
    forall k | 0 <= k < |x.jobs|
      ensures Accounted(schedules[k], x, y, k, k == b && w.bounded) && Unbooked(y, k) && JobOk(schedules[k], y.jobs[k])
    {
      if k == b {
        BookCountsOwn(schedules, x, y, b, now, startup, w);
      } else {
        BookCountsOther(schedules, x, y, b, now, startup, w, k);
      }
    }
  }

  // A step cannot be both cut short and complete.
  lemma ShortIfBounded(schedules: seq<Schedule>, x: State, y: State, k: nat)
    requires Consistent(schedules, x) && k < |x.jobs| == |y.jobs|
    requires Accounted(schedules[k], x, y, k, false) || CutShort(schedules, x, y, k)
    ensures Accounted(schedules[k], x, y, k, CutShort(schedules, x, y, k))
  {
    hide WorldOk, Do, JobOk, Unbooked, Books, Accounted;
    if CutShort(schedules, x, y, k) {
      var now, startup, w :| Books(schedules, x, y, k, now, startup, w) && w.bounded;
      BookCountsOwn(schedules, x, y, k, now, startup, w);
    }
  }

  ghost predicate EverCutShort(schedules: seq<Schedule>, history: seq<State>, k: nat) {
    exists i | 0 <= i < |history| - 1 :: CutShort(schedules, history[i], history[i + 1], k)
  }

  lemma AccountsJoin(s: Schedule, x: State, y: State, z: State, k: nat, first: bool, second: bool)
    requires k < |x.jobs| && k < |y.jobs| && k < |z.jobs|
    requires Accounted(s, x, y, k, first) && Accounted(s, y, z, k, second)
    ensures Accounted(s, x, z, k, first || second)
  {
    hide Between, Counted;
    if x.jobs[k].next.Some? {
      BetweenJoins(s, x.jobs[k].zone, x.jobs[k].next.value, y.jobs[k].next.value, z.jobs[k].next.value);
    }
  }

  // Over every run the rows and events of a job count each occurrence that its next_run_at has moved past, and each
  // once: none is counted twice, and none is lost exactly when the bound ended no sweep of that job.
  lemma {:induction false} EachOccurrenceOnce(schedules: seq<Schedule>, history: seq<State>, k: nat)
    requires IsRun(schedules, history) && Consistent(schedules, history[0]) && k < |history[0].jobs|
    ensures var x, y := history[0], history[|history| - 1];
            && Consistent(schedules, y) && |y.jobs| == |x.jobs|
            && Accounted(schedules[k], x, y, k, EverCutShort(schedules, history, k))
    decreases |history|
  {
    hide Consistent, Next, Accounted, CutShort, Counted, Between;
    var n := |history| - 1;
    SameLength(schedules, history[0]);
    if n == 0 {
      Unmoved(schedules[k], history[0], history[0], k);
    } else {
      var shorter := history[..n];
      forall i | 0 <= i < |shorter| - 1 ensures Next(schedules, shorter[i], shorter[i + 1]) {
        assert Next(schedules, history[i], history[i + 1]);
      }
      EachOccurrenceOnce(schedules, shorter, k);
      SameLength(schedules, history[n - 1]);
      StepAccounts(schedules, history[n - 1], history[n]);
      AccountsJoin(schedules[k], history[0], history[n - 1], history[n], k,
                   EverCutShort(schedules, shorter, k), CutShort(schedules, history[n - 1], history[n], k));
      OneMoreStep(schedules, history, k);
    }
  }

  lemma SameLength(schedules: seq<Schedule>, x: State)
    requires Consistent(schedules, x)
    ensures |schedules| == |x.jobs|
  {
  }

  lemma OneMoreStep(schedules: seq<Schedule>, history: seq<State>, k: nat)
    requires |history| >= 2
    ensures var n := |history| - 1;
            EverCutShort(schedules, history, k)
            == (EverCutShort(schedules, history[..n], k) || CutShort(schedules, history[n - 1], history[n], k))
  {
    hide CutShort;
    var n := |history| - 1;
    if i :| 0 <= i < n && CutShort(schedules, history[i], history[i + 1], k) {
      if i < n - 1 { assert CutShort(schedules, history[..n][i], history[..n][i + 1], k); }
    }
    if i :| 0 <= i < n - 1 && CutShort(schedules, history[..n][i], history[..n][i + 1], k) {
      assert CutShort(schedules, history[i], history[i + 1], k);
    }
  }

  lemma LongerRun(schedules: seq<Schedule>, history: seq<State>, y: State)
    requires IsRun(schedules, history) && Next(schedules, history[|history| - 1], y)
    ensures IsRun(schedules, history + [y])
  {
    hide Next;
    var longer := history + [y];
    forall i | 0 <= i < |longer| - 1 ensures Next(schedules, longer[i], longer[i + 1]) {
      if i < |history| - 1 { assert Next(schedules, history[i], history[i + 1]); }
    }
  }

  // ---------------------------------------------------------------- the scheduler object

  class Scheduler {
    const service: Service
    var jobs: seq<Job>
    var events: seq<Event>

    constructor (service: Service, jobs: seq<Job>)
      ensures this.service == service && this.jobs == jobs && events == []
    {
      this.service := service;
      this.jobs := jobs;
      events := [];
    }

    function Now(): State
      reads this, service, service.store
    {
      State(service.Snapshot(), jobs, events)
    }

    method Admit(j: Job, now: int, startup: bool, count: nat) returns (id: Option<nat>)
      requires j.requests.Some? && j.requests.value != []
      modifies service`config, service`connections, service.store
      ensures id.None? ==> service.Snapshot() == old(service.Snapshot()) && !UniqueRequests(j.requests.value)
      ensures id.Some? ==> Admitted(j.id, j.next, startup, count, old(service.store.executions),
                                    service.store.executions, id.value)
      ensures id.Some? ==> Admits(j, startup, now, old(service.Snapshot()), service.Snapshot())
    {
      hide WorldOk, Do, UniqueRequests;
      ghost var x := service.Snapshot();
      EnqueuedTable(x, Admission(j, startup, now));
      id := service.Enqueue(j.id, if startup then Catchup else Scheduled, j.next, j.requests.value, now);
      ghost var v := service.Snapshot();
      assert v == Do(x, Admission(j, startup, now));
      if id.Some? {
        service.store.executions := service.store.executions[id.value := service.store.executions[id.value].(
          missed := if startup then count else if count == 0 then 0 else count - 1)];
        assert id.value == |x.table| ==> service.store.executions[..|x.table|] == x.table;
      }
    }

    // One iteration of runDue's loop up to its commit; false when it throws and is rolled back.
    method RunJob(k: nat, ghost schedules: seq<Schedule>, now: int, startup: bool)
      returns (committed: bool, ghost w: Sweep)
      requires k < |jobs| == |schedules| && JobDue(jobs[k], now) && JobOk(schedules[k], jobs[k])
      modifies this`jobs, this`events, service`config, service`connections, service.store
      ensures !committed ==> MayThrow(old(jobs[k]), schedules[k], now) && Now() == old(Now())
      ensures committed ==> Books(schedules, old(Now()), Now(), k, now, startup, w)
    {
      hide Fires, Visible, MinutesAdvance, Reads, SweepOf, Clock, Admitted, Unmatchable, Exhausted, UniqueRequests, Do,
           OnlyMissed;
      ghost var s := schedules[k];
      var j := jobs[k];
      committed, w := false, Sweep(0, 0, 0, false);
      FiringFieldsMatch(j.fields, s, j.zone, j.next.value);
      var read := ReadSchedule(j.fields);
      assert read.Ok?;
      SameFirings(j.fields, s, read.value, j.zone);
      var sweep := SweepOccurrences(read.value, j.zone, j.next.value, now);
      if sweep.None? {
        SameExhaustion(s, read.value, j.zone, j.next.value, now);
        return;
      }
      w := sweep.value;
      SameSweep(s, read.value, j.zone, j.next.value, now, w);
      if !Overlaps(service.store.executions, j.id) || j.queues {
        if j.requests.None? { return; }
        var id := Admit(j, now, startup, sweep.value.count);
        if id.None? { return; }
      } else {
        var t := service.store.executions;
        var i: nat :| i < |t| && t[i].job == j.id && Unfinished(t[i]);
        var event := OverlapSkipped(j.id, i, j.next.value, sweep.value.last, sweep.value.count);
        assert Skipped(j.id, j.next.value, w, t, events, events + [event], i);
        events := events + [event];
      }
      jobs := jobs[k := j.(next := Some(sweep.value.following))];
      committed := true;
    }

    // One iteration with its try and catch: a committed transaction, or a logged failure.
    method TryJob(k: nat, ghost schedules: seq<Schedule>, now: int, startup: bool)
      requires Consistent(schedules, Now()) && k < |jobs| && JobDue(jobs[k], now)
      modifies this`jobs, this`events, service`config, service`connections, service.store
      ensures Next(schedules, old(Now()), Now())
      ensures |jobs| == |old(jobs)| && forall i | 0 <= i < |jobs| && i != k :: jobs[i] == old(jobs[i])
      ensures Handled(old(jobs[k]), schedules, now, jobs[k], k, events)
      ensures forall e | e in old(events) :: e in events
    {
      hide Consistent, Next, Books, MayThrow, Fires, JobDue, JobOk;
      ghost var x := Now();
      JobOfState(schedules, x, k);
      var committed, w := RunJob(k, schedules, now, startup);
      if committed {
        BookingIsStep(schedules, x, Now(), k, now, startup, w);
      } else {
        events := events + [EnqueueFailed(jobs[k].id)];
        FailureIsStep(schedules, x, Now(), k);
      }
    }

    // rows is the result of the query: the due jobs, in the order of next_run_at. The call is a run of the model, one
    // transaction after the other. Afterwards a job is still due only if its transaction threw and that is logged; so
    // a second call at the same time only tries those again.
    method RunDue(rows: seq<nat>, ghost schedules: seq<Schedule>, now: int, startup: bool)
      returns (ghost history: seq<State>)
      requires Consistent(schedules, Now())
      requires forall k | 0 <= k < |jobs| :: k in rows <==> JobDue(jobs[k], now)
      requires forall i | 0 <= i < |rows| :: rows[i] < |jobs|
      requires forall i, k | 0 <= i < k < |rows| :: rows[i] != rows[k]
      modifies this`jobs, this`events, service`config, service`connections, service.store
      ensures IsRun(schedules, history) && history[0] == old(Now()) && history[|history| - 1] == Now()
      ensures Consistent(schedules, Now()) && |jobs| == |old(jobs)|
      ensures old(service.stopped) ==> Now() == old(Now())
      ensures forall k | 0 <= k < |jobs| && k !in rows :: jobs[k] == old(jobs[k])
      ensures !old(service.stopped) ==>
                forall k | 0 <= k < |jobs| && k in rows :: Handled(old(jobs[k]), schedules, now, jobs[k], k, events)
      ensures !old(service.stopped) ==>
                forall k | 0 <= k < |jobs| && old(jobs[k]).enabled && old(jobs[k]).next.Some?
                           && old(jobs[k]).next.value <= now ::
                  EnqueueFailed(old(jobs[k]).id) in events || (jobs[k].next.Some? && jobs[k].next.value > now)
    {
      hide Consistent, Next, Handled, JobDue, JobOk;
      history := [Now()];
      if service.stopped { return; }
      ghost var jobs0 := jobs;
      var i := 0;
      while i < |rows|
        invariant 0 <= i <= |rows| && |jobs| == |jobs0|
        invariant IsRun(schedules, history) && history[0] == old(Now()) && history[|history| - 1] == Now()
        invariant Consistent(schedules, Now())
        invariant forall k | 0 <= k < |jobs| && k !in rows[..i] :: jobs[k] == jobs0[k]
        invariant forall k | 0 <= k < |jobs| && k in rows[..i] :: Handled(jobs0[k], schedules, now, jobs[k], k, events)
      {
        var k := rows[i];
        ghost var x, before := Now(), events;
        assert k !in rows[..i] && k in rows;
        assert rows[..i + 1] == rows[..i] + [k];
        TryJob(k, schedules, now, startup);
        HandledStays(schedules, now, before, events);
        StepAccounts(schedules, x, Now());
        LongerRun(schedules, history, Now());
        history := history + [Now()];
        i := i + 1;
      }
      assert rows[..i] == rows;
      forall k | 0 <= k < |jobs| && jobs0[k].enabled && jobs0[k].next.Some? && jobs0[k].next.value <= now
        ensures EnqueueFailed(jobs0[k].id) in events || (jobs[k].next.Some? && jobs[k].next.value > now)
      {
        assert k in rows by { DueMeans(jobs0[k], now); }
        HandledMeans(jobs0[k], schedules, now, jobs[k], k, events);
      }
    }
  }

  lemma DueMeans(j: Job, now: int)
    ensures JobDue(j, now) <==> j.enabled && j.next.Some? && j.next.value <= now
  {
  }

  lemma HandledMeans(j: Job, schedules: seq<Schedule>, now: int, k: Job, at: nat, events: seq<Event>)
    requires Handled(j, schedules, now, k, at, events) && j.enabled
    ensures EnqueueFailed(j.id) in events || (k.next.Some? && k.next.value > now)
  {
    hide Fires;
  }

  lemma HandledStays(schedules: seq<Schedule>, now: int, events: seq<Event>, more: seq<Event>)
    requires forall e | e in events :: e in more
    ensures forall j, k, at :: Handled(j, schedules, now, k, at, events) ==> Handled(j, schedules, now, k, at, more)
  {
  }

  lemma JobOfState(schedules: seq<Schedule>, x: State, k: nat)
    requires Consistent(schedules, x) && k < |x.jobs|
    ensures |schedules| == |x.jobs| && JobOk(schedules[k], x.jobs[k])
  {
  }

  // The job moved on past now, or its transaction threw: then it is unchanged, and the failure is on record.
  ghost predicate Handled(j: Job, schedules: seq<Schedule>, now: int, k: Job, at: nat, events: seq<Event>) {
    at < |schedules| && k == j.(next := k.next) &&
    if JobDue(k, now) then k == j && EnqueueFailed(j.id) in events && MayThrow(j, schedules[at], now)
    else k.next.Some? && forall t | now < t < k.next.value :: !Fires(schedules[at], k.zone, t)
  }

  lemma BookingIsStep(schedules: seq<Schedule>, x: State, y: State, k: nat, now: int, startup: bool, w: Sweep)
    requires Books(schedules, x, y, k, now, startup, w)
    ensures Next(schedules, x, y)
    ensures |y.jobs| == |x.jobs| && forall i | 0 <= i < |x.jobs| && i != k :: y.jobs[i] == x.jobs[i]
    ensures Handled(x.jobs[k], schedules, now, y.jobs[k], k, y.events)
    ensures forall e | e in x.events :: e in y.events
  {
    hide Admits, Fires, Admitted;
  }

  lemma FailureIsStep(schedules: seq<Schedule>, x: State, y: State, k: nat)
    requires Fails(x, y, k)
    ensures Next(schedules, x, y) && EnqueueFailed(x.jobs[k].id) in y.events
  {
  }

  // What it takes for the transaction of a due job to throw: a schedule that runs out, or connections and targets
  // that cannot be read or name a pair twice.
  ghost predicate MayThrow(j: Job, s: Schedule, now: int) {
    j.requests.None? || !UniqueRequests(j.requests.value)
    || (j.next.Some? && exists t :: j.next.value <= t <= now && Exhausted(s, j.zone, t))
  }

  // A schedule that has fired has five fields, and each of them allows something.
  lemma FiringFieldsMatch(fields: seq<Field>, s: Schedule, zone: Zone, t: int)
    requires Reads(fields, s) && Fires(s, zone, t)
    ensures |fields| == 5 && !Unmatchable(fields)
  {
    EmptyIffNothing(fields[0], 0, 59, s.minutes);
    EmptyIffNothing(fields[1], 0, 23, s.hours);
    EmptyIffNothing(fields[2], 1, 31, s.days);
    EmptyIffNothing(fields[3], 1, 12, s.months);
    EmptyIffNothing(fields[4], 0, 6, s.weekdays);
  }

  lemma SameExhaustion(a: Schedule, b: Schedule, zone: Zone, next: int, now: int)
    requires forall t :: Fires(a, zone, t) <==> Fires(b, zone, t)
    requires exists t :: next <= t <= now && Exhausted(b, zone, t)
    ensures exists t :: next <= t <= now && Exhausted(a, zone, t)
  {
    hide Fires, LocalDay;
    var t :| next <= t <= now && Exhausted(b, zone, t);
    assert Exhausted(a, zone, t);
  }

  lemma FailureCountsNothing(t: Table, events: seq<Event>, job: string)
    ensures forall id :: Counted(t, events + [EnqueueFailed(job)], id) == Counted(t, events, id)
  {
    forall id ensures EventCount(events + [EnqueueFailed(job)], id) == EventCount(events, id) {
      AppendEventCounts(events, EnqueueFailed(job), id);
    }
  }

  lemma SameFirings(fields: seq<Field>, a: Schedule, b: Schedule, zone: Zone)
    requires Reads(fields, a) && Reads(fields, b)
    ensures forall t :: Fires(a, zone, t) <==> Fires(b, zone, t)
  {
    forall t ensures Fires(a, zone, t) <==> Fires(b, zone, t) {
      var l := LocalOf(zone, t);
      var d := LocalDay(zone, t);
      assert l.hour in a.hours <==> l.hour in b.hours;
      assert l.minute in a.minutes <==> l.minute in b.minutes;
      assert DayMatches(a, d) <==> DayMatches(b, d);
    }
  }

  lemma SameSweep(a: Schedule, b: Schedule, zone: Zone, next: int, now: int, w: Sweep)
    requires forall t :: Fires(a, zone, t) <==> Fires(b, zone, t)
    requires SweepOf(b, zone, next, now, w)
    ensures SweepOf(a, zone, next, now, w)
  {
    assert Between(a, zone, next, now + 1) == Between(b, zone, next, now + 1);
  }
}
