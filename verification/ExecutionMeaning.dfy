/** What the rows of the queue tables say, in terms of each other: the status of an execution, what becomes of an
    attempt, and what an admission stores. */
module ExecutionMeaning {
  import opened ExecutionTypes
  import opened Wrappers
  import opened ExecutionStore
  import opened ExecutionInvariant
  import opened Dispatcher
  import opened ExecutionWorld

  // ---------------------------------------------------------------- the status of an execution

  predicate Every(pairs: seq<Pair>, among: set<Status>) { forall i | 0 <= i < |pairs| :: pairs[i].status in among }

  predicate Any(pairs: seq<Pair>, among: set<Status>) { exists i | 0 <= i < |pairs| :: pairs[i].status in among }

  // The status that can be read off the pairs of an execution.
  predicate Says(status: Status, pairs: seq<Pair>) {
    var ended := Every(pairs, {Success, Failed, Cancelled, Interrupted, NotStarted});
    match status
    case Success => Every(pairs, {Success})
    case PartialFailure => ended && Any(pairs, {Success}) && !Every(pairs, {Success})
    case Failed => ended && !Any(pairs, {Success}) && (Any(pairs, {Failed}) || !Any(pairs, {Interrupted}))
    case Interrupted => ended && !Any(pairs, {Success, Failed}) && Any(pairs, {Interrupted})
    case Running => Any(pairs, {Running})
    case Retrying => !Any(pairs, {Running}) && Any(pairs, {RetryWait})
    case Queued => !Any(pairs, {Running, RetryWait}) && Any(pairs, {Queued})
    case CancelRequested => Any(pairs, {CancelRequested})
    case Cancelled => ended
    case _ => false
  }

  lemma SummarySays(pairs: seq<Pair>)
    requires pairs != [] && !Any(pairs, {CancelRequested})
             && forall p | p in pairs :: p.status !in {Retrying, PartialFailure}
    ensures Says(Summary(pairs), pairs)
  {
    Bridge(pairs);
  }

  lemma Bridge(pairs: seq<Pair>)
    ensures AllTerminal(pairs) <==> Every(pairs, {Success, Failed, Cancelled, Interrupted, NotStarted})
    ensures forall s :: Has(pairs, s) <==> Any(pairs, {s})
    ensures (forall p | p in pairs :: p.status == Success) <==> Every(pairs, {Success})
    ensures Any(pairs, {Success, Failed}) <==> Any(pairs, {Success}) || Any(pairs, {Failed})
    ensures Any(pairs, {Running, RetryWait}) <==> Any(pairs, {Running}) || Any(pairs, {RetryWait})
  {
    forall s ensures Has(pairs, s) <==> Any(pairs, {s}) {
      if Any(pairs, {s}) {
        var i :| 0 <= i < |pairs| && pairs[i].status in {s};
        assert pairs[i] in pairs;
      }
    }
    if AllTerminal(pairs) {
      forall i | 0 <= i < |pairs| ensures Terminal(pairs[i].status) { assert pairs[i] in pairs; }
    }
    if forall p | p in pairs :: p.status == Success {
      forall i | 0 <= i < |pairs| ensures pairs[i].status == Success { assert pairs[i] in pairs; }
    }
  }

  // Of the statuses of an execution that is not being cancelled, its pairs show one at most.
  lemma SaysOne(pairs: seq<Pair>, s: Status, t: Status)
    requires pairs != [] && Says(s, pairs) && Says(t, pairs)
    requires s !in {CancelRequested, Cancelled} && t !in {CancelRequested, Cancelled}
    ensures s == t
  {
    hide Every, Any, Says;
    Exclusive(pairs);
    Spelled(s, pairs);
    Spelled(t, pairs);
  }

  // The conditions in terms of eight facts about the pairs.
  lemma Spelled(s: Status, pairs: seq<Pair>)
    requires Says(s, pairs) && s !in {CancelRequested, Cancelled}
    ensures var ended := Every(pairs, {Success, Failed, Cancelled, Interrupted, NotStarted});
            || (s == Success && Every(pairs, {Success}))
            || (s == PartialFailure && ended && Any(pairs, {Success}) && !Every(pairs, {Success}))
            || (s == Failed && ended && !Any(pairs, {Success}) && (Any(pairs, {Failed}) || !Any(pairs, {Interrupted})))
            || (s == Interrupted && ended && !Any(pairs, {Success, Failed}) && Any(pairs, {Interrupted}))
            || (s == Running && Any(pairs, {Running}))
            || (s == Retrying && !Any(pairs, {Running}) && Any(pairs, {RetryWait}))
            || (s == Queued && !Any(pairs, {Running, RetryWait}) && Any(pairs, {Queued}))
  {
  }

  lemma Exclusive(pairs: seq<Pair>)
    requires pairs != []
    ensures var ended := Every(pairs, {Success, Failed, Cancelled, Interrupted, NotStarted});
            && (Every(pairs, {Success}) ==> ended && Any(pairs, {Success}))
            && (ended ==> !Any(pairs, {Running}) && !Any(pairs, {RetryWait}) && !Any(pairs, {Queued}))
            && (Any(pairs, {Success, Failed}) <==> Any(pairs, {Success}) || Any(pairs, {Failed}))
            && (Any(pairs, {Running, RetryWait}) <==> Any(pairs, {Running}) || Any(pairs, {RetryWait}))
  {
    if Every(pairs, {Success}) { assert pairs[0].status in {Success}; }
    Bridge(pairs);
  }

  // The status of an execution is the one that its pairs show. When it is being cancelled, nothing waits or runs
  // except attempts that were asked to stop.
  lemma StatusMeans(e: Execution, s: Status)
    requires ExecutionOk(e)
    ensures e.status !in {CancelRequested, Cancelled} && s !in {CancelRequested, Cancelled} ==>
              (e.status == s <==> Says(s, e.pairs))
    ensures e.status in {CancelRequested, Cancelled} ==>
              && !Any(e.pairs, {Queued, RetryWait, Running})
              && (e.status == CancelRequested <==> Any(e.pairs, {CancelRequested}))
              && (e.status == Cancelled <==> Every(e.pairs, {Success, Failed, Cancelled, Interrupted, NotStarted}))
  {
    hide Says, Summary, AllTerminal;
    if e.status !in {CancelRequested, Cancelled} {
      StatusIsSummary(e);
      SummarySays(e.pairs);
      if s !in {CancelRequested, Cancelled} && Says(s, e.pairs) { SaysOne(e.pairs, s, e.status); }
    } else {
      CancellingStatus(e);
    }
  }

  lemma StatusIsSummary(e: Execution)
    requires ExecutionOk(e) && e.status !in {CancelRequested, Cancelled}
    ensures e.status == Summary(e.pairs) && e.pairs != [] && !Any(e.pairs, {CancelRequested})
    ensures forall p | p in e.pairs :: p.status !in {Retrying, PartialFailure}
  {
    hide Summary;
  }

  lemma CancellingStatus(e: Execution)
    requires ExecutionOk(e) && e.status in {CancelRequested, Cancelled}
    ensures !Any(e.pairs, {Queued, RetryWait, Running})
    ensures e.status == CancelRequested <==> Any(e.pairs, {CancelRequested})
    ensures e.status == Cancelled <==> Every(e.pairs, {Success, Failed, Cancelled, Interrupted, NotStarted})
  {
    hide Summary;
    Bridge(e.pairs);
  }

  // So it is for every execution that a new installation ever has.
  lemma ReachableStatusMeans(
    config: Config, connections: map<string, Connection>, actions: seq<Action>, k: nat, s: Status)
    requires k < |RunAll(World([], map[], config, connections, false), actions).table|
    ensures var e := RunAll(World([], map[], config, connections, false), actions).table[k];
            && (e.status !in {CancelRequested, Cancelled} && s !in {CancelRequested, Cancelled} ==>
                  (e.status == s <==> Says(s, e.pairs)))
            && (e.status in {CancelRequested, Cancelled} ==>
                  && !Any(e.pairs, {Queued, RetryWait, Running})
                  && (e.status == CancelRequested <==> Any(e.pairs, {CancelRequested})))
  {
    hide Says, Any, Every, RunAll;
    ReachableIsOk(config, connections, actions);
    var x := RunAll(World([], map[], config, connections, false), actions);
    RowOfWorld(x, k);
    StatusMeans(x.table[k], s);
  }

  lemma RowOfWorld(x: World, k: nat)
    requires WorldOk(x) && k < |x.table|
    ensures ExecutionOk(x.table[k])
  {
    hide Live, GroupsAgree, Backed, ExecutionOk;
  }

  // ---------------------------------------------------------------- the end of an attempt

  // What becomes of the attempt in progress. A failure is tried again, after the delay of the pair, as long as the
  // attempts made do not exceed the retries allowed; nothing else is. An attempt that was asked to stop counts as
  // cancelled unless it succeeded all the same. No other pair changes.
  lemma FinishMeans(e: Execution, c: Context, outcome: Outcome, now: int)
    requires ExecutionOk(e) && Issued(e, c)
    requires var p := e.pairs[c.ref.pair];
             p.status in {Running, CancelRequested} && c.attempt == |p.attempts| - 1
    ensures var p, pairs := e.pairs[c.ref.pair], Apply(e, Finish(c, outcome, now)).pairs;
            && |pairs| == |e.pairs| && (forall i | 0 <= i < |pairs| && i != c.ref.pair :: pairs[i] == e.pairs[i])
            && var q := pairs[c.ref.pair];
               && |q.attempts| == |p.attempts| && q.attempts[..c.attempt] == p.attempts[..c.attempt]
               && q.attempts[c.attempt].run == Some(outcome.run) && q.attempts[c.attempt].finishedAt == Some(now)
               && q.attempts[c.attempt].status
                  == (if p.status == CancelRequested && outcome.status != Success then Cancelled else outcome.status)
               && if p.status == Running && outcome.status == Failed && |p.attempts| <= p.retryCount then
                    && q.status == RetryWait && q.waitReason == Some(RetryDelay) && q.finishedAt == None
                    && q.nextAttemptAt == Some(now + if p.retryDelay < 0 then 0 else 1000 * p.retryDelay)
                  else
                    && q.status == q.attempts[c.attempt].status && q.waitReason == None
                    && q.finishedAt == Some(now) && q.nextAttemptAt == None
  {
    hide Summary, AllTerminal, Aggregate;
    assert PairOk(e.pairs[c.ref.pair]);
  }

  // A pair that waits for its retry starts from the end of its delay on, and not before.
  lemma RetryStartsWhenDue(e: Execution, i: nat, now: int)
    requires ExecutionOk(e) && e.status in {Running, Retrying, Queued}
    requires i < |e.pairs| && e.pairs[i].status == RetryWait
    ensures e.pairs[i].nextAttemptAt.Some?
    ensures var f := Apply(e, Start(i, now));
            if now < e.pairs[i].nextAttemptAt.value then f == e
            else
              && f.status == Running && f.pairs[i].status == Running && f.pairs[i].waitReason == None
              && |f.pairs[i].attempts| == |e.pairs[i].attempts| + 1
  {
    hide Summary, AllTerminal, Aggregate, MaxNumber;
    assert PairOk(e.pairs[i]);
  }

  // ---------------------------------------------------------------- cancellation

  // Cancelling an execution that has not finished takes its waiting pairs out and asks its running ones to stop, and
  // leaves the others; one that has finished stays as it is.
  lemma CancelMeans(e: Execution, now: int)
    requires ExecutionOk(e)
    ensures var f := Apply(e, Step.Cancel(now));
            if e.finishedAt.Some? then f == e
            else
              && |f.pairs| == |e.pairs|
              && (forall i | 0 <= i < |e.pairs| ::
                    var p, q := e.pairs[i], f.pairs[i];
                    if p.status in {Queued, RetryWait} then
                      q == p.(status := NotStarted, finishedAt := Some(now), nextAttemptAt := None, waitReason := None)
                    else if p.status == Running then q == p.(status := CancelRequested)
                    else q == p)
              && (if Any(e.pairs, {Running, CancelRequested}) then f.status == CancelRequested && f.finishedAt == None
                  else f.status == Cancelled && f.finishedAt == Some(now))
  {
    hide PairOk, Summary;
    FinishedIffPairsTerminal(e);
    AnyIsActive(e.pairs);
  }

  lemma AnyIsActive(pairs: seq<Pair>)
    ensures AnyActive(pairs) <==> Any(pairs, {Running, CancelRequested})
  {
    if Any(pairs, {Running, CancelRequested}) {
      var i :| 0 <= i < |pairs| && pairs[i].status in {Running, CancelRequested};
      assert pairs[i] in pairs;
    }
  }

  // ---------------------------------------------------------------- admission

  // An admission stores one queued execution, with one queued pair for each request: its columns are those of the
  // request, and its group is the present one of the connection.
  lemma AdmissionMeans(s: World, a: Action)
    requires a.Enqueue? && a.requests != [] && !AlreadyAdmitted(s.table, a.job, a.scheduledFor)
    requires UniqueRequests(a.requests)
    ensures var t := Do(s, a).table;
            && |t| == |s.table| + 1 && t[..|s.table|] == s.table
            && var e := t[|s.table|];
               && e.job == a.job && e.trigger == a.trigger && e.scheduledFor == a.scheduledFor
               && e.status == Queued && e.queuedAt == a.now && e.startedAt == None && e.finishedAt == None
               && e.priority == 0 && (forall f | f in s.table :: f.sequence < e.sequence)
               && |e.pairs| == |a.requests|
               && forall k | 0 <= k < |e.pairs| ::
                    var p, q := e.pairs[k], a.requests[k];
                    && p.connection == q.connection && p.target == q.target && p.required == q.required
                    && p.retryCount == q.retryCount && p.retryDelay == q.retryDelay
                    && p.group == GroupOf(s.connections, q.connection)
                    && p.status == Queued && p.waitReason == None && p.nextAttemptAt == None && p.attempts == []
  {
    hide GroupOf, RegisterAll, GroupCap;
    RegisteringIsInvisible(s, a.requests);
    var selections := Selections(s.connections, a.requests);
    forall i, j | 0 <= i < j < |selections|
      ensures (selections[i].connection, selections[i].target) != (selections[j].connection, selections[j].target)
    {
      assert (a.requests[i].connection, a.requests[i].target) != (a.requests[j].connection, a.requests[j].target);
    }
  }

  // ---------------------------------------------------------------- groups

  lemma BusyWith(t: Table, r: PairRef)
    requires ValidRef(t, r) && !Busy(t, PairAt(t, r).connection)
    ensures PairAt(t, r).status !in {Queued, Running, RetryWait, CancelRequested}
  {
  }

  // An accepted assignment puts exactly the named connections, and no others, under the group; a connection that it
  // takes out goes back to the group of its host and port. No connection with open work changes groups. The group
  // admits as many as was asked for.
  lemma AssignMeans(s: World, ids: set<string>, group: string, concurrency: nat)
    requires MayAssign(s, ids, group, concurrency)
    ensures var v := Do(s, Assign(ids, group, concurrency));
            && group != "" && 1 <= concurrency <= 8
            && group in v.config.groups && v.config.groups[group] == concurrency
            && (forall g | g != group :: (g in v.config.groups <==> g in s.config.groups)
                  && (g in v.config.groups ==> v.config.groups[g] == s.config.groups[g]))
            && v.config.setting == s.config.setting && v.table == s.table && v.workers == s.workers
            && v.connections.Keys == s.connections.Keys
            && (forall id | id in ids :: GroupOf(v.connections, id) == group)
            && (!(AUTOMATIC <= group) ==>
                  forall id | id in s.connections && id !in ids && GroupOf(s.connections, id) == group ::
                    s.connections[id].automatic == group || GroupOf(v.connections, id) == s.connections[id].automatic)
            && (forall id | id in s.connections && id !in ids && GroupOf(s.connections, id) != group ::
                  GroupOf(v.connections, id) == GroupOf(s.connections, id))
            && forall r | ValidRef(s.table, r) && PairAt(s.table, r).connection in s.connections
                 && GroupOf(v.connections, PairAt(s.table, r).connection)
                    != GroupOf(s.connections, PairAt(s.table, r).connection) ::
                 PairAt(s.table, r).status !in {Queued, Running, RetryWait, CancelRequested}
  {
    hide Busy;
    forall r | ValidRef(s.table, r) && PairAt(s.table, r).connection in Changed(s, ids, group)
      ensures PairAt(s.table, r).status !in {Queued, Running, RetryWait, CancelRequested}
    {
      BusyWith(s.table, r);
    }
    forall id | id in ids ensures id in s.connections { assert id in s.connections.Keys; }
  }

  // ---------------------------------------------------------------- the queue

  // A pair may be started: its execution goes on, and it waits.
  predicate MayRun(t: Table, r: PairRef) {
    && r.execution < |t| && r.pair < |t[r.execution].pairs|
    && t[r.execution].status in {Queued, Running, Retrying}
    && t[r.execution].pairs[r.pair].status in {Queued, RetryWait}
  }

  // The queue lists the pairs that may be started, those of higher priority first; among equals those admitted
  // earlier, and those of one execution in the order of their rows.
  lemma QueueMeans(t: Table)
    requires forall i, j | 0 <= i < j < |t| :: t[i].sequence < t[j].sequence
    ensures forall r :: r in ReadyPairs(t) <==> MayRun(t, r)
    ensures var list := ReadyPairs(t);
            && (forall a, b | 0 <= a < b < |list| :: list[a] != list[b])
            && forall a, b | 0 <= a < b < |list| ::
                 && MayRun(t, list[a]) && MayRun(t, list[b])
                 && t[list[a].execution].priority >= t[list[b].execution].priority
                 && (t[list[a].execution].priority == t[list[b].execution].priority ==>
                       || t[list[a].execution].sequence < t[list[b].execution].sequence
                       || (list[a].execution == list[b].execution && list[a].pair < list[b].pair))
  {
    QueueOrder(t);
    var list := ReadyPairs(t);
    assert forall k | 0 <= k < |list| :: list[k] in list;
  }

  // A pump starts no pair past another one of its group that is due and stands before it by priority, or by admission.
  lemma NobodyIsOvertaken(s: World, now: int, lag: nat, a: PairRef, b: PairRef)
    requires WorldOk(s) && !s.stopped && MayRun(s.table, a) && MayRun(s.table, b)
    requires PairAt(s.table, a).group == PairAt(s.table, b).group
    requires PairAt(s.table, a).nextAttemptAt.Some? ==> PairAt(s.table, a).nextAttemptAt.value <= now
    requires var x, y := s.table[a.execution], s.table[b.execution];
             || x.priority > y.priority
             || (x.priority == y.priority && x.sequence < y.sequence)
             || (a.execution == b.execution && a.pair < b.pair)
    requires b in Do(s, Pump(now, lag)).workers
    ensures a in Do(s, Pump(now, lag)).workers
  {
    hide Pumped, GroupsAgree, Backed;
    hide ExecutionOk, Serves;
    PumpRespectsOrder(s.table, s.workers, s.config, now, now + lag, a, b);
  }
}
