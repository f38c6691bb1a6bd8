/** Every operation of the service as one atomic step, and what all runs of them keep. */
module ExecutionWorld {
  import opened ExecutionTypes
  import opened Wrappers
  import opened ExecutionStore
  import opened ExecutionInvariant
  import opened Dispatcher
  import opened Recovery

  // A row of database_connections: the group derived from host and port, and the stored source_group_id.
  datatype Connection = Connection(automatic: string, stored: Option<string>)

  datatype World = World(table: Table, workers: Workers, config: Config, connections: map<string, Connection>,
                         stopped: bool)

  const AUTOMATIC := "host:"

  predicate IsAutomatic(g: string) { AUTOMATIC <= g }

  // A stored group counts unless it is empty or automatic, in which case host and port decide again.
  function GroupOf(connections: map<string, Connection>, id: string): string {
    if id !in connections then "missing:" + id
    else
      var c := connections[id];
      if c.stored.Some? && c.stored.value != "" && !IsAutomatic(c.stored.value) then c.stored.value else c.automatic
  }

  // ---------------------------------------------------------------- group assignment

  // Work that ties a connection to its group.
  predicate Busy(t: Table, id: string) {
    exists e | 0 <= e < |t| :: exists p | 0 <= p < |t[e].pairs| ::
      t[e].pairs[p].connection == id && t[e].pairs[p].status in {Queued, Running, RetryWait, CancelRequested}
  }

  function Removed(s: World, ids: set<string>, group: string): set<string> {
    if IsAutomatic(group) then {}
    else set id | id in s.connections && s.connections[id].stored == Some(group) && id !in ids
  }

  function Changed(s: World, ids: set<string>, group: string): set<string> {
    Removed(s, ids, group) +
    set id | id in ids && id in s.connections && !IsAutomatic(group) && s.connections[id].stored != Some(group)
  }

  // Membership of an automatic group may only be confirmed, never assigned.
  predicate Confirms(connections: map<string, Connection>, id: string, group: string) {
    && id in connections && connections[id].automatic == group
    && (connections[id].stored.Some? && connections[id].stored.value != "" ==>
        IsAutomatic(connections[id].stored.value))
  }

  predicate MayAssign(s: World, ids: set<string>, group: string, concurrency: int) {
    && group != "" && 1 <= concurrency <= 8
    && ids <= s.connections.Keys
    && (IsAutomatic(group) ==> forall id | id in ids :: Confirms(s.connections, id, group))
    && forall id | id in Changed(s, ids, group) :: !Busy(s.table, id)
  }

  function Regrouped(connections: map<string, Connection>, removed: set<string>, ids: set<string>,
                     group: string): map<string, Connection> {
    map id | id in connections ::
      if id in ids then connections[id].(stored := Some(group))
      else if id in removed then connections[id].(stored := None)
      else connections[id]
  }

  function Assigned(s: World, ids: set<string>, group: string, concurrency: nat): World {
    s.(config := s.config.(groups := s.config.groups[group := concurrency]),
       connections := Regrouped(s.connections, Removed(s, ids, group), ids, group))
  }

  // ---------------------------------------------------------------- admission

  datatype Request = Request(connection: string, target: string, required: bool, retryCount: int, retryDelay: int)

  function Selected(connections: map<string, Connection>, q: Request): Selection {
    Selection(q.connection, q.target, GroupOf(connections, q.connection), q.required, q.retryCount, q.retryDelay)
  }

  // No pair is requested twice.
  predicate UniqueRequests(requests: seq<Request>) {
    forall i, j | 0 <= i < j < |requests| ::
      (requests[i].connection, requests[i].target) != (requests[j].connection, requests[j].target)
  }

  function Selections(connections: map<string, Connection>, requests: seq<Request>): seq<Selection> {
    seq(|requests|, i requires 0 <= i < |requests| => Selected(connections, requests[i]))
  }

  // sourceGroup(id) also stores the automatic group it derives, and registers it with concurrency 1.
  function Registered(s: World, id: string): World {
    if id !in s.connections || GroupOf(s.connections, id) != s.connections[id].automatic then s
    else
      var group := s.connections[id].automatic;
      s.(connections := s.connections[id := s.connections[id].(stored := Some(group))],
         config := if group in s.config.groups then s.config else s.config.(groups := s.config.groups[group := 1]))
  }

  function RegisterAll(s: World, requests: seq<Request>): World
    decreases |requests|
  {
    if requests == [] then s else RegisterAll(Registered(s, requests[0].connection), requests[1..])
  }

  // Storing derived groups changes neither the group of any connection nor the cap of any group.
  lemma {:induction false} RegisteringIsInvisible(s: World, requests: seq<Request>)
    ensures var v := RegisterAll(s, requests);
            && v == s.(connections := v.connections, config := v.config)
            && v.config.setting == s.config.setting
            && v.connections.Keys == s.connections.Keys
            && (forall id :: GroupOf(v.connections, id) == GroupOf(s.connections, id))
            && (forall g :: GroupCap(v.config, g) == GroupCap(s.config, g))
    decreases |requests|
  {
    if requests != [] {
      var id := requests[0].connection;
      var v := Registered(s, id);
      forall x ensures GroupOf(v.connections, x) == GroupOf(s.connections, x) {}
      forall g ensures GroupCap(v.config, g) == GroupCap(s.config, g) {}
      RegisteringIsInvisible(v, requests[1..]);
    }
  }

  predicate AlreadyAdmitted(t: Table, job: string, scheduledFor: Option<int>) {
    scheduledFor.Some? && exists e | e in t :: e.job == job && e.scheduledFor == scheduledFor
  }

  // ---------------------------------------------------------------- steps

  datatype Action =
    | Pump(now: int, lag: nat)
    | Settle(ref: PairRef, outcome: Outcome, now: int)          // a worker ends and its result is stored
    | Lose(ref: PairRef)                                        // a worker ends and storing its result fails
    | Cancel(id: nat, now: int)
    | Prioritise(id: nat, priority: int)
    | Configure(limit: int)
    | Assign(ids: set<string>, group: string, concurrency: nat)
    | Enqueue(job: string, trigger: Trigger, scheduledFor: Option<int>, requests: seq<Request>, now: int)
    | Drain
    | Restart(rows: RunRows, now: int)                          // crash at any moment, then recover

  function Do(s: World, a: Action): World {
    match a
    case Pump(now, lag) =>
      if s.stopped then s
      else
        var d := Pumped(s.table, s.workers, s.config, now, now + lag);
        s.(table := d.table, workers := d.workers)
    case Settle(r, outcome, now) =>
      if r !in s.workers then s
      else s.(table := FinishedTable(s.table, s.workers[r].context, outcome, now), workers := s.workers - {r})
    case Lose(r) => if r in s.workers then s.(workers := s.workers - {r}, stopped := true) else s
    case Cancel(id, now) => if id < |s.table| then s.(table := CancelRequestedTable(s.table, id, now)) else s
    case Prioritise(id, priority) =>
      if id < |s.table| then s.(table := s.table[id := Apply(s.table[id], Step.Prioritise(priority))]) else s
    case Configure(limit) => if 1 <= limit <= 32 then s.(config := s.config.(setting := limit)) else s
    case Assign(ids, group, concurrency) =>
      if MayAssign(s, ids, group, concurrency) then Assigned(s, ids, group, concurrency) else s
    case Enqueue(job, trigger, scheduledFor, requests, now) =>
      var v := RegisterAll(s, requests);
      if requests == [] then s
      else if AlreadyAdmitted(s.table, job, scheduledFor) then v
      else if !UniqueSelections(Selections(s.connections, requests)) then s
      else v.(table := s.table
              + [FreshExecution(s.table, job, trigger, scheduledFor, Selections(s.connections, requests), now)])
    case Drain => s.(stopped := true)
    case Restart(rows, now) => s.(table := Recovered(s.table, rows, now), workers := map[], stopped := false)
  }

  function RunAll(s: World, actions: seq<Action>): World
    decreases |actions|
  {
    if actions == [] then s else RunAll(Do(s, actions[0]), actions[1..])
  }

  // ---------------------------------------------------------------- the invariant of all runs

  // Unfinished pairs carry the group their connection has now.
  ghost predicate GroupsAgree(t: Table, connections: map<string, Connection>) {
    forall r | ValidRef(t, r) && !Terminal(PairAt(t, r).status) ::
      PairAt(t, r).group == GroupOf(connections, PairAt(t, r).connection)
  }

  ghost predicate Backed(t: Table, w: Workers) {
    forall r | r in w :: ValidRef(t, r) && w[r].context.ref == r && Issued(t[r.execution], w[r].context)
  }

  // Unless storing a result failed and the coordinator stopped, workers are exactly the active pairs.
  ghost predicate WorldOk(s: World) {
    && TableOk(s.table) && GroupsAgree(s.table, s.connections) && Backed(s.table, s.workers)
    && (!s.stopped ==> Live(s.table, s.workers))
  }

  lemma KinAgree(t: Table, u: Table, connections: map<string, Connection>)
    requires GroupsAgree(t, connections) && Kin(t, u)
    ensures GroupsAgree(u, connections)
  {
  }

  lemma LiveIsBacked(t: Table, w: Workers)
    requires Live(t, w)
    ensures Backed(t, w)
  {
  }

  lemma PumpKeeps(s: World, now: int, lag: nat)
    requires WorldOk(s)
    ensures WorldOk(Do(s, Pump(now, lag)))
  {
    hide TableOk, Live, GroupsAgree, Backed, ReadyPairs, PumpList;
    if !s.stopped {
      var list := ReadyPairs(s.table);
      QueueIsPassable(s.table, s.workers, now, now + lag);
      PassKeeps(s.table, s.workers, s.config, now, now + lag, list);
      PassIsKin(s.table, s.workers, s.config, now, now + lag, list);
      var d := PumpList(s.table, s.workers, s.config, now, now + lag, list);
      KinAgree(s.table, d.table, s.connections);
      LiveIsBacked(d.table, d.workers);
    }
  }

  // One step on one execution keeps tables, kinship and issued contexts.
  lemma RowStep(t: Table, e: nat, step: Step)
    requires TableOk(t) && e < |t|
    ensures var u := t[e := Apply(t[e], step)];
            && TableOk(u) && Kin(t, u)
            && (forall w: Workers :: Backed(t, w) ==> Backed(u, w))
  {
    hide ExecutionOk, Apply, Issued, Kin;
    ApplyKeeps(t[e], step);
    ApplyIsKin(t[e], step);
    var u := t[e := Apply(t[e], step)];
    RowIsKin(t, e, step);
    forall w: Workers | Backed(t, w) ensures Backed(u, w) {
      forall r | r in w ensures ValidRef(u, r) && Issued(u[r.execution], w[r].context) {
        if r.execution == e { IssuedStays(t[e], step, w[r].context); }
      }
    }
  }

  // Kin for one execution.
  ghost predicate KinRow(e: Execution, f: Execution) {
    && SameOrigin(e, f) && |f.pairs| == |e.pairs|
    && forall i | 0 <= i < |e.pairs| ::
         && f.pairs[i].group == e.pairs[i].group && f.pairs[i].connection == e.pairs[i].connection
         && (Terminal(e.pairs[i].status) ==> Terminal(f.pairs[i].status))
  }

  lemma ApplyIsKin(e: Execution, step: Step)
    ensures KinRow(e, Apply(e, step)) && Apply(e, step).sequence == e.sequence
  {
    match step
    case Start(i, now) =>
    case Finish(c, outcome, now) =>
    case Cancel(now) =>
    case Note(i, reason) =>
    case Prioritise(priority) =>
  }

  lemma RowIsKin(t: Table, e: nat, step: Step)
    requires e < |t|
    ensures Kin(t, t[e := Apply(t[e], step)])
  {
    hide Apply;
    ApplyIsKin(t[e], step);
  }

  lemma BackedWorker(t: Table, w: Workers, r: PairRef)
    requires Backed(t, w) && r in w
    ensures ValidRef(t, r) && w[r].context.ref == r && Issued(t[r.execution], w[r].context)
    ensures Backed(t, w - {r})
  {
  }

  lemma SettleKeeps(s: World, r: PairRef, outcome: Outcome, now: int)
    requires WorldOk(s) && r in s.workers
    ensures WorldOk(Do(s, Settle(r, outcome, now)))
  {
    hide TableOk, GroupsAgree, Live, Backed, Kin, FinishedExecution;
    var c := s.workers[r].context;
    BackedWorker(s.table, s.workers, r);
    RowStep(s.table, r.execution, Finish(c, outcome, now));
    var u := FinishedTable(s.table, c, outcome, now);
    assert u == s.table[r.execution := Apply(s.table[r.execution], Finish(c, outcome, now))];
    KinAgree(s.table, u, s.connections);
    BackedWorker(u, s.workers, r);
    if !s.stopped {
      RowIsOk(s.table, r.execution);
      LiveAfterFinish(s.table, u, s.workers, r, outcome, now);
    }
  }

  lemma RowIsOk(t: Table, e: nat)
    requires TableOk(t) && e < |t|
    ensures ExecutionOk(t[e])
  {
  }

  lemma LiveAfterFinish(t: Table, u: Table, w: Workers, r: PairRef, outcome: Outcome, now: int)
    requires Live(t, w) && r in w && ExecutionOk(t[r.execution])
    requires u == FinishedTable(t, w[r].context, outcome, now)
    ensures Live(u, w - {r})
  {
    hide ExecutionOk, Aggregate, AllTerminal, Recorded, Retries;
    assert Serves(w[r], t, r);
    FinishSettles(PairAt(t, r), w[r].context, outcome, now);
    assert forall x | ValidRef(t, x) && x != r :: ValidRef(u, x) && PairAt(u, x) == PairAt(t, x);
    forall x | x in w && x != r ensures Serves(w[x], u, x) { assert Serves(w[x], t, x); }
  }

  lemma LiveAfterCancel(t: Table, w: Workers, id: nat, now: int)
    requires TableOk(t) && Live(t, w) && id < |t|
    ensures Live(CancelRequestedTable(t, id, now), w)
  {
    var u := CancelRequestedTable(t, id, now);
    assert |u[id].pairs| == |t[id].pairs|;
    forall r ensures r in w <==> ValidRef(u, r) && Active(PairAt(u, r).status)
             ensures r in w ==> Serves(w[r], u, r)
    {
      if ValidRef(t, r) && r.execution == id { CancelKeepsPair(PairAt(t, r), now); }
    }
  }

  lemma CancelKeepsWorld(s: World, id: nat, now: int)
    requires WorldOk(s) && id < |s.table|
    ensures WorldOk(Do(s, Action.Cancel(id, now)))
  {
    hide TableOk, Live, GroupsAgree, Backed;
    RowStep(s.table, id, Step.Cancel(now));
    KinAgree(s.table, CancelRequestedTable(s.table, id, now), s.connections);
    if !s.stopped { LiveAfterCancel(s.table, s.workers, id, now); }
  }

  // Appending an execution leaves every older pair as it was; the new ones are those of the execution.
  lemma AppendKeepsTable(t: Table, f: Execution)
    requires TableOk(t) && ExecutionOk(f) && f.sequence == MaxSequence(t) + 1
    ensures TableOk(t + [f])
  {
    hide ExecutionOk;
    var u := t + [f];
    forall i, j | 0 <= i < j < |u| ensures u[i].sequence < u[j].sequence { assert t[i] in t; }
  }

  lemma AppendKeepsGroups(t: Table, connections: map<string, Connection>, f: Execution)
    requires GroupsAgree(t, connections)
    requires forall k | 0 <= k < |f.pairs| :: f.pairs[k].group == GroupOf(connections, f.pairs[k].connection)
    ensures GroupsAgree(t + [f], connections)
  {
    OldPairs(t, f);
  }

  lemma AppendKeepsWorkers(t: Table, w: Workers, f: Execution)
    requires Backed(t, w)
    requires forall k | 0 <= k < |f.pairs| :: f.pairs[k].status == Queued
    ensures Backed(t + [f], w)
    ensures Live(t, w) ==> Live(t + [f], w)
  {
    OldPairs(t, f);
    if Live(t, w) {
      forall r | r in w ensures Serves(w[r], t + [f], r) { assert Serves(w[r], t, r); }
    }
  }

  lemma OldPairs(t: Table, f: Execution)
    ensures forall r | ValidRef(t, r) :: ValidRef(t + [f], r) && PairAt(t + [f], r) == PairAt(t, r)
    ensures forall r | ValidRef(t + [f], r) && !ValidRef(t, r) ::
              r.execution == |t| && PairAt(t + [f], r) == f.pairs[r.pair]
  {
  }

  lemma SameGroupsAgree(t: Table, a: map<string, Connection>, b: map<string, Connection>)
    requires GroupsAgree(t, a) && forall id :: GroupOf(b, id) == GroupOf(a, id)
    ensures GroupsAgree(t, b)
  {
  }

  lemma EnqueueKeeps(s: World, a: Action)
    requires WorldOk(s) && a.Enqueue?
    ensures WorldOk(Do(s, a))
  {
    hide TableOk, Live, GroupsAgree, Backed;
    var v := RegisterAll(s, a.requests);
    RegisteringIsInvisible(s, a.requests);
    SameGroupsAgree(s.table, s.connections, v.connections);
    var x := Selections(s.connections, a.requests);
    if a.requests != [] && !AlreadyAdmitted(s.table, a.job, a.scheduledFor) && UniqueSelections(x) {
      FreshIsOk(s.table, a.job, a.trigger, a.scheduledFor, x, a.now);
      var f := FreshExecution(s.table, a.job, a.trigger, a.scheduledFor, x, a.now);
      AppendKeepsTable(s.table, f);
      AppendKeepsGroups(s.table, v.connections, f);
      AppendKeepsWorkers(s.table, s.workers, f);
    }
  }

  // Regrouping never moves a connection that has unfinished pairs.
  lemma AssignKeepsBusyGroups(s: World, ids: set<string>, group: string, concurrency: nat, id: string)
    requires MayAssign(s, ids, group, concurrency) && Busy(s.table, id)
    ensures GroupOf(Assigned(s, ids, group, concurrency).connections, id) == GroupOf(s.connections, id)
  {
    assert id !in Changed(s, ids, group);
  }

  lemma AssignKeeps(s: World, ids: set<string>, group: string, concurrency: nat)
    requires WorldOk(s) && MayAssign(s, ids, group, concurrency)
    ensures WorldOk(Assigned(s, ids, group, concurrency))
  {
    var v := Assigned(s, ids, group, concurrency);
    forall r | ValidRef(s.table, r) && !Terminal(PairAt(s.table, r).status)
      ensures PairAt(s.table, r).group == GroupOf(v.connections, PairAt(s.table, r).connection)
    {
      UnfinishedIsBusy(s.table, r);
      AssignKeepsBusyGroups(s, ids, group, concurrency, PairAt(s.table, r).connection);
    }
  }

  lemma UnfinishedIsBusy(t: Table, r: PairRef)
    requires TableOk(t) && ValidRef(t, r) && !Terminal(PairAt(t, r).status)
    ensures Busy(t, PairAt(t, r).connection)
  {
    PairFromTable(t, r);
  }

  lemma RestartKeeps(s: World, rows: RunRows, now: int)
    requires WorldOk(s)
    ensures WorldOk(Do(s, Restart(rows, now)))
  {
    hide TableOk, Recovered, GroupsAgree, Kin;
    RecoveryIsExact(s.table, rows, now);
    KinAgree(s.table, Recovered(s.table, rows, now), s.connections);
    SameRefs(s.table, Recovered(s.table, rows, now));
    NobodyWorks(Recovered(s.table, rows, now));
  }

  lemma NobodyWorks(t: Table)
    requires forall r | ValidRef(t, r) :: !Active(PairAt(t, r).status)
    ensures Live(t, map[]) && Backed(t, map[])
  {
  }

  lemma DoKeeps(s: World, a: Action)
    requires WorldOk(s)
    ensures WorldOk(Do(s, a))
  {
    hide TableOk, Live, GroupsAgree, Backed, Pumped, Recovered;
    match a
    case Pump(now, lag) => PumpKeeps(s, now, lag);
    case Settle(r, outcome, now) => if r in s.workers { SettleKeeps(s, r, outcome, now); }
    case Lose(r) => LoseKeeps(s, r);
    case Cancel(id, now) => if id < |s.table| { CancelKeepsWorld(s, id, now); }
    case Prioritise(id, priority) => if id < |s.table| { PrioritiseKeeps(s, id, priority); }
    case Configure(limit) => ConfigureKeeps(s, limit);
    case Assign(ids, group, concurrency) =>
      if MayAssign(s, ids, group, concurrency) { AssignKeeps(s, ids, group, concurrency); }
    case Enqueue(job, trigger, scheduledFor, requests, now) => EnqueueKeeps(s, a);
    case Drain => StopKeeps(s);
    case Restart(rows, now) => RestartKeeps(s, rows, now);
  }

  lemma LoseKeeps(s: World, r: PairRef)
    requires WorldOk(s)
    ensures WorldOk(Do(s, Lose(r)))
  {
    hide TableOk, Live, GroupsAgree, Pumped, Recovered;
  }

  lemma PrioritiseKeeps(s: World, id: nat, priority: int)
    requires WorldOk(s) && id < |s.table|
    ensures WorldOk(Do(s, Action.Prioritise(id, priority)))
  {
    hide TableOk, Live, GroupsAgree, Pumped, Recovered;
    RowStep(s.table, id, Step.Prioritise(priority));
    var u := Do(s, Action.Prioritise(id, priority)).table;
    KinAgree(s.table, u, s.connections);
    if !s.stopped { SamePairsLive(s.table, u, s.workers); }
  }

  lemma SamePairsLive(t: Table, u: Table, w: Workers)
    requires |t| == |u| && (forall i | 0 <= i < |t| :: u[i].pairs == t[i].pairs) && Live(t, w)
    ensures Live(u, w)
  {
    forall r | r in w ensures Serves(w[r], u, r) { assert Serves(w[r], t, r); }
  }

  // Tables that differ in missed counts only; runDue writes that column after the admission.
  predicate OnlyMissed(t: Table, u: Table) {
    |u| == |t| && forall i | 0 <= i < |t| :: u[i] == t[i].(missed := u[i].missed)
  }

  lemma OnlyMissedKeeps(x: World, u: Table)
    requires WorldOk(x) && OnlyMissed(x.table, u)
    ensures WorldOk(x.(table := u))
  {
    hide TableOk, GroupsAgree, Backed, Live;
    OnlyMissedTable(x.table, u);
    OnlyMissedPairs(x.table, u, x.connections, x.workers);
    if !x.stopped { SamePairsLive(x.table, u, x.workers); }
  }

  lemma OnlyMissedTable(t: Table, u: Table)
    requires TableOk(t) && OnlyMissed(t, u)
    ensures TableOk(u)
  {
    hide ExecutionOk;
    forall i | 0 <= i < |t| ensures ExecutionOk(u[i]) { MissedIsFree(t[i], u[i].missed); }
  }

  lemma OnlyMissedPairs(t: Table, u: Table, connections: map<string, Connection>, w: Workers)
    requires OnlyMissed(t, u) && GroupsAgree(t, connections) && Backed(t, w)
    ensures GroupsAgree(u, connections) && Backed(u, w)
  {
    assert forall r :: ValidRef(u, r) <==> ValidRef(t, r);
    assert forall r | ValidRef(t, r) :: PairAt(u, r) == PairAt(t, r);
  }

  lemma MissedIsFree(e: Execution, missed: nat)
    requires ExecutionOk(e)
    ensures ExecutionOk(e.(missed := missed))
  {
  }

  lemma ConfigureKeeps(s: World, limit: int)
    requires WorldOk(s)
    ensures WorldOk(Do(s, Configure(limit)))
  {
    hide TableOk, Live, GroupsAgree, Pumped, Recovered;
  }

  lemma StopKeeps(s: World)
    requires WorldOk(s)
    ensures WorldOk(Do(s, Drain))
  {
    hide TableOk, Live, GroupsAgree, Pumped, Recovered;
  }

  // Every state of every run, with crashes, cancellations and reconfiguration in any order, is consistent.
  lemma {:induction false} RunAllKeeps(s: World, actions: seq<Action>)
    requires WorldOk(s)
    ensures WorldOk(RunAll(s, actions))
    decreases |actions|
  {
    hide WorldOk;
    if actions != [] {
      DoKeeps(s, actions[0]);
      RunAllKeeps(Do(s, actions[0]), actions[1..]);
    }
  }

  // So is every state that a new installation reaches.
  lemma ReachableIsOk(config: Config, connections: map<string, Connection>, actions: seq<Action>)
    ensures WorldOk(RunAll(World([], map[], config, connections, false), actions))
  {
    RunAllKeeps(World([], map[], config, connections, false), actions);
  }

  // ---------------------------------------------------------------- capacity over whole runs

  lemma OnlyPumpAddsWorkers(s: World, a: Action)
    requires !a.Pump? || s.stopped
    ensures Do(s, a).workers.Keys <= s.workers.Keys
            && forall r | r in Do(s, a).workers :: Do(s, a).workers[r] == s.workers[r]
  {
    hide RecoverList;
    if a.Enqueue? { RegisteringIsInvisible(s, a.requests); }
  }

  lemma PumpCaps(s: World, now: int, lag: nat, g: string)
    requires WorldOk(s) && !s.stopped
    ensures |Do(s, Pump(now, lag)).workers| <= Larger(|s.workers|, Limit(s.config))
    ensures |Members(Do(s, Pump(now, lag)).workers, g)| <= Larger(|Members(s.workers, g)|, GroupCap(s.config, g))
  {
    hide TableOk, Live, GroupsAgree, Backed, ReadyPairs, PumpList;
    QueueIsPassable(s.table, s.workers, now, now + lag);
    PassRespectsCaps(s.table, s.workers, s.config, now, now + lag, ReadyPairs(s.table), g);
  }

  // No step takes the worker count above the limit in force, nor a group above its cap.
  lemma StepRespectsCaps(s: World, a: Action, g: string)
    requires WorldOk(s)
    ensures |Do(s, a).workers| <= Larger(|s.workers|, Limit(s.config))
    ensures |Members(Do(s, a).workers, g)| <= Larger(|Members(s.workers, g)|, GroupCap(s.config, g))
  {
    hide WorldOk, Do;
    if a.Pump? && !s.stopped {
      PumpCaps(s, a.now, a.lag, g);
    } else {
      OnlyPumpAddsWorkers(s, a);
      MembersMonotone(Do(s, a).workers, s.workers, g);
    }
  }

  // The steps that start work.
  predicate Dispatches(s: World, a: Action) { a.Pump? && !s.stopped }

  // Highest limit, and highest cap of group g, in force at one of the pumps of the run.
  function PeakLimit(s: World, actions: seq<Action>): nat
    decreases |actions|
  {
    if actions == [] then 0
    else
      Larger(if Dispatches(s, actions[0]) then Limit(s.config) else 0, PeakLimit(Do(s, actions[0]), actions[1..]))
  }

  function PeakCap(s: World, actions: seq<Action>, g: string): nat
    decreases |actions|
  {
    if actions == [] then 0
    else
      Larger(if Dispatches(s, actions[0]) then GroupCap(s.config, g) else 0,
             PeakCap(Do(s, actions[0]), actions[1..], g))
  }

  lemma OnlyPumpsRaise(s: World, a: Action, g: string)
    requires WorldOk(s)
    ensures |Do(s, a).workers| <= Larger(|s.workers|, if Dispatches(s, a) then Limit(s.config) else 0)
    ensures |Members(Do(s, a).workers, g)|
              <= Larger(|Members(s.workers, g)|, if Dispatches(s, a) then GroupCap(s.config, g) else 0)
  {
    hide WorldOk, Do;
    StepRespectsCaps(s, a, g);
    if !Dispatches(s, a) {
      OnlyPumpAddsWorkers(s, a);
      MembersMonotone(Do(s, a).workers, s.workers, g);
    }
  }

  // Over any run the counts never exceed both what they began with and the highest cap in force at one of its pumps:
  // lowering a limit stops no running work, and no later pump lets the count rise above the new limit.
  lemma {:induction false} RunRespectsCaps(s: World, actions: seq<Action>, g: string)
    requires WorldOk(s)
    ensures |RunAll(s, actions).workers| <= Larger(|s.workers|, PeakLimit(s, actions))
    ensures |Members(RunAll(s, actions).workers, g)| <= Larger(|Members(s.workers, g)|, PeakCap(s, actions, g))
    decreases |actions|
  {
    hide WorldOk, Do, Dispatches;
    if actions != [] {
      DoKeeps(s, actions[0]);
      OnlyPumpsRaise(s, actions[0], g);
      RunRespectsCaps(Do(s, actions[0]), actions[1..], g);
    }
  }

  function ActiveOf(t: Table, w: Workers, connection: string): set<PairRef> {
    set r | r in w && ValidRef(t, r) && PairAt(t, r).connection == connection
  }

  // All active pairs of a connection are in its one current group, so the group's count bounds the connection's.
  lemma ConnectionIsInOneGroup(s: World, connection: string)
    requires WorldOk(s) && !s.stopped
    ensures ActiveOf(s.table, s.workers, connection) <= Members(s.workers, GroupOf(s.connections, connection))
    ensures |ActiveOf(s.table, s.workers, connection)| <= |Members(s.workers, GroupOf(s.connections, connection))|
  {
    forall r | r in ActiveOf(s.table, s.workers, connection)
      ensures r in Members(s.workers, GroupOf(s.connections, connection))
    {
      assert Serves(s.workers[r], s.table, r);
    }
    SubsetSize(ActiveOf(s.table, s.workers, connection), Members(s.workers, GroupOf(s.connections, connection)));
  }

  // From an idle start, no connection ever has more active pairs than its present group was allowed at one of the
  // pumps on the way, however often connections were regrouped in between.
  lemma ConnectionCap(s: World, actions: seq<Action>, connection: string)
    requires WorldOk(s) && s.workers == map[] && !RunAll(s, actions).stopped
    ensures var f := RunAll(s, actions);
            var g := GroupOf(f.connections, connection);
            |ActiveOf(f.table, f.workers, connection)| <= PeakCap(s, actions, g)
  {
    var f := RunAll(s, actions);
    RunAllKeeps(s, actions);
    ConnectionIsInOneGroup(f, connection);
    RunRespectsCaps(s, actions, GroupOf(f.connections, connection));
    assert Members(s.workers, GroupOf(f.connections, connection)) == {};
  }

  // ---------------------------------------------------------------- cancellation over whole runs

  ghost predicate WoundDown(e: Execution, f: Execution) {
    && Cancelling(f.status) && |f.pairs| == |e.pairs|
    && forall i | 0 <= i < |e.pairs| :: WindsDown(e.pairs[i], f.pairs[i])
  }

  lemma {:induction false} PassLeavesAlone(t: Table, w: Workers, c: Config, now: int, at: int, list: seq<PairRef>,
                                           e: nat)
    requires Passable(t, w, list, now, at) && e < |t| && forall k | 0 <= k < |list| :: list[k].execution != e
    ensures var u := PumpList(t, w, c, now, at, list).table; |u| == |t| && u[e] == t[e]
    decreases |list|
  {
    hide Passable, TableOk, Live;
    if list != [] {
      var u, v := HeadStep(t, w, c, now, at, list);
      PassLeavesAlone(u, v, c, now, at, list[1..], e);
    }
  }

  lemma FinishWindsDown(t: Table, c: Context, outcome: Outcome, now: int, e: nat)
    requires ValidRef(t, c.ref) && Issued(t[c.ref.execution], c)
    requires e < |t| && ExecutionOk(t[e]) && Cancelling(t[e].status)
    ensures |FinishedTable(t, c, outcome, now)| == |t| && WoundDown(t[e], FinishedTable(t, c, outcome, now)[e])
  {
    hide ExecutionOk, WindsDown;
    CancelledStep(t[e], if c.ref.execution == e then Finish(c, outcome, now) else Note(|t[e].pairs|, None));
  }

  lemma WoundDownTwice(e: Execution, f: Execution, g: Execution)
    requires WoundDown(e, f) && WoundDown(f, g)
    ensures WoundDown(e, g)
  {
    forall i | 0 <= i < |e.pairs| ensures WindsDown(e.pairs[i], g.pairs[i]) {
      assert WindsDown(e.pairs[i], f.pairs[i]) && WindsDown(f.pairs[i], g.pairs[i]);
    }
  }

  lemma CancellingNow(e: Execution, f: Execution)
    requires WoundDown(e, f)
    ensures Cancelling(f.status)
  {
  }

  lemma NothingToWindDown(e: Execution)
    requires Cancelling(e.status)
    ensures WoundDown(e, e)
  {
  }

  lemma {:induction false} RecoveryWindsDown(t: Table, list: seq<Context>, rows: RunRows, now: int, e: nat)
    requires TableOk(t) && DistinctRefs(list) && AllPending(t, list) && e < |t| && Cancelling(t[e].status)
    ensures var u := RecoverList(t, list, rows, now); |u| == |t| && WoundDown(t[e], u[e])
    decreases |list|
  {
    hide TableOk, WoundDown, FinishedTable, Kin, Issued, InProgress;
    if list == [] {
      NothingToWindDown(t[e]);
    } else {
      var c := list[0];
      FinishRow(t, c, Verdict(rows, c), now);
      var u := FinishedTable(t, c, Verdict(rows, c), now);
      forall i | 0 <= i < |list[1..]| ensures Pending(u, list[1..][i]) {
        StillPending(t, u, c, Verdict(rows, c), now, list[i + 1]);
      }
      RowIsOk(t, e);
      FinishWindsDown(t, c, Verdict(rows, c), now, e);
      CancellingNow(t[e], u[e]);
      RecoveryWindsDown(u, list[1..], rows, now, e);
      WoundDownTwice(t[e], u[e], RecoverList(t, list, rows, now)[e]);
    }
  }

  lemma PumpWindsDown(s: World, now: int, lag: nat, e: nat)
    requires WorldOk(s) && !s.stopped && e < |s.table| && Cancelling(s.table[e].status)
    ensures |Do(s, Pump(now, lag)).table| == |s.table| && Do(s, Pump(now, lag)).table[e] == s.table[e]
  {
    hide TableOk, Live, GroupsAgree, Backed, ReadyPairs, PumpList, Passable;
    var list := ReadyPairs(s.table);
    QueueIsPassable(s.table, s.workers, now, now + lag);
    assert forall k | 0 <= k < |list| :: list[k] in list;
    PassLeavesAlone(s.table, s.workers, s.config, now, now + lag, list, e);
  }

  lemma RestartWindsDown(s: World, rows: RunRows, now: int, e: nat)
    requires WorldOk(s) && e < |s.table| && Cancelling(s.table[e].status)
    ensures |Do(s, Restart(rows, now)).table| == |s.table| && WoundDown(s.table[e], Do(s, Restart(rows, now)).table[e])
  {
    hide TableOk, Live, GroupsAgree, Backed, RunningAttempts, RecoverList, WoundDown, Pending;
    RowsArePending(s.table);
    RecoveryWindsDown(s.table, RunningAttempts(s.table), rows, now, e);
  }

  // Steps that change one execution by one step of its own, or none.
  lemma OneStepWindsDown(s: World, a: Action, e: nat)
    requires WorldOk(s) && e < |s.table| && Cancelling(s.table[e].status)
    requires !a.Pump? && !a.Restart? && !a.Settle?
    ensures e < |Do(s, a).table| && WoundDown(s.table[e], Do(s, a).table[e])
  {
    hide TableOk, Live, GroupsAgree, Backed, ReadyPairs, Pumped, Recovered, WoundDown, FinishedTable, MayAssign;
    RowIsOk(s.table, e);
    NothingToWindDown(s.table[e]);
    match a
    case Cancel(id, now) => WindsDownByStep(s.table[e], Step.Cancel(now));
    case Prioritise(id, priority) => WindsDownByStep(s.table[e], Step.Prioritise(priority));
    case Enqueue(_, _, _, requests, _) => RegisteringIsInvisible(s, requests);
    case _ =>
  }

  lemma WindsDownByStep(e: Execution, step: Step)
    requires ExecutionOk(e) && Cancelling(e.status)
    ensures WoundDown(e, Apply(e, step))
  {
    hide ExecutionOk, Apply, WindsDown;
    CancelledStep(e, step);
  }

  lemma CancelledWorldStep(s: World, a: Action, e: nat)
    requires WorldOk(s) && e < |s.table| && Cancelling(s.table[e].status)
    ensures e < |Do(s, a).table| && WoundDown(s.table[e], Do(s, a).table[e])
  {
    hide TableOk, Live, GroupsAgree, ReadyPairs, PumpList, RecoverList, RunningAttempts, WoundDown, FinishedTable,
         RegisterAll;
    NothingToWindDown(s.table[e]);
    if a.Pump? {
      if !s.stopped { PumpWindsDown(s, a.now, a.lag, e); }
    } else if a.Restart? {
      RestartWindsDown(s, a.rows, a.now, e);
    } else if a.Settle? {
      RowIsOk(s.table, e);
      if a.ref in s.workers { FinishWindsDown(s.table, s.workers[a.ref].context, a.outcome, a.now, e); }
    } else {
      OneStepWindsDown(s, a, e);
    }
  }

  // Through any run of dispatching, results, crashes and restarts, a cancelled execution only winds down: no
  // attempt is started or rescheduled, and it ends cancelled exactly when its last active pair ends.
  lemma {:induction false} CancelledForGood(s: World, actions: seq<Action>, e: nat)
    requires WorldOk(s) && e < |s.table| && Cancelling(s.table[e].status)
    ensures var f := RunAll(s, actions);
            && e < |f.table| && WoundDown(s.table[e], f.table[e])
            && f.table[e].status == (if AllTerminal(f.table[e].pairs) then Cancelled else CancelRequested)
    decreases |actions|
  {
    hide WorldOk, WoundDown, Do;
    if actions == [] {
      CancelledStatus(s, e);
      NothingToWindDown(s.table[e]);
    } else {
      var x := Do(s, actions[0]);
      DoKeeps(s, actions[0]);
      CancelledWorldStep(s, actions[0], e);
      CancellingNow(s.table[e], x.table[e]);
      CancelledForGood(x, actions[1..], e);
      WoundDownTwice(s.table[e], x.table[e], RunAll(x, actions[1..]).table[e]);
    }
  }

  lemma CancelledStatus(s: World, e: nat)
    requires WorldOk(s) && e < |s.table| && Cancelling(s.table[e].status)
    ensures s.table[e].status == (if AllTerminal(s.table[e].pairs) then Cancelled else CancelRequested)
  {
  }
}
