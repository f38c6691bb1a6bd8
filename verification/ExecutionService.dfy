/** The coordinator object. Each method carries out one step of ExecutionWorld on the store it shares. */
module ExecutionService {
  import opened ExecutionTypes
  import opened Wrappers
  import opened ExecutionStore
  import opened ExecutionInvariant
  import opened Dispatcher
  import opened Recovery
  import opened ExecutionWorld

  lemma AdmittedSomewhere(t: Table, job: string, scheduledFor: Option<int>)
    ensures AlreadyAdmitted(t, job, scheduledFor) <==> exists k: nat :: AdmittedAs(t, job, scheduledFor, k)
  {
    if AlreadyAdmitted(t, job, scheduledFor) {
      var e :| e in t && e.job == job && e.scheduledFor == scheduledFor;
      var k :| 0 <= k < |t| && t[k] == e;
      assert AdmittedAs(t, job, scheduledFor, k);
    }
    if k: nat :| AdmittedAs(t, job, scheduledFor, k) {
      assert t[k] in t;
    }
  }

  lemma SelectionsRepeat(connections: map<string, Connection>, requests: seq<Request>)
    ensures UniqueSelections(Selections(connections, requests)) <==> UniqueRequests(requests)
  {
    var selections := Selections(connections, requests);
    if UniqueSelections(selections) {
      forall i, j | 0 <= i < j < |requests|
        ensures (requests[i].connection, requests[i].target) != (requests[j].connection, requests[j].target) {
        assert (selections[i].connection, selections[i].target) != (selections[j].connection, selections[j].target);
      }
    }
  }

  class Service {
    const store: Store
    var workers: Workers
    var config: Config
    var connections: map<string, Connection>
    var stopped: bool

    constructor (store: Store, config: Config, connections: map<string, Connection>)
      ensures this.store == store
      ensures Snapshot() == World(store.executions, map[], config, connections, false)
    {
      this.store := store;
      workers := map[];
      this.config := config;
      this.connections := connections;
      stopped := false;
    }

    function Snapshot(): World
      reads this, store
    {
      World(store.executions, workers, config, connections, stopped)
    }

    // One iteration of pump's loop.
    method Visit(r: PairRef, now: int, at: int)
      requires ValidRef(store.executions, r) && After(store.executions, workers, config, now, at, r).refused == None
      modifies this`workers, store
      ensures Dispatch(store.executions, workers, None) == old(After(store.executions, workers, config, now, at, r))
    {
      var reason := Blocked(store.executions, workers, config, now, r);
      store.executions := Noted(store.executions, r, reason);
      if reason.None? {
        var group := PairAt(store.executions, r).group;
        var started := store.StartAttempt(r, at);
        workers := workers[r := Worker(group, started.value)];
      }
    }

    // now is read before the loop, and startAttempt reads the clock lag later.
    method Pump(now: int, lag: nat)
      requires WorldOk(Snapshot())
      modifies this`workers, store
      ensures Snapshot() == Do(old(Snapshot()), Action.Pump(now, lag))
    {
      hide TableOk, Live, GroupsAgree, Backed, Passable, After, ReadyPairs, Recovered, RegisterAll, MayAssign, Advanced;
      if stopped { return; }
      var list := ReadyPairs(store.executions);
      QueueIsPassable(store.executions, workers, now, now + lag);
      var i := 0;
      while i < |list|
        invariant 0 <= i <= |list|
        invariant Passable(store.executions, workers, list[i..], now, now + lag)
        invariant PumpList(store.executions, workers, config, now, now + lag, list[i..])
                  == old(Pumped(store.executions, workers, config, now, now + lag))
      {
        assert list[i..][0] == list[i] && list[i..][1..] == list[i + 1..];
        ghost var u, v := HeadStep(store.executions, workers, config, now, now + lag, list[i..]);
        Visit(list[i], now, now + lag);
        i := i + 1;
      }
      assert list[i..] == [];
    }

    // The end of a worker's promise chain; `stores` tells whether finishAttempt's transaction committed.
    method EndWorker(r: PairRef, outcome: Outcome, now: int, stores: bool)
      requires r in workers
      modifies this`workers, this`stopped, store
      ensures Snapshot() == Do(old(Snapshot()), if stores then Settle(r, outcome, now) else Lose(r))
    {
      if stores {
        store.FinishAttempt(workers[r].context, outcome, now);
      } else {
        stopped := true;
      }
      workers := workers - {r};
    }

    method Drain()
      modifies this`stopped
      ensures Snapshot() == Do(old(Snapshot()), Action.Drain)
    {
      stopped := true;
    }

    // Refused when running work would be stopped without confirmation.
    method CancelExecution(id: nat, confirmed: bool, now: int) returns (accepted: bool)
      modifies store
      ensures accepted <==>
                id < |old(store.executions)| && (confirmed || !Has(old(store.executions)[id].pairs, Running))
      ensures Snapshot() == if accepted then Do(old(Snapshot()), Action.Cancel(id, now)) else old(Snapshot())
    {
      if id >= |store.executions| { return false; }
      if Has(store.executions[id].pairs, Running) && !confirmed { return false; }
      accepted := store.RequestCancellation(id, now);
    }

    method Configure(limit: int) returns (accepted: bool)
      modifies this`config
      ensures accepted <==> 1 <= limit <= 32
      ensures Snapshot() == Do(old(Snapshot()), Action.Configure(limit))
    {
      accepted := 1 <= limit <= 32;
      if accepted { config := config.(setting := limit); }
    }

    method ReprioritiseExecution(id: nat, priority: int) returns (accepted: bool)
      modifies store
      ensures accepted <==> id < |old(store.executions)| && old(store.executions)[id].status == Queued
      ensures Snapshot() == Do(old(Snapshot()), Action.Prioritise(id, priority))
    {
      if id >= |store.executions| { return false; }
      accepted := store.executions[id].status == Queued;
      assert store.executions[id := store.executions[id]] == store.executions;
      if accepted { store.executions := store.executions[id := store.executions[id].(priority := priority)]; }
    }

    method ConfirmsAutomatic(ids: seq<string>, group: string) returns (ok: bool)
      ensures ok <==> forall id | id in ids :: Confirms(connections, id, group)
    {
      for i := 0 to |ids|
        invariant forall k :: 0 <= k < i ==> Confirms(connections, ids[k], group)
      {
        assert ids[i] in ids;
        if ids[i] !in connections { return false; }
        var c := connections[ids[i]];
        if c.automatic != group || (c.stored.Some? && c.stored.value != "" && !IsAutomatic(c.stored.value)) {
          return false;
        }
      }
      ok := true;
    }

    // Connections whose stored group the request would change, beyond those it removes.
    method Joining(ids: seq<string>, group: string) returns (known: bool, joining: set<string>)
      ensures known <==> forall id | id in ids :: id in connections
      ensures known ==>
                joining == set id | id in ids && id in connections && !IsAutomatic(group)
                                    && connections[id].stored != Some(group)
    {
      joining := {};
      for i := 0 to |ids|
        invariant forall k :: 0 <= k < i ==> ids[k] in connections
        invariant joining == set id | id in ids[..i] && id in connections && !IsAutomatic(group)
                                      && connections[id].stored != Some(group)
      {
        assert ids[i] in ids && ids[..i + 1] == ids[..i] + [ids[i]];
        if ids[i] !in connections { return false, {}; }
        if !IsAutomatic(group) && connections[ids[i]].stored != Some(group) { joining := joining + {ids[i]}; }
      }
      known := true;
      assert ids[..|ids|] == ids;
    }

    method StoreGroup(ids: seq<string>, removed: set<string>, group: string)
      requires forall id | id in ids :: id in connections
      modifies this`connections
      ensures connections == Regrouped(old(connections), removed, (set id | id in ids), group)
    {
      ghost var before := connections;
      connections := map id | id in connections ::
          if id in removed then connections[id].(stored := None) else connections[id];
      var i := 0;
      while i < |ids|
        invariant 0 <= i <= |ids|
        invariant connections == Regrouped(before, removed, (set id | id in ids[..i]), group)
      {
        assert ids[i] in ids && ids[..i + 1] == ids[..i] + [ids[i]];
        connections := connections[ids[i] := connections[ids[i]].(stored := Some(group))];
        i := i + 1;
      }
      assert ids[..i] == ids;
    }

    // The statements of assignGroup in their order; a failed check leaves the transaction without effect.
    method AssignGroup(ids: seq<string>, group: string, concurrency: nat) returns (accepted: bool)
      modifies this`config, this`connections
      ensures accepted <==> MayAssign(old(Snapshot()), (set id | id in ids), group, concurrency)
      ensures Snapshot() == Do(old(Snapshot()), Assign((set id | id in ids), group, concurrency))
    {
      hide Busy, Regrouped;
      ghost var s := Snapshot();
      ghost var all := set id | id in ids;
      assert forall id :: id in all <==> id in ids;
      if group == "" || concurrency < 1 || concurrency > 8 { return false; }
      if IsAutomatic(group) {
        var ok := ConfirmsAutomatic(ids, group);
        if !ok { return false; }
      }
      var removed := if IsAutomatic(group) then {}
          else set id | id in connections && connections[id].stored == Some(group) && id !in ids;
      var known, joining := Joining(ids, group);
      if !known { return false; }
      assert removed == Removed(s, all, group);
      assert removed + joining == Changed(s, all, group);
      if exists id :: id in removed + joining && Busy(store.executions, id) { return false; }
      config := config.(groups := config.groups[group := concurrency]);
      StoreGroup(ids, removed, group);
      accepted := true;
    }

    // sourceGroup: the group of a connection, stored and registered when it is derived.
    method SourceGroup(id: string) returns (group: string)
      modifies this`config, this`connections
      ensures group == GroupOf(old(connections), id)
      ensures Snapshot() == Registered(old(Snapshot()), id)
    {
      group := GroupOf(connections, id);
      if id in connections && group == connections[id].automatic {
        if group !in config.groups { config := config.(groups := config.groups[group := 1]); }
        connections := connections[id := connections[id].(stored := Some(group))];
      }
    }

    method SelectPairs(requests: seq<Request>) returns (selections: seq<Selection>)
      modifies this`config, this`connections
      ensures selections == Selections(old(connections), requests)
      ensures Snapshot() == RegisterAll(old(Snapshot()), requests)
    {
      hide GroupOf, GroupCap, Registered;
      ghost var s := Snapshot();
      selections := [];
      var i := 0;
      while i < |requests|
        invariant 0 <= i <= |requests| && |selections| == i
        invariant forall k :: 0 <= k < i ==> selections[k] == Selected(s.connections, requests[k])
        invariant forall x :: GroupOf(connections, x) == GroupOf(s.connections, x)
        invariant RegisterAll(Snapshot(), requests[i..]) == RegisterAll(s, requests)
      {
        var q := requests[i];
        RegisteringIsInvisible(Snapshot(), [q]);
        assert RegisterAll(Snapshot(), [q]) == Registered(Snapshot(), q.connection) by { assert [q][1..] == []; }
        assert requests[i..][0] == q && requests[i..][1..] == requests[i + 1..];
        var group := SourceGroup(q.connection);
        selections := selections + [Selection(q.connection, q.target, group, q.required, q.retryCount, q.retryDelay)];
        i := i + 1;
      }
      assert requests[i..] == [];
      assert selections == Selections(s.connections, requests);
    }

    // enqueue, with the connections and targets of the job already paired.
    method Enqueue(job: string, trigger: Trigger, scheduledFor: Option<int>, requests: seq<Request>, now: int)
      returns (id: Option<nat>)
      requires requests != []
      modifies this`config, this`connections, store
      ensures Snapshot() == Do(old(Snapshot()), Action.Enqueue(job, trigger, scheduledFor, requests, now))
      ensures id.Some? ==> id.value < |store.executions| && store.executions[id.value].job == job
                           && store.executions[id.value].scheduledFor == scheduledFor
                           && (id.value == |old(store.executions)| <==>
                               !AlreadyAdmitted(old(store.executions), job, scheduledFor))
      ensures id.None? ==> Snapshot() == old(Snapshot())
      ensures id.None? <==> !AlreadyAdmitted(old(store.executions), job, scheduledFor) && !UniqueRequests(requests)
    {
      ghost var s := Snapshot();
      hide RegisterAll, Pumped, Recovered, MayAssign, FinishedTable, CancelRequestedTable, GroupOf, GroupCap;
      SelectionsRepeat(connections, requests);
      RegisteringIsInvisible(s, requests);
      AdmittedSomewhere(s.table, job, scheduledFor);
      var oldConfig, oldConnections := config, connections;
      var selections := SelectPairs(requests);
      id := store.Insert(job, trigger, scheduledFor, selections, now);
      if id.None? {
        config, connections := oldConfig, oldConnections;
      }
    }

    // A new process: no workers, and the rows of attempts that were in progress are closed one by one.
    method Recover(rows: RunRows, now: int)
      modifies this`workers, this`stopped, store
      ensures Snapshot() == Do(old(Snapshot()), Restart(rows, now))
    {
      hide RunningAttempts, FinishedTable, Verdict, Pumped, RegisterAll, MayAssign, CancelRequestedTable;
      workers, stopped := map[], false;
      var list := RunningAttempts(store.executions);
      var i := 0;
      while i < |list|
        invariant 0 <= i <= |list|
        invariant workers == map[] && !stopped
        invariant RecoverList(store.executions, list[i..], rows, now) == old(Recovered(store.executions, rows, now))
      {
        assert list[i..][0] == list[i] && list[i..][1..] == list[i + 1..];
        store.FinishAttempt(list[i], Verdict(rows, list[i]), now);
        i := i + 1;
      }
      assert list[i..] == [];
    }
  }
}
