/** The limits as an administrator sets them: how many pairs a pump leaves running, in all and in a group, and what a
    pair that it leaves waiting waits for. */
module ExecutionLimits {
  import opened ExecutionTypes
  import opened Wrappers
  import opened ExecutionStore
  import opened ExecutionInvariant
  import opened Dispatcher
  import opened Recovery
  import opened ExecutionWorld

  // The number of workers that a stored setting allows.
  predicate Allows(setting: int, n: nat) {
    && (setting < 1 ==> n == 1)
    && (1 <= setting <= 32 ==> n == setting)
    && (setting > 32 ==> n == 32)
  }

  // The number of workers that the row of a group allows; a group without one, or with nothing in it, has one.
  predicate Admits(groups: map<string, nat>, g: string, k: nat) {
    && (g in groups && groups[g] > 0 ==> k == groups[g])
    && (g in groups && groups[g] == 0 ==> k == 1)
    && (g !in groups ==> k == 1)
  }

  // The workers of a group.
  function Of(w: Workers, g: string): set<PairRef> { set r | r in w && w[r].group == g }

  lemma LimitsAre(c: Config, n: nat, g: string, k: nat)
    requires Allows(c.setting, n) && Admits(c.groups, g, k)
    ensures Limit(c) == n && GroupCap(c, g) == if n < k then n else k
  {
  }

  lemma SameMembers(w: Workers, g: string)
    ensures Of(w, g) == Members(w, g)
  {
  }

  // ---------------------------------------------------------------- one pump

  // A pump takes neither the workers above the setting, nor those of a group above the setting or the row of the
  // group; where there are more already, it does not add to them.
  lemma PumpStaysWithin(s: World, now: int, lag: nat, n: nat, g: string, k: nat)
    requires WorldOk(s) && !s.stopped && Allows(s.config.setting, n) && Admits(s.config.groups, g, k)
    ensures var w := Do(s, Pump(now, lag)).workers;
            && (|w| <= n || |w| <= |s.workers|)
            && ((|Of(w, g)| <= n && |Of(w, g)| <= k) || |Of(w, g)| <= |Of(s.workers, g)|)
  {
    hide WorldOk, Do, Limit, GroupCap, Of;
    LimitsAre(s.config, n, g, k);
    PumpCaps(s, now, lag, g);
    SameMembers(s.workers, g);
    SameMembers(Do(s, Pump(now, lag)).workers, g);
  }

  // What pair p waits for when w are at work.
  predicate WaitsFor(p: Pair, w: Workers, now: int, n: nat, k: nat) {
    || (p.waitReason == Some(RetryDelay) && p.nextAttemptAt.Some? && p.nextAttemptAt.value > now)
    || (p.waitReason == Some(GlobalCapacity) && |w| >= n)
    || (p.waitReason == Some(SourceCapacity) && (|Of(w, p.group)| >= n || |Of(w, p.group)| >= k))
  }

  // Every pair that a pump leaves waiting waits for a true reason, in terms of what was configured; so as long as
  // there is room in all and in its group, no pair that is due is left.
  lemma PumpLeavesNothingDue(s: World, now: int, lag: nat, n: nat, r: PairRef, k: nat)
    requires WorldOk(s) && !s.stopped && Allows(s.config.setting, n)
    requires var v := Do(s, Pump(now, lag));
             && r.execution < |v.table| && r.pair < |v.table[r.execution].pairs|
             && v.table[r.execution].status in {Queued, Running, Retrying}
             && PairAt(v.table, r).status in {Queued, RetryWait}
             && Admits(s.config.groups, PairAt(v.table, r).group, k)
    ensures var v := Do(s, Pump(now, lag)); WaitsFor(PairAt(v.table, r), v.workers, now, n, k)
  {
    hide WorldOk, TableOk, Live, Pumped, Limit, GroupCap, Of;
    var v := Do(s, Pump(now, lag));
    TableOfWorld(s);
    PumpIsWorkConserving(s.table, s.workers, s.config, now, now + lag);
    var p := PairAt(v.table, r);
    assert Ready(v.table, r);
    LimitsAre(s.config, n, p.group, k);
    SameMembers(v.workers, p.group);
  }

  lemma TableOfWorld(s: World)
    requires WorldOk(s) && !s.stopped
    ensures TableOk(s.table) && Live(s.table, s.workers)
  {
    hide TableOk, Live, GroupsAgree, Backed;
  }

  // ---------------------------------------------------------------- runs

  predicate NoConfigure(actions: seq<Action>) { forall i | 0 <= i < |actions| :: !actions[i].Configure? }

  predicate NoAssign(actions: seq<Action>, g: string) {
    forall i | 0 <= i < |actions| :: !(actions[i].Assign? && actions[i].group == g)
  }

  lemma SettingStays(s: World, a: Action)
    requires !a.Configure?
    ensures Do(s, a).config.setting == s.config.setting
  {
    hide RegisterAll, MayAssign, Pumped, Recovered;
    if a.Enqueue? { RegisteringIsInvisible(s, a.requests); }
  }

  lemma RowStays(s: World, a: Action, g: string, k: nat)
    requires Admits(s.config.groups, g, k) && !(a.Assign? && a.group == g)
    ensures Admits(Do(s, a).config.groups, g, k)
  {
    hide MayAssign, Pumped, Recovered;
    if a.Enqueue? { RowsOfRegistered(s, a.requests, g, k); }
  }

  lemma {:induction false} RowsOfRegistered(s: World, requests: seq<Request>, g: string, k: nat)
    requires Admits(s.config.groups, g, k)
    ensures Admits(RegisterAll(s, requests).config.groups, g, k)
    decreases |requests|
  {
    if requests != [] { RowsOfRegistered(Registered(s, requests[0].connection), requests[1..], g, k); }
  }

  lemma StepStaysWithin(s: World, a: Action, n: nat, g: string, k: nat)
    requires WorldOk(s) && Allows(s.config.setting, n) && Admits(s.config.groups, g, k)
    ensures var w := Do(s, a).workers;
            && (|w| <= n || |w| <= |s.workers|)
            && ((|Of(w, g)| <= n && |Of(w, g)| <= k) || |Of(w, g)| <= |Of(s.workers, g)|)
  {
    hide WorldOk, Do, Allows, Admits, Of;
    if a.Pump? && !s.stopped {
      PumpStaysWithin(s, a.now, a.lag, n, g, k);
    } else {
      var w := Do(s, a).workers;
      OnlyPumpAddsWorkers(s, a);
      SubsetSize(w.Keys, s.workers.Keys);
      MembersMonotone(w, s.workers, g);
      SameMembers(w, g);
      SameMembers(s.workers, g);
    }
  }

  // As long as nobody changes the setting, no run takes the workers above it, except for work under way before.
  lemma {:induction false} WorkersStayWithin(s: World, actions: seq<Action>, n: nat)
    requires WorldOk(s) && Allows(s.config.setting, n) && NoConfigure(actions)
    ensures var w := RunAll(s, actions).workers; |w| <= n || |w| <= |s.workers|
    decreases |actions|
  {
    hide WorldOk, Do, Allows, Admits, Of;
    if actions != [] {
      var a, rest := actions[0], actions[1..];
      DoKeeps(s, a);
      SettingStays(s, a);
      var k := SomeRow(s.config.groups, "");
      StepStaysWithin(s, a, n, "", k);
      assert forall i | 0 <= i < |rest| :: rest[i] == actions[i + 1];
      WorkersStayWithin(Do(s, a), rest, n);
    }
  }

  lemma SomeRow(groups: map<string, nat>, g: string) returns (k: nat)
    ensures Admits(groups, g, k)
  {
    k := if g in groups && groups[g] > 0 then groups[g] else 1;
  }

  // Nor, while the row of the group stays too, the workers of the group above either.
  lemma {:induction false} GroupStaysWithin(s: World, actions: seq<Action>, n: nat, g: string, k: nat)
    requires WorldOk(s) && Allows(s.config.setting, n) && Admits(s.config.groups, g, k)
    requires NoConfigure(actions) && NoAssign(actions, g)
    ensures var w := RunAll(s, actions).workers;
            (|Of(w, g)| <= n && |Of(w, g)| <= k) || |Of(w, g)| <= |Of(s.workers, g)|
    decreases |actions|
  {
    hide WorldOk, Do, Allows, Admits, Of;
    if actions != [] {
      var a, rest := actions[0], actions[1..];
      DoKeeps(s, a);
      SettingStays(s, a);
      RowStays(s, a, g, k);
      StepStaysWithin(s, a, n, g, k);
      assert forall i | 0 <= i < |rest| :: rest[i] == actions[i + 1];
      GroupStaysWithin(Do(s, a), rest, n, g, k);
    }
  }

  // Configuring n is accepted from 1 to 32, and from then on the workers stay within n, or wind down to it; anything
  // else is refused.
  lemma ConfiguredLimitHolds(s: World, n: int, actions: seq<Action>)
    requires WorldOk(s) && NoConfigure(actions)
    ensures if 1 <= n <= 32 then
              var w := RunAll(Do(s, Configure(n)), actions).workers; |w| <= n || |w| <= |s.workers|
            else Do(s, Configure(n)) == s
  {
    hide WorldOk, RunAll, NoConfigure;
    if 1 <= n <= 32 {
      var v := Do(s, Configure(n));
      DoKeeps(s, Configure(n));
      assert v.workers == s.workers && v.config.setting == n;
      WorkersStayWithin(v, actions, n);
    }
  }

  // An accepted assignment with concurrency k holds its group to k, and to the setting, from then on.
  lemma AssignedCapHolds(s: World, ids: set<string>, g: string, k: nat, n: nat, actions: seq<Action>)
    requires WorldOk(s) && MayAssign(s, ids, g, k) && Allows(s.config.setting, n)
    requires NoConfigure(actions) && NoAssign(actions, g)
    ensures var w := RunAll(Do(s, Assign(ids, g, k)), actions).workers;
            (|Of(w, g)| <= n && |Of(w, g)| <= k) || |Of(w, g)| <= |Of(s.workers, g)|
  {
    hide WorldOk, Of, RunAll;
    var v := Do(s, Assign(ids, g, k));
    DoKeeps(s, Assign(ids, g, k));
    assert v.workers == s.workers && v.config.setting == s.config.setting;
    assert Admits(v.config.groups, g, k);
    GroupStaysWithin(v, actions, n, g, k);
  }
}
