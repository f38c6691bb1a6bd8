/** ExecutionService.pump: which waiting pairs are started, in which order and under which limits. */
module Dispatcher {
  import opened ExecutionTypes
  import opened Wrappers
  import opened ExecutionStore
  import opened ExecutionInvariant

  // app_settings.execution_concurrency and the concurrency column of source_groups.
  datatype Config = Config(setting: int, groups: map<string, nat>)

  datatype Worker = Worker(group: string, context: Context)

  type Workers = map<PairRef, Worker>

  function Min(a: int, b: int): int { if a < b then a else b }

  function Limit(c: Config): (n: nat)
    ensures 1 <= n <= 32
  {
    if c.setting < 1 then 1 else if c.setting > 32 then 32 else c.setting
  }

  function GroupCap(c: Config, g: string): nat {
    Min(Limit(c), if g in c.groups && c.groups[g] != 0 then c.groups[g] else 1)
  }

  function Members(w: Workers, g: string): set<PairRef> { set r | r in w && w[r].group == g }

  // ---------------------------------------------------------------- the queue order

  predicate Ready(t: Table, r: PairRef) {
    ValidRef(t, r) && Eligible(t[r.execution].status) && Waiting(PairAt(t, r).status)
  }

  // enqueue_sequence grows with every insertion.
  predicate Increasing(t: Table) { forall i, j | 0 <= i < j < |t| :: t[i].sequence < t[j].sequence }

  // ORDER BY priority DESC, enqueue_sequence, rowid.
  predicate Before(t: Table, a: PairRef, b: PairRef)
    requires ValidRef(t, a) && ValidRef(t, b)
  {
    var x, y := t[a.execution], t[b.execution];
    x.priority > y.priority
    || (x.priority == y.priority && (x.sequence < y.sequence || (a.execution == b.execution && a.pair < b.pair)))
  }

  function ReadyOf(t: Table, e: nat, i: nat): (list: seq<PairRef>)
    requires e < |t| && i <= |t[e].pairs|
    ensures forall r :: r in list <==> r.execution == e && r.pair >= i && Ready(t, r)
    ensures Ordered(t, list)
    decreases |t[e].pairs| - i
  {
    if i == |t[e].pairs| then []
    else
      var rest := ReadyOf(t, e, i + 1);
      assert forall k | 0 <= k < |rest| :: rest[k] in rest;
      if Ready(t, PairRef(e, i)) then [PairRef(e, i)] + rest else rest
  }

  // Places the ready pairs of one execution before the first pair of no higher priority.
  function Place(t: Table, e: nat, block: seq<PairRef>, rest: seq<PairRef>): (list: seq<PairRef>)
    requires e < |t|
    requires forall k | 0 <= k < |rest| :: ValidRef(t, rest[k])
    ensures forall r :: r in list <==> r in block || r in rest
  {
    if rest == [] then block
    else
      assert ValidRef(t, rest[0]);
      if t[rest[0].execution].priority <= t[e].priority then block + rest
      else [rest[0]] + Place(t, e, block, rest[1..])
  }

  function ReadyFrom(t: Table, e: nat): (list: seq<PairRef>)
    requires e <= |t|
    ensures forall r :: r in list <==> r.execution >= e && Ready(t, r)
    ensures forall k | 0 <= k < |list| :: ValidRef(t, list[k])
    decreases |t| - e
  {
    if e == |t| then []
    else
      var list := Place(t, e, ReadyOf(t, e, 0), ReadyFrom(t, e + 1));
      assert forall k | 0 <= k < |list| :: list[k] in list;
      list
  }

  function ReadyPairs(t: Table): seq<PairRef> { ReadyFrom(t, 0) }

  ghost predicate Ordered(t: Table, list: seq<PairRef>) {
    && (forall k | 0 <= k < |list| :: ValidRef(t, list[k]))
    && forall a, b | 0 <= a < b < |list| :: Before(t, list[a], list[b])
  }

  lemma JoinOrders(t: Table, a: seq<PairRef>, b: seq<PairRef>)
    requires Ordered(t, a) && Ordered(t, b)
    requires forall i, j | 0 <= i < |a| && 0 <= j < |b| :: Before(t, a[i], b[j])
    ensures Ordered(t, a + b)
  {
  }

  lemma {:induction false} PlaceOrders(t: Table, e: nat, block: seq<PairRef>, rest: seq<PairRef>)
    requires Increasing(t) && e < |t| && Ordered(t, block) && Ordered(t, rest)
    requires forall i | 0 <= i < |block| :: block[i].execution == e
    requires forall i | 0 <= i < |rest| :: rest[i].execution > e
    ensures Ordered(t, Place(t, e, block, rest))
  {
    if rest != [] {
      if t[rest[0].execution].priority > t[e].priority {
        PlaceOrders(t, e, block, rest[1..]);
        var tail := Place(t, e, block, rest[1..]);
        forall b | 0 <= b < |tail| ensures Before(t, rest[0], tail[b]) {
          assert tail[b] in tail;
          if tail[b] in rest[1..] {
            var k :| 0 <= k < |rest[1..]| && rest[1..][k] == tail[b];
            assert Before(t, rest[0], rest[k + 1]);
          }
        }
        JoinOrders(t, [rest[0]], tail);
      } else {
        forall i, j | 0 <= i < |block| && 0 <= j < |rest| ensures Before(t, block[i], rest[j]) {
          assert j > 0 ==> Before(t, rest[0], rest[j]);
        }
        JoinOrders(t, block, rest);
      }
    }
  }

  lemma {:induction false} ReadyFromOrders(t: Table, e: nat)
    requires Increasing(t) && e <= |t|
    ensures Ordered(t, ReadyFrom(t, e))
    decreases |t| - e
  {
    hide Before, Ready, Increasing;
    if e < |t| {
      ReadyFromOrders(t, e + 1);
      var block, rest := ReadyOf(t, e, 0), ReadyFrom(t, e + 1);
      assert forall k | 0 <= k < |block| :: block[k] in block;
      assert forall k | 0 <= k < |rest| :: rest[k] in rest;
      PlaceOrders(t, e, block, rest);
    }
  }

  // The queue holds exactly the ready pairs, each once, by priority, then admission, then position.
  lemma QueueOrder(t: Table)
    requires Increasing(t)
    ensures forall r :: r in ReadyPairs(t) <==> Ready(t, r)
    ensures Ordered(t, ReadyPairs(t))
    ensures Distinct(ReadyPairs(t))
  {
    ReadyFromOrders(t, 0);
  }

  ghost predicate Distinct(list: seq<PairRef>) { forall a, b | 0 <= a < b < |list| :: list[a] != list[b] }

  // ---------------------------------------------------------------- one pass of the dispatcher

  // Why the pair may not start now, if it may not.
  function Blocked(t: Table, w: Workers, c: Config, now: int, r: PairRef): Option<WaitReason>
    requires ValidRef(t, r)
  {
    var p := PairAt(t, r);
    if p.nextAttemptAt.Some? && p.nextAttemptAt.value > now then Some(RetryDelay)
    else if |w| >= Limit(c) then Some(GlobalCapacity)
    else if |Members(w, p.group)| >= GroupCap(c, p.group) then Some(SourceCapacity)
    else None
  }

  function Noted(t: Table, r: PairRef, reason: Option<WaitReason>): Table
    requires ValidRef(t, r)
  {
    t[r.execution := t[r.execution].(pairs := t[r.execution].pairs[r.pair := PairAt(t, r).(waitReason := reason)])]
  }

  // `refused` records an exception of startAttempt, which would abort the pass.
  datatype Dispatch = Dispatch(table: Table, workers: Workers, refused: Option<StartError>)

  // One iteration: the wait reason is stored, and the pair started when there is none.
  function After(t: Table, w: Workers, c: Config, now: int, at: int, r: PairRef): Dispatch {
    if !ValidRef(t, r) then Dispatch(t, w, Some(PairMissing))
    else
      var reason := Blocked(t, w, c, now, r);
      var noted := Noted(t, r, reason);
      if reason.Some? then Dispatch(noted, w, None)
      else if StartRefusal(noted, r, at).Some? then Dispatch(noted, w, StartRefusal(noted, r, at))
      else Dispatch(Started(noted, r, at), w[r := Worker(PairAt(t, r).group, StartContext(noted, r))], None)
  }

  // now is the reading taken before the loop, at the reading startAttempt takes.
  function PumpList(t: Table, w: Workers, c: Config, now: int, at: int, list: seq<PairRef>): Dispatch
    decreases |list|
  {
    if list == [] then Dispatch(t, w, None)
    else
      var d := After(t, w, c, now, at, list[0]);
      if d.refused.Some? then d else PumpList(d.table, d.workers, c, now, at, list[1..])
  }

  function Pumped(t: Table, w: Workers, c: Config, now: int, at: int): Dispatch {
    PumpList(t, w, c, now, at, ReadyPairs(t))
  }

  // ---------------------------------------------------------------- what a pass keeps

  ghost predicate TableOk(t: Table) {
    (forall i | 0 <= i < |t| :: ExecutionOk(t[i])) && Increasing(t)
  }

  // A worker carries the group of its pair and the context of the attempt in progress.
  ghost predicate Serves(x: Worker, t: Table, r: PairRef)
    requires ValidRef(t, r)
  {
    && x.group == PairAt(t, r).group && x.context.ref == r
    && Issued(t[r.execution], x.context) && InProgress(PairAt(t, r), x.context)
  }

  // The worker map holds exactly the active pairs.
  ghost predicate Live(t: Table, w: Workers) {
    && (forall r :: r in w <==> ValidRef(t, r) && Active(PairAt(t, r).status))
    && (forall r | r in w :: Serves(w[r], t, r))
  }

  // The columns of an execution that its admission fixes.
  predicate SameOrigin(e: Execution, f: Execution) {
    f.job == e.job && f.scheduledFor == e.scheduledFor && f.trigger == e.trigger && f.missed == e.missed
  }

  // u differs from t at most in pair r, and keeps that pair's group and delay.
  ghost predicate OnlyAt(t: Table, u: Table, r: PairRef)
    requires ValidRef(t, r)
  {
    && |u| == |t|
    && (forall e | 0 <= e < |t| && e != r.execution :: u[e] == t[e])
    && ValidRef(u, r) && |u[r.execution].pairs| == |t[r.execution].pairs|
    && (forall k | 0 <= k < |t[r.execution].pairs| && k != r.pair :: u[r.execution].pairs[k] == t[r.execution].pairs[k])
    && PairAt(u, r).group == PairAt(t, r).group && PairAt(u, r).connection == PairAt(t, r).connection
    && PairAt(u, r).nextAttemptAt == PairAt(t, r).nextAttemptAt
    && u[r.execution].sequence == t[r.execution].sequence && u[r.execution].priority == t[r.execution].priority
    && SameOrigin(t[r.execution], u[r.execution])
    && Eligible(u[r.execution].status)
  }

  lemma OtherPairs(t: Table, u: Table, r: PairRef, s: PairRef)
    requires ValidRef(t, r) && OnlyAt(t, u, r) && s != r
    ensures ValidRef(u, s) <==> ValidRef(t, s)
    ensures ValidRef(t, s) ==> PairAt(u, s) == PairAt(t, s)
    ensures Ready(t, s) ==> Ready(u, s)
    ensures Ready(u, s) && Eligible(t[r.execution].status) ==> Ready(t, s)
  {
  }

  lemma NoteOne(t: Table, r: PairRef, reason: Option<WaitReason>)
    requires TableOk(t) && Ready(t, r)
    ensures OnlyAt(t, Noted(t, r, reason), r) && TableOk(Noted(t, r, reason))
    ensures PairAt(Noted(t, r, reason), r) == PairAt(t, r).(waitReason := reason)
  {
    hide ExecutionOk;
    NoteKeeps(t[r.execution], r.pair, reason);
  }

  lemma StartOne(t: Table, r: PairRef, at: int)
    requires TableOk(t) && Ready(t, r)
    requires !(PairAt(t, r).nextAttemptAt.Some? && PairAt(t, r).nextAttemptAt.value > at)
    ensures StartRefusal(t, r, at) == None
    ensures OnlyAt(t, Started(t, r, at), r) && TableOk(Started(t, r, at))
    ensures PairAt(Started(t, r, at), r) == StartedPair(PairAt(t, r), at)
  {
    hide ExecutionOk, MaxNumber;
    StartKeeps(t[r.execution], r.pair, at);
  }

  lemma LiveAfterNote(t: Table, u: Table, w: Workers, r: PairRef, reason: Option<WaitReason>)
    requires Live(t, w) && Ready(t, r) && OnlyAt(t, u, r) && PairAt(u, r) == PairAt(t, r).(waitReason := reason)
    ensures Live(u, w)
  {
    forall s ensures s in w <==> ValidRef(u, s) && Active(PairAt(u, s).status)
             ensures s in w ==> Serves(w[s], u, s)
    {
      if s != r { OtherPairs(t, u, r, s); }
    }
  }

  lemma LiveAfterStart(t: Table, u: Table, w: Workers, r: PairRef, at: int)
    requires Live(t, w) && Ready(t, r) && OnlyAt(t, u, r) && PairAt(u, r) == StartedPair(PairAt(t, r), at)
    ensures r !in w
    ensures Live(u, w[r := Worker(PairAt(t, r).group, StartContext(t, r))])
  {
    var v := w[r := Worker(PairAt(t, r).group, StartContext(t, r))];
    forall s ensures s in v <==> ValidRef(u, s) && Active(PairAt(u, s).status)
             ensures s in v ==> Serves(v[s], u, s)
    {
      if s != r { OtherPairs(t, u, r, s); }
    }
  }

  // The hypotheses under which the induction over the queue runs.
  ghost predicate Passable(t: Table, w: Workers, list: seq<PairRef>, now: int, at: int) {
    && TableOk(t) && Live(t, w) && Distinct(list) && now <= at
    && forall k | 0 <= k < |list| :: Ready(t, list[k])
  }

  // What one iteration does, and that it leads to the same hypotheses for the rest of the queue.
  ghost predicate Advanced(t: Table, w: Workers, c: Config, now: int, at: int, r: PairRef, u: Table, v: Workers)
    requires ValidRef(t, r)
  {
    && OnlyAt(t, u, r) && r !in w && Ready(t, r)
    && if Blocked(t, w, c, now, r).Some? then
         v == w && PairAt(u, r) == PairAt(t, r).(waitReason := Blocked(t, w, c, now, r))
       else
         v.Keys == w.Keys + {r} && (forall s | s in w :: v[s] == w[s]) && v[r].group == PairAt(t, r).group
         && PairAt(u, r).status == Running
  }

  lemma HeadStep(t: Table, w: Workers, c: Config, now: int, at: int, list: seq<PairRef>) returns (u: Table, v: Workers)
    requires list != [] && Passable(t, w, list, now, at)
    ensures After(t, w, c, now, at, list[0]) == Dispatch(u, v, None)
    ensures ValidRef(t, list[0]) && Advanced(t, w, c, now, at, list[0], u, v)
    ensures Passable(u, v, list[1..], now, at)
  {
    u, v := OneIteration(t, w, c, now, at, list[0]);
    RestIsReady(t, u, list);
  }

  lemma OneIteration(t: Table, w: Workers, c: Config, now: int, at: int, r: PairRef) returns (u: Table, v: Workers)
    requires TableOk(t) && Live(t, w) && Ready(t, r) && now <= at
    ensures After(t, w, c, now, at, r) == Dispatch(u, v, None)
    ensures Advanced(t, w, c, now, at, r, u, v)
    ensures TableOk(u) && Live(u, v)
  {
    hide TableOk, Live;
    var reason := Blocked(t, w, c, now, r);
    u := Noted(t, r, reason);
    v := w;
    NoteOne(t, r, reason);
    LiveAfterNote(t, u, w, r, reason);
    NotAWorker(t, w, r);
    if reason.None? {
      var n := u;
      StartOne(n, r, at);
      u, v := Started(n, r, at), w[r := Worker(PairAt(t, r).group, StartContext(n, r))];
      LiveAfterStart(n, u, w, r, at);
      OnlyAtTwice(t, n, u, r);
    }
  }

  lemma NotAWorker(t: Table, w: Workers, r: PairRef)
    requires Live(t, w) && Ready(t, r)
    ensures r !in w
  {
  }

  lemma OnlyAtTwice(t: Table, n: Table, u: Table, r: PairRef)
    requires ValidRef(t, r) && OnlyAt(t, n, r) && OnlyAt(n, u, r)
    ensures OnlyAt(t, u, r)
  {
  }

  lemma RestIsReady(t: Table, u: Table, list: seq<PairRef>)
    requires list != [] && Distinct(list) && ValidRef(t, list[0]) && OnlyAt(t, u, list[0])
    requires forall k | 0 <= k < |list| :: Ready(t, list[k])
    ensures forall k | 0 <= k < |list[1..]| :: Ready(u, list[1..][k])
    ensures Distinct(list[1..])
  {
    forall k | 0 <= k < |list[1..]| ensures Ready(u, list[1..][k]) {
      OtherPairs(t, u, list[0], list[k + 1]);
    }
  }

  // startAttempt never refuses what the dispatcher asks of it, and the pass keeps every invariant.
  lemma {:induction false} PassKeeps(t: Table, w: Workers, c: Config, now: int, at: int, list: seq<PairRef>)
    requires Passable(t, w, list, now, at)
    ensures var d := PumpList(t, w, c, now, at, list);
            && d.refused == None && TableOk(d.table) && Live(d.table, d.workers)
            && w.Keys <= d.workers.Keys && (forall r | r in w :: d.workers[r] == w[r])
    decreases |list|
  {
    if list != [] {
      var u, v := HeadStep(t, w, c, now, at, list);
      PassKeeps(u, v, c, now, at, list[1..]);
    }
  }

  function Larger(a: int, b: int): int { if a > b then a else b }

  lemma MembersGrow(w: Workers, r: PairRef, x: Worker, g: string)
    requires r !in w
    ensures Members(w[r := x], g) == if x.group == g then Members(w, g) + {r} else Members(w, g)
    ensures |w[r := x]| == |w| + 1
  {
  }

  lemma MembersMonotone(v: Workers, w: Workers, g: string)
    requires v.Keys <= w.Keys && forall r | r in v :: w[r] == v[r]
    ensures |Members(v, g)| <= |Members(w, g)| && |v| <= |w|
  {
    assert Members(v, g) <= Members(w, g);
    SubsetSize(Members(v, g), Members(w, g));
    SubsetSize(v.Keys, w.Keys);
  }

  lemma {:induction false} SubsetSize(a: set<PairRef>, b: set<PairRef>)
    requires a <= b
    ensures |a| <= |b|
  {
    if a != {} {
      var x :| x in a;
      SubsetSize(a - {x}, b - {x});
    }
  }

  // One iteration and the caps: it never exceeds one, and in a full group it starts nothing.
  lemma IterationRespectsCaps(t: Table, w: Workers, c: Config, now: int, at: int, r: PairRef, u: Table, v: Workers,
                              g: string)
    requires ValidRef(t, r) && Advanced(t, w, c, now, at, r, u, v)
    ensures |w| <= |v| <= Larger(|w|, Limit(c))
    ensures |Members(w, g)| <= |Members(v, g)| <= Larger(|Members(w, g)|, GroupCap(c, g))
    ensures |w| >= Limit(c) || |Members(w, g)| >= GroupCap(c, g) ==>
              forall x | x in v && x !in w :: x == r && PairAt(t, r).group != g
  {
    hide OnlyAt, Ready, Limit, GroupCap;
    if Blocked(t, w, c, now, r).None? {
      assert v == w[r := v[r]];
      MembersGrow(w, r, v[r], g);
    }
  }

  lemma GroupStays(t: Table, w: Workers, c: Config, now: int, at: int, r: PairRef, u: Table, v: Workers, x: PairRef)
    requires ValidRef(t, r) && Advanced(t, w, c, now, at, r, u, v) && ValidRef(t, x)
    ensures ValidRef(u, x) && PairAt(u, x).group == PairAt(t, x).group
  {
    hide Blocked, Ready;
    if x != r { OtherPairs(t, u, r, x); }
  }

  // Starting never takes the worker count above the limit in force, nor a group above its own cap.
  // Counts that already exceed a lowered limit are only left as they are.
  lemma {:induction false} PassRespectsCaps(t: Table, w: Workers, c: Config, now: int, at: int, list: seq<PairRef>,
                                            g: string)
    requires Passable(t, w, list, now, at)
    ensures var d := PumpList(t, w, c, now, at, list);
            && |d.workers| <= Larger(|w|, Limit(c))
            && |Members(d.workers, g)| <= Larger(|Members(w, g)|, GroupCap(c, g))
    decreases |list|
  {
    hide Passable, Advanced, Members, After;
    if list != [] {
      var u, v := HeadStep(t, w, c, now, at, list);
      IterationRespectsCaps(t, w, c, now, at, list[0], u, v, g);
      PassRespectsCaps(u, v, c, now, at, list[1..], g);
    }
  }

  // Whether a wait reason is true of a pair in the state a pass leaves behind.
  predicate Holds(reason: WaitReason, p: Pair, w: Workers, c: Config, now: int) {
    match reason
    case RetryDelay => p.nextAttemptAt.Some? && p.nextAttemptAt.value > now
    case GlobalCapacity => |w| >= Limit(c)
    case SourceCapacity => |Members(w, p.group)| >= GroupCap(c, p.group)
  }

  lemma NotListedTwice(t: Table, w: Workers, list: seq<PairRef>, now: int, at: int)
    requires list != [] && Passable(t, w, list, now, at)
    ensures list[0] !in list[1..]
  {
  }

  // What a pass makes of a listed pair: it runs, or still waits for a stored reason that is still true.
  predicate Dispatched(d: Dispatch, c: Config, now: int, r: PairRef) {
    ValidRef(d.table, r) &&
    var p := PairAt(d.table, r);
    if r in d.workers then p.status == Running
    else Waiting(p.status) && p.waitReason.Some? && Holds(p.waitReason.value, p, d.workers, c, now)
  }

  // The head of the queue, when everything behind it has been visited.
  lemma HeadIsDispatched(t: Table, w: Workers, c: Config, now: int, at: int, r: PairRef, u: Table, v: Workers,
                         d: Dispatch)
    requires ValidRef(t, r) && Advanced(t, w, c, now, at, r, u, v)
    requires ValidRef(d.table, r) && PairAt(d.table, r) == PairAt(u, r) && (r in d.workers <==> r in v)
    requires v.Keys <= d.workers.Keys && forall x | x in v :: d.workers[x] == v[x]
    ensures Dispatched(d, c, now, r)
  {
    MembersMonotone(v, d.workers, PairAt(t, r).group);
  }

  // After a pass every queued pair was either started, or still waits for a stored reason that is still true.
  lemma {:induction false} PassIsWorkConserving(t: Table, w: Workers, c: Config, now: int, at: int, list: seq<PairRef>)
    requires Passable(t, w, list, now, at)
    ensures forall r | r in list :: Dispatched(PumpList(t, w, c, now, at, list), c, now, r)
    decreases |list|
  {
    hide Passable, TableOk, Live, After, Dispatched, Advanced;
    if list != [] {
      var r := list[0];
      var u, v := HeadStep(t, w, c, now, at, list);
      PassIsWorkConserving(u, v, c, now, at, list[1..]);
      PassKeeps(u, v, c, now, at, list[1..]);
      NotListedTwice(t, w, list, now, at);
      StaysValid(t, w, c, now, at, r, u, v);
      Untouched(u, v, c, now, at, list[1..], r);
      HeadIsDispatched(t, w, c, now, at, r, u, v, PumpList(t, w, c, now, at, list));
    }
  }

  lemma StaysValid(t: Table, w: Workers, c: Config, now: int, at: int, r: PairRef, u: Table, v: Workers)
    requires ValidRef(t, r) && Advanced(t, w, c, now, at, r, u, v)
    ensures ValidRef(u, r)
  {
  }

  // A pass does not change pairs outside its queue.
  lemma {:induction false} Untouched(t: Table, w: Workers, c: Config, now: int, at: int, list: seq<PairRef>, r: PairRef)
    requires Passable(t, w, list, now, at) && r !in list && ValidRef(t, r)
    ensures var d := PumpList(t, w, c, now, at, list);
            && ValidRef(d.table, r) && PairAt(d.table, r) == PairAt(t, r)
            && (r in d.workers <==> r in w)
    decreases |list|
  {
    hide Passable, TableOk, Live, After;
    if list != [] {
      var u, v := HeadStep(t, w, c, now, at, list);
      Untouched(u, v, c, now, at, list[1..], r);
    }
  }

  // With the global limit or the cap of group g reached, no further pair of the group starts.
  lemma {:induction false} FullGroupStaysFull(t: Table, w: Workers, c: Config, now: int, at: int, list: seq<PairRef>,
                                              g: string, r: PairRef)
    requires Passable(t, w, list, now, at)
    requires |w| >= Limit(c) || |Members(w, g)| >= GroupCap(c, g)
    requires ValidRef(t, r) && PairAt(t, r).group == g && r in PumpList(t, w, c, now, at, list).workers
    ensures r in w
    decreases |list|
  {
    hide Passable, Advanced, Members, After;
    if list != [] {
      var u, v := HeadStep(t, w, c, now, at, list);
      IterationRespectsCaps(t, w, c, now, at, list[0], u, v, g);
      GroupStays(t, w, c, now, at, list[0], u, v, r);
      FullGroupStaysFull(u, v, c, now, at, list[1..], g, r);
    }
  }

  lemma QueuedIsNoWorker(t: Table, w: Workers, list: seq<PairRef>, now: int, at: int, j: nat)
    requires Passable(t, w, list, now, at) && j < |list|
    ensures list[j] !in w
  {
  }

  lemma LaterPair(t: Table, w: Workers, c: Config, now: int, at: int, list: seq<PairRef>, u: Table, v: Workers, j: nat)
    requires Passable(t, w, list, now, at) && 0 < j < |list| && ValidRef(t, list[0])
             && Advanced(t, w, c, now, at, list[0], u, v)
    ensures ValidRef(t, list[j]) && ValidRef(u, list[j]) && PairAt(u, list[j]) == PairAt(t, list[j])
  {
    OtherPairs(t, u, list[0], list[j]);
  }

  lemma DuePairBlocksItsGroup(t: Table, w: Workers, c: Config, now: int, at: int, list: seq<PairRef>, j: nat)
    requires Passable(t, w, list, now, at) && 0 < j < |list|
    requires ValidRef(t, list[0]) && ValidRef(t, list[j]) && PairAt(t, list[0]).group == PairAt(t, list[j]).group
    requires Blocked(t, w, c, now, list[0]) in {Some(GlobalCapacity), Some(SourceCapacity)}
    ensures list[j] !in PumpList(t, w, c, now, at, list).workers
  {
    hide Passable, TableOk, Live, After;
    if list[j] in PumpList(t, w, c, now, at, list).workers {
      QueuedIsNoWorker(t, w, list, now, at, j);
      FullGroupStaysFull(t, w, c, now, at, list, PairAt(t, list[0]).group, list[j]);
    }
  }

  lemma StartsIt(t: Table, w: Workers, c: Config, now: int, at: int, r: PairRef, u: Table, v: Workers)
    requires ValidRef(t, r) && Advanced(t, w, c, now, at, r, u, v) && Blocked(t, w, c, now, r).None?
    ensures r in v
  {
  }

  // No pair is started past an earlier pair of its group that was due.
  lemma {:induction false} PassRespectsOrder(t: Table, w: Workers, c: Config, now: int, at: int, list: seq<PairRef>,
                                             i: nat, j: nat)
    requires Passable(t, w, list, now, at) && i < j < |list|
    requires ValidRef(t, list[i]) && ValidRef(t, list[j])
    requires PairAt(t, list[i]).group == PairAt(t, list[j]).group && Due(PairAt(t, list[i]), now)
    requires list[j] in PumpList(t, w, c, now, at, list).workers
    ensures list[i] in PumpList(t, w, c, now, at, list).workers
    decreases |list|
  {
    hide Passable, TableOk, Live, After, Advanced;
    var u, v := HeadStep(t, w, c, now, at, list);
    if i > 0 {
      LaterPair(t, w, c, now, at, list, u, v, i);
      LaterPair(t, w, c, now, at, list, u, v, j);
      PassRespectsOrder(u, v, c, now, at, list[1..], i - 1, j - 1);
    } else if Blocked(t, w, c, now, list[0]).None? {
      assert list[0] in v by { StartsIt(t, w, c, now, at, list[0], u, v); }
      PassKeeps(u, v, c, now, at, list[1..]);
    } else {
      DuePairBlocksItsGroup(t, w, c, now, at, list, j);
      assert false;
    }
  }

  predicate Due(p: Pair, now: int) { !(p.nextAttemptAt.Some? && p.nextAttemptAt.value > now) }

  lemma QueueIsPassable(t: Table, w: Workers, now: int, at: int)
    requires TableOk(t) && Live(t, w) && now <= at
    ensures Passable(t, w, ReadyPairs(t), now, at)
    ensures forall r :: r in ReadyPairs(t) <==> Ready(t, r)
    ensures Ordered(t, ReadyPairs(t))
  {
    QueueOrder(t);
    var list := ReadyPairs(t);
    assert forall k | 0 <= k < |list| :: list[k] in list;
  }

  // Work conservation for the queue pump reads from the database: whatever is still ready waits for a true reason.
  lemma PumpIsWorkConserving(t: Table, w: Workers, c: Config, now: int, at: int)
    requires TableOk(t) && Live(t, w) && now <= at
    ensures var d := Pumped(t, w, c, now, at);
            && d.refused == None && TableOk(d.table) && Live(d.table, d.workers)
            && forall r | Ready(d.table, r) ::
                 var p := PairAt(d.table, r);
                 p.waitReason.Some? && Holds(p.waitReason.value, p, d.workers, c, now)
  {
    hide Passable, TableOk, Live, After;
    var list := ReadyPairs(t);
    QueueIsPassable(t, w, now, at);
    PassKeeps(t, w, c, now, at, list);
    PassIsWorkConserving(t, w, c, now, at, list);
    var d := Pumped(t, w, c, now, at);
    forall r | Ready(d.table, r)
      ensures PairAt(d.table, r).waitReason.Some?
              && Holds(PairAt(d.table, r).waitReason.value, PairAt(d.table, r), d.workers, c, now)
    {
      if r !in list {
        PassIsKin(t, w, c, now, at, list);
        NotReadyStays(t, w, c, now, at, list, r);
      }
    }
  }

  // Priority, then admission order, within a group: a due pair is never overtaken.
  lemma PumpRespectsOrder(t: Table, w: Workers, c: Config, now: int, at: int, a: PairRef, b: PairRef)
    requires TableOk(t) && Live(t, w) && now <= at
    requires Ready(t, a) && Ready(t, b) && Before(t, a, b) && PairAt(t, a).group == PairAt(t, b).group
             && Due(PairAt(t, a), now)
    requires b in Pumped(t, w, c, now, at).workers
    ensures a in Pumped(t, w, c, now, at).workers
  {
    hide Passable, TableOk, Live, After;
    var list := ReadyPairs(t);
    QueueIsPassable(t, w, now, at);
    var i :| 0 <= i < |list| && list[i] == a;
    var j :| 0 <= j < |list| && list[j] == b;
    assert i < j by {
      if j < i { assert Before(t, list[j], list[i]); SequencesDiffer(t, a, b); }
    }
    PassRespectsOrder(t, w, c, now, at, list, i, j);
  }

  // The queue order is strict.
  lemma SequencesDiffer(t: Table, a: PairRef, b: PairRef)
    requires TableOk(t) && ValidRef(t, a) && ValidRef(t, b) && Before(t, a, b)
    ensures !Before(t, b, a)
  {
    if a.execution < b.execution { assert t[a.execution].sequence < t[b.execution].sequence; }
    if b.execution < a.execution { assert t[b.execution].sequence < t[a.execution].sequence; }
  }

  // The same pairs of the same connections and groups; what was terminal still is.
  ghost predicate Kin(t: Table, u: Table) {
    && |u| == |t|
    && (forall e | 0 <= e < |t| :: SameOrigin(t[e], u[e]))
    && (forall r :: ValidRef(u, r) <==> ValidRef(t, r))
    && forall r | ValidRef(t, r) ::
         && PairAt(u, r).group == PairAt(t, r).group && PairAt(u, r).connection == PairAt(t, r).connection
         && (Terminal(PairAt(t, r).status) ==> Terminal(PairAt(u, r).status))
  }

  lemma KinStep(t: Table, w: Workers, c: Config, now: int, at: int, r: PairRef, u: Table, v: Workers)
    requires ValidRef(t, r) && Advanced(t, w, c, now, at, r, u, v)
    ensures Kin(t, u)
  {
    forall s ensures ValidRef(u, s) <==> ValidRef(t, s)
             ensures ValidRef(t, s) && s != r ==> PairAt(u, s) == PairAt(t, s)
    {
      if s != r { OtherPairs(t, u, r, s); }
    }
  }

  lemma {:induction false} PassIsKin(t: Table, w: Workers, c: Config, now: int, at: int, list: seq<PairRef>)
    requires Passable(t, w, list, now, at)
    ensures Kin(t, PumpList(t, w, c, now, at, list).table)
    decreases |list|
  {
    hide Passable, TableOk, Live, After, Advanced;
    if list != [] {
      var u, v := HeadStep(t, w, c, now, at, list);
      KinStep(t, w, c, now, at, list[0], u, v);
      PassIsKin(u, v, c, now, at, list[1..]);
    }
  }

  lemma {:induction false} NotReadyStays(t: Table, w: Workers, c: Config, now: int, at: int, list: seq<PairRef>,
                                         r: PairRef)
    requires Passable(t, w, list, now, at) && ValidRef(t, r) && !Ready(t, r)
    ensures !Ready(PumpList(t, w, c, now, at, list).table, r)
    decreases |list|
  {
    hide Passable, TableOk, Live, After;
    if list != [] {
      var u, v := HeadStep(t, w, c, now, at, list);
      assert list[0] in list;
      assert !Ready(u, r) by {
        if Waiting(PairAt(t, r).status) {
          assert !Eligible(t[r.execution].status);
          assert list[0].execution != r.execution;
        }
      }
      NotReadyStays(u, v, c, now, at, list[1..], r);
    }
  }
}
