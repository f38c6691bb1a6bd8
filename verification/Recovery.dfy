/** ExecutionService.recover: what restarting after a crash makes of attempts that were in progress. */
module Recovery {
  import opened ExecutionTypes
  import opened Wrappers
  import opened ExecutionStore
  import opened ExecutionInvariant
  import opened Dispatcher

  datatype AttemptId = AttemptId(ref: PairRef, attempt: nat)

  // The row of backup_runs that names an attempt.
  datatype RunRow = RunRow(id: string, success: bool)

  type RunRows = map<AttemptId, RunRow>

  predicate RunningAt(t: Table, r: PairRef, k: nat) {
    ValidRef(t, r) && k < |PairAt(t, r).attempts| && PairAt(t, r).attempts[k].status == Running
  }

  predicate Precedes(c: Context, d: Context) {
    c.ref.execution < d.ref.execution
    || (c.ref.execution == d.ref.execution
        && (c.ref.pair < d.ref.pair || (c.ref.pair == d.ref.pair && c.attempt < d.attempt)))
  }

  ghost predicate Ascending(list: seq<Context>) { forall i, j | 0 <= i < j < |list| :: Precedes(list[i], list[j]) }

  // The context recover rebuilds from the rows of an attempt.
  function RowContext(t: Table, r: PairRef, k: nat): Context
    requires ValidRef(t, r) && k < |PairAt(t, r).attempts|
  {
    var p := PairAt(t, r);
    Context(r, k, p.attempts[k].number, p.retryCount, p.retryDelay)
  }

  // SELECT ... FROM backup_execution_attempts WHERE status='running'.
  function RunningFrom(t: Table, e: nat, p: nat, k: nat): seq<Context>
    decreases |t| - e, if e < |t| then |t[e].pairs| - p else 0,
              if e < |t| && p < |t[e].pairs| then |t[e].pairs[p].attempts| - k else 0
  {
    if e >= |t| then []
    else if p >= |t[e].pairs| then RunningFrom(t, e + 1, 0, 0)
    else if k >= |t[e].pairs[p].attempts| then RunningFrom(t, e, p + 1, 0)
    else if t[e].pairs[p].attempts[k].status == Running then
      [RowContext(t, PairRef(e, p), k)] + RunningFrom(t, e, p, k + 1)
    else RunningFrom(t, e, p, k + 1)
  }

  // c is at or behind attempt k of pair p of execution e.
  predicate NotBefore(c: Context, e: nat, p: nat, k: nat) {
    c.ref.execution > e || (c.ref.execution == e && (c.ref.pair > p || (c.ref.pair == p && c.attempt >= k)))
  }

  // The rows of running attempts from there on, in ascending order.
  ghost predicate Listed(t: Table, list: seq<Context>, e: nat, p: nat, k: nat) {
    && (forall i | 0 <= i < |list| ::
          RunningAt(t, list[i].ref, list[i].attempt) && list[i] == RowContext(t, list[i].ref, list[i].attempt))
    && (forall i | 0 <= i < |list| :: NotBefore(list[i], e, p, k))
    && Ascending(list)
  }

  lemma ListedNothing(t: Table, e: nat, p: nat, k: nat)
    ensures Listed(t, [], e, p, k)
  {
  }

  lemma Earlier(t: Table, list: seq<Context>, e: nat, p: nat, k: nat, e': nat, p': nat, k': nat)
    requires Listed(t, list, e', p', k')
    requires e < e' || (e == e' && (p < p' || (p == p' && k <= k')))
    ensures Listed(t, list, e, p, k)
  {
    hide RunningAt, RowContext, Ascending;
  }

  lemma ListedCons(t: Table, rest: seq<Context>, e: nat, p: nat, k: nat)
    requires Listed(t, rest, e, p, k + 1) && RunningAt(t, PairRef(e, p), k)
    ensures Listed(t, [RowContext(t, PairRef(e, p), k)] + rest, e, p, k)
  {
  }

  lemma {:induction false} RunningFromLists(t: Table, e: nat, p: nat, k: nat)
    ensures Listed(t, RunningFrom(t, e, p, k), e, p, k)
    decreases |t| - e, if e < |t| then |t[e].pairs| - p else 0,
              if e < |t| && p < |t[e].pairs| then |t[e].pairs[p].attempts| - k else 0
  {
    hide Listed, RowContext, NotBefore;
    if e >= |t| {
      assert Listed(t, [], e, p, k) by { ListedNothing(t, e, p, k); }
    } else if p >= |t[e].pairs| {
      RunningFromLists(t, e + 1, 0, 0);
      Earlier(t, RunningFrom(t, e + 1, 0, 0), e, p, k, e + 1, 0, 0);
    } else if k >= |t[e].pairs[p].attempts| {
      RunningFromLists(t, e, p + 1, 0);
      Earlier(t, RunningFrom(t, e, p + 1, 0), e, p, k, e, p + 1, 0);
    } else {
      var rest := RunningFrom(t, e, p, k + 1);
      RunningFromLists(t, e, p, k + 1);
      if t[e].pairs[p].attempts[k].status == Running {
        ListedCons(t, rest, e, p, k);
      } else {
        Earlier(t, rest, e, p, k, e, p, k + 1);
      }
    }
  }

  function RunningAttempts(t: Table): seq<Context> { RunningFrom(t, 0, 0, 0) }

  lemma {:induction false} RunningFromComplete(t: Table, e: nat, p: nat, k: nat, r: PairRef, n: nat)
    requires RunningAt(t, r, n)
    requires r.execution > e || (r.execution == e && (r.pair > p || (r.pair == p && n >= k)))
    ensures RowContext(t, r, n) in RunningFrom(t, e, p, k)
    decreases |t| - e, if e < |t| then |t[e].pairs| - p else 0,
              if e < |t| && p < |t[e].pairs| then |t[e].pairs[p].attempts| - k else 0
  {
    hide RowContext;
    if p >= |t[e].pairs| {
      RunningFromComplete(t, e + 1, 0, 0, r, n);
    } else if k >= |t[e].pairs[p].attempts| {
      RunningFromComplete(t, e, p + 1, 0, r, n);
    } else if r != PairRef(e, p) || n != k {
      RunningFromComplete(t, e, p, k + 1, r, n);
    }
  }

  // Success exactly when the run of the attempt was recorded as a success.
  function Verdict(rows: RunRows, c: Context): Outcome {
    var id := AttemptId(c.ref, c.attempt);
    if id in rows then Outcome(rows[id].id, if rows[id].success then Success else Interrupted)
    else Outcome("", Interrupted)
  }

  function RecoverList(t: Table, list: seq<Context>, rows: RunRows, now: int): Table
    decreases |list|
  {
    if list == [] then t
    else RecoverList(FinishedTable(t, list[0], Verdict(rows, list[0]), now), list[1..], rows, now)
  }

  function Recovered(t: Table, rows: RunRows, now: int): Table { RecoverList(t, RunningAttempts(t), rows, now) }

  // ---------------------------------------------------------------- one row

  // c names the attempt in progress of its pair.
  ghost predicate Pending(t: Table, c: Context) {
    ValidRef(t, c.ref) && Issued(t[c.ref.execution], c) && InProgress(PairAt(t, c.ref), c)
  }

  lemma FinishRow(t: Table, c: Context, outcome: Outcome, now: int)
    requires TableOk(t) && Pending(t, c)
    ensures var u := FinishedTable(t, c, outcome, now);
            && TableOk(u) && Kin(t, u)
            && PairAt(u, c.ref) == FinishedPair(PairAt(t, c.ref), c, outcome, now)
            && forall r | ValidRef(t, r) && r != c.ref :: PairAt(u, r) == PairAt(t, r)
  {
    hide ExecutionOk, Aggregate, AllTerminal, Recorded, Retries, MaxNumber;
    FinishKeeps(t[c.ref.execution], c, outcome, now);
    FinishSettles(PairAt(t, c.ref), c, outcome, now);
  }

  lemma FinishSettles(p: Pair, c: Context, outcome: Outcome, now: int)
    requires InProgress(p, c)
    ensures var q := FinishedPair(p, c, outcome, now);
            !Active(q.status) && !Terminal(p.status) && q.group == p.group && q.connection == p.connection
  {
  }

  ghost predicate DistinctRefs(list: seq<Context>) { forall i, j | 0 <= i < j < |list| :: list[i].ref != list[j].ref }

  ghost predicate AllPending(t: Table, list: seq<Context>) { forall i | 0 <= i < |list| :: Pending(t, list[i]) }

  // Every listed attempt ended as its verdict says; every other pair is untouched.
  ghost predicate Resolved(t: Table, u: Table, list: seq<Context>, rows: RunRows, now: int) {
    && Kin(t, u)
    && (forall c | c in list ::
        Pending(t, c) && ValidRef(u, c.ref)
            && PairAt(u, c.ref) == FinishedPair(PairAt(t, c.ref), c, Verdict(rows, c), now))
    && (forall r | ValidRef(t, r) && (forall c | c in list :: c.ref != r) ::
        ValidRef(u, r) && PairAt(u, r) == PairAt(t, r))
  }

  lemma {:induction false} RecoverEach(t: Table, list: seq<Context>, rows: RunRows, now: int)
    requires TableOk(t) && DistinctRefs(list) && AllPending(t, list)
    ensures TableOk(RecoverList(t, list, rows, now)) && Resolved(t, RecoverList(t, list, rows, now), list, rows, now)
    decreases |list|
  {
    hide TableOk;
    if list != [] {
      var c := list[0];
      FinishRow(t, c, Verdict(rows, c), now);
      var u := FinishedTable(t, c, Verdict(rows, c), now);
      forall i | 0 <= i < |list[1..]| ensures Pending(u, list[1..][i]) {
        StillPending(t, u, c, Verdict(rows, c), now, list[i + 1]);
      }
      RecoverEach(u, list[1..], rows, now);
      JoinResolved(t, u, RecoverList(t, list, rows, now), list, rows, now);
    }
  }

  lemma JoinResolved(t: Table, u: Table, v: Table, list: seq<Context>, rows: RunRows, now: int)
    requires list != [] && DistinctRefs(list) && AllPending(t, list)
    requires Resolved(u, v, list[1..], rows, now) && Kin(t, u)
    requires PairAt(u, list[0].ref) == FinishedPair(PairAt(t, list[0].ref), list[0], Verdict(rows, list[0]), now)
    requires forall r | ValidRef(t, r) && r != list[0].ref :: PairAt(u, r) == PairAt(t, r)
    ensures Resolved(t, v, list, rows, now)
  {
    hide FinishedPair, Verdict, Issued, InProgress, Kin;
    KinTwice(t, u, v);
    SameRefs(t, u);
    forall c | c in list
      ensures Pending(t, c) && ValidRef(v, c.ref)
              && PairAt(v, c.ref) == FinishedPair(PairAt(t, c.ref), c, Verdict(rows, c), now)
    {
      var i :| 0 <= i < |list| && list[i] == c;
      if i > 0 {
        assert list[1..][i - 1] == c;
        assert PairAt(u, c.ref) == PairAt(t, c.ref);
      } else {
        assert forall d | d in list[1..] :: d.ref != c.ref;
      }
    }
    forall r | ValidRef(t, r) && (forall c | c in list :: c.ref != r)
      ensures ValidRef(v, r) && PairAt(v, r) == PairAt(t, r) {
      assert list[0] in list;
      assert forall d | d in list[1..] :: d in list;
    }
  }

  lemma KinTwice(t: Table, u: Table, v: Table)
    requires Kin(t, u) && Kin(u, v)
    ensures Kin(t, v)
  {
  }

  lemma SameRefs(t: Table, u: Table)
    requires Kin(t, u)
    ensures forall r :: ValidRef(u, r) <==> ValidRef(t, r)
  {
  }

  lemma StillPending(t: Table, u: Table, c: Context, outcome: Outcome, now: int, d: Context)
    requires Pending(t, c) && Pending(t, d) && d.ref != c.ref
    requires u == FinishedTable(t, c, outcome, now)
    ensures Pending(u, d)
  {
  }

  // ---------------------------------------------------------------- recovery as a whole

  // A listed attempt is the one in progress of its pair.
  lemma RowIsPending(t: Table, r: PairRef, k: nat)
    requires TableOk(t) && RunningAt(t, r, k)
    ensures Pending(t, RowContext(t, r, k)) && k == |PairAt(t, r).attempts| - 1
  {
    PairFromTable(t, r);
    OneRunningAttempt(PairAt(t, r));
  }

  lemma ActiveRuns(t: Table, r: PairRef)
    requires TableOk(t) && ValidRef(t, r) && Active(PairAt(t, r).status)
    ensures |PairAt(t, r).attempts| > 0 && RunningAt(t, r, |PairAt(t, r).attempts| - 1)
  {
    PairFromTable(t, r);
  }

  lemma RowsArePending(t: Table)
    requires TableOk(t)
    ensures var list := RunningAttempts(t);
            && DistinctRefs(list) && AllPending(t, list)
            && (forall r | ValidRef(t, r) && Active(PairAt(t, r).status) ::
                exists i :: 0 <= i < |list| && list[i].ref == r)
  {
    hide TableOk, Pending;
    var list := RunningAttempts(t);
    RunningFromLists(t, 0, 0, 0);
    forall i | 0 <= i < |list| ensures Pending(t, list[i]) && list[i].attempt == |PairAt(t, list[i].ref).attempts| - 1 {
      RowIsPending(t, list[i].ref, list[i].attempt);
    }
    forall r | ValidRef(t, r) && Active(PairAt(t, r).status) ensures exists i :: 0 <= i < |list| && list[i].ref == r {
      ActiveRuns(t, r);
      RunningFromComplete(t, 0, 0, 0, r, |PairAt(t, r).attempts| - 1);
    }
  }

  // What recovery may make of pair p at r.
  ghost predicate Settles(rows: RunRows, r: PairRef, p: Pair, q: Pair) {
    && !Active(q.status)
    && (forall k | 0 <= k < |q.attempts| :: q.attempts[k].status != Running)
    && (!Active(p.status) ==> q == p)
    && (Active(p.status) ==>
          && q.attempts != [] && |q.attempts| == |p.attempts|
          && Terminal(q.status) && Last(q.attempts).status == q.status
          && (q.status == Success <==> RecordedSuccess(rows, r, |p.attempts| - 1))
          && (q.status != Success ==> q.status == if p.status == CancelRequested then Cancelled else Interrupted))
  }

  lemma VerdictSettles(t: Table, rows: RunRows, c: Context, now: int)
    requires Pending(t, c) && PairOk(PairAt(t, c.ref))
    ensures Settles(rows, c.ref, PairAt(t, c.ref), FinishedPair(PairAt(t, c.ref), c, Verdict(rows, c), now))
  {
    OneRunningAttempt(PairAt(t, c.ref));
  }

  // From any reachable state recovery restores the whole invariant and leaves nothing in progress. An attempt
  // in progress becomes a success iff its run was recorded as one, is cancelled if that was requested, and is
  // otherwise interrupted, never retried. Pairs that were not in progress are untouched.
  lemma RecoveryIsExact(t: Table, rows: RunRows, now: int)
    requires TableOk(t)
    ensures var u := Recovered(t, rows, now);
            && TableOk(u) && Kin(t, u)
            && forall r | ValidRef(t, r) :: ValidRef(u, r) && Settles(rows, r, PairAt(t, r), PairAt(u, r))
  {
    hide TableOk, Settles, PairOk;
    RowsArePending(t);
    var list := RunningAttempts(t);
    RecoverEach(t, list, rows, now);
    var u := Recovered(t, rows, now);
    forall r | ValidRef(t, r) ensures ValidRef(u, r) && Settles(rows, r, PairAt(t, r), PairAt(u, r)) {
      PairFromTable(t, r);
      if i :| 0 <= i < |list| && list[i].ref == r {
        VerdictSettles(t, rows, list[i], now);
      } else {
        IdleSettles(rows, r, PairAt(t, r));
      }
    }
  }

  lemma IdleSettles(rows: RunRows, r: PairRef, p: Pair)
    requires PairOk(p) && !Active(p.status)
    ensures Settles(rows, r, p, p)
  {
    OneRunningAttempt(p);
  }

  predicate RecordedSuccess(rows: RunRows, r: PairRef, k: int) {
    k >= 0 && AttemptId(r, k) in rows && rows[AttemptId(r, k)].success
  }

  lemma PairFromTable(t: Table, r: PairRef)
    requires TableOk(t) && ValidRef(t, r)
    ensures PairOk(PairAt(t, r))
  {
  }

  // Work that had not begun can be dispatched right after recovery; a cancelled execution has no waiting pairs.
  lemma WaitingWorkSurvives(t: Table, rows: RunRows, now: int, r: PairRef)
    requires TableOk(t) && ValidRef(t, r) && Waiting(PairAt(t, r).status)
    ensures Ready(Recovered(t, rows, now), r)
    ensures PairAt(Recovered(t, rows, now), r) == PairAt(t, r)
  {
    RecoveryIsExact(t, rows, now);
    WaitingIsReady(Recovered(t, rows, now), r);
  }

  lemma WaitingIsReady(t: Table, r: PairRef)
    requires TableOk(t) && ValidRef(t, r) && Waiting(PairAt(t, r).status)
    ensures Ready(t, r)
  {
    var e := t[r.execution];
    assert e.pairs[r.pair] in e.pairs;
    FinishedIffPairsTerminal(e);
  }

  lemma NothingRuns(t: Table, rows: RunRows, now: int, r: PairRef, k: nat)
    requires TableOk(t)
    ensures !RunningAt(Recovered(t, rows, now), r, k)
  {
    RecoveryIsExact(t, rows, now);
  }

  // A second recovery finds nothing to do.
  lemma RecoveryIsIdempotent(t: Table, rows: RunRows, now: int, more: RunRows, later: int)
    requires TableOk(t)
    ensures Recovered(Recovered(t, rows, now), more, later) == Recovered(t, rows, now)
  {
    RecoveryIsExact(t, rows, now);
    var u := Recovered(t, rows, now);
    var list := RunningAttempts(u);
    RunningFromLists(u, 0, 0, 0);
    if list != [] {
      NothingRuns(t, rows, now, list[0].ref, list[0].attempt);
      assert false;
    }
  }
}
