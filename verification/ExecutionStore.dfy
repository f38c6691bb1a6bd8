/** The pair / attempt / execution state machine of ExecutionStore. */
module ExecutionStore {
  import opened ExecutionTypes
  import opened Wrappers

  // ---------------------------------------------------------------- one execution

  function MaxNumber(attempts: seq<Attempt>): (n: nat)
    ensures forall a :: a in attempts ==> a.number <= n
    ensures attempts != [] ==> exists a :: a in attempts && a.number == n
  {
    if attempts == [] then 0
    else
      var rest := MaxNumber(attempts[1..]);
      if rest > attempts[0].number then rest
      else assert attempts[0] in attempts; attempts[0].number
  }

  function StartedPair(p: Pair, now: int): Pair {
    p.(status := Running, waitReason := None,
       startedAt := if p.startedAt == None then Some(now) else p.startedAt,
       attempts := p.attempts + [Attempt(MaxNumber(p.attempts) + 1, Running, None, now, None)])
  }

  function StartedExecution(e: Execution, i: nat, now: int): Execution
    requires i < |e.pairs|
  {
    e.(status := Running, startedAt := if e.startedAt == None then Some(now) else e.startedAt,
       pairs := e.pairs[i := StartedPair(e.pairs[i], now)])
  }

  function CancelledPair(p: Pair, now: int): Pair {
    if Waiting(p.status) then
      p.(status := NotStarted, finishedAt := Some(now), nextAttemptAt := None, waitReason := None)
    else if p.status == Running then p.(status := CancelRequested)
    else p
  }

  predicate Cancellable(s: Status) { s in {Queued, Running, Retrying, CancelRequested} }

  predicate AnyActive(pairs: seq<Pair>) { exists p | p in pairs :: Active(p.status) }

  function CancelledExecution(e: Execution, now: int): Execution {
    if !Cancellable(e.status) then e
    else
      e.(pairs := seq(|e.pairs|, i requires 0 <= i < |e.pairs| => CancelledPair(e.pairs[i], now)),
         status := if AnyActive(e.pairs) then CancelRequested else Cancelled,
         finishedAt := if AnyActive(e.pairs) then None else Some(now))
  }

  predicate AllTerminal(pairs: seq<Pair>) { forall p | p in pairs :: Terminal(p.status) }

  predicate Has(pairs: seq<Pair>, s: Status) { exists p | p in pairs :: p.status == s }

  // The execution status that a set of pairs stands for, while no cancellation was requested.
  function Summary(pairs: seq<Pair>): Status {
    if AllTerminal(pairs) then
      if forall p | p in pairs :: p.status == Success then Success
      else if Has(pairs, Success) then PartialFailure
      else if Has(pairs, Failed) then Failed
      else if Has(pairs, Interrupted) then Interrupted
      else Failed
    else if Has(pairs, Running) then Running
    else if Has(pairs, RetryWait) then Retrying
    else Queued
  }

  function Aggregate(current: Status, pairs: seq<Pair>): Status {
    if current == CancelRequested then
      if AllTerminal(pairs) then Cancelled else CancelRequested
    else Summary(pairs)
  }

  // The outcome that is recorded: whatever a cancelled attempt returns, except success, is a cancellation.
  function Recorded(p: Pair, outcome: Outcome): OutcomeStatus {
    if p.status == CancelRequested && outcome.status != Success then Cancelled else outcome.status
  }

  predicate Retries(p: Pair, c: Context, outcome: Outcome) {
    p.status != CancelRequested && outcome.status == Failed && c.number <= c.retryCount
  }

  // Whether the attempt named by the context is the one in progress.
  predicate InProgress(p: Pair, c: Context) {
    c.attempt < |p.attempts| && p.attempts[c.attempt].status == Running && Active(p.status)
  }

  function FinishedPair(p: Pair, c: Context, outcome: Outcome, now: int): Pair
    requires InProgress(p, c)
  {
    var retry := Retries(p, c, outcome);
    p.(status := if retry then RetryWait else Recorded(p, outcome),
       finishedAt := if retry then None else Some(now),
       nextAttemptAt := if retry then Some(now + Max0(c.retryDelay) * 1000) else None,
       waitReason := if retry then Some(RetryDelay) else None,
       attempts := p.attempts[c.attempt := p.attempts[c.attempt].(
         status := Recorded(p, outcome), run := Some(outcome.run), finishedAt := Some(now))])
  }

  function FinishedExecution(e: Execution, c: Context, outcome: Outcome, now: int): Execution
    requires c.ref.pair < |e.pairs|
  {
    if !InProgress(e.pairs[c.ref.pair], c) then e
    else
      var pairs := e.pairs[c.ref.pair := FinishedPair(e.pairs[c.ref.pair], c, outcome, now)];
      e.(pairs := pairs, status := Aggregate(e.status, pairs),
         finishedAt := if AllTerminal(pairs) then Some(now) else None)
  }

  // ---------------------------------------------------------------- the table

  function StartRefusal(t: Table, r: PairRef, now: int): Option<StartError> {
    if !ValidRef(t, r) then Some(PairMissing)
    else if !Eligible(t[r.execution].status) then Some(ExecutionNotEligible)
    else if PairAt(t, r).nextAttemptAt.Some? && PairAt(t, r).nextAttemptAt.value > now then Some(DelayNotElapsed)
    else if !Waiting(PairAt(t, r).status) then Some(PairNotEligible)
    else None
  }

  function Started(t: Table, r: PairRef, now: int): Table
    requires ValidRef(t, r)
  {
    t[r.execution := StartedExecution(t[r.execution], r.pair, now)]
  }

  function StartContext(t: Table, r: PairRef): Context
    requires ValidRef(t, r)
  {
    var p := PairAt(t, r);
    Context(r, |p.attempts|, MaxNumber(p.attempts) + 1, p.retryCount, p.retryDelay)
  }

  function CancelRequestedTable(t: Table, e: nat, now: int): Table
    requires e < |t|
  {
    t[e := CancelledExecution(t[e], now)]
  }

  function FinishedTable(t: Table, c: Context, outcome: Outcome, now: int): Table {
    if !ValidRef(t, c.ref) then t
    else t[c.ref.execution := FinishedExecution(t[c.ref.execution], c, outcome, now)]
  }

  // ---------------------------------------------------------------- admission

  datatype Selection = Selection(connection: string, target: string, group: string, required: bool, retryCount: int,
                                 retryDelay: int)

  function FreshPair(s: Selection): Pair {
    Pair(s.connection, s.target, s.group, s.required, s.retryCount, s.retryDelay, Queued, None, None, None, None, [])
  }

  function MaxSequence(t: Table): (n: nat)
    ensures forall e :: e in t ==> e.sequence <= n
  {
    if t == [] then 0
    else
      var rest := MaxSequence(t[1..]);
      if rest > t[0].sequence then rest else t[0].sequence
  }

  function FreshExecution(t: Table, job: string, trigger: Trigger, scheduledFor: Option<int>,
                          selections: seq<Selection>, now: int): Execution {
    Execution(job, trigger, Queued, scheduledFor, now, None, None, 0, MaxSequence(t) + 1, 0,
              seq(|selections|, i requires 0 <= i < |selections| => FreshPair(selections[i])))
  }

  // The unique key (execution, connection, target) of the pairs table.
  predicate UniqueSelections(selections: seq<Selection>) {
    forall i, j | 0 <= i < j < |selections| ::
      (selections[i].connection, selections[i].target) != (selections[j].connection, selections[j].target)
  }

  // The execution already admitted for this occurrence of the schedule, if any.
  predicate AdmittedAs(t: Table, job: string, scheduledFor: Option<int>, id: nat) {
    scheduledFor.Some? && id < |t| && t[id].job == job && t[id].scheduledFor == scheduledFor
  }

  // ---------------------------------------------------------------- the store object

  class Store {
    var executions: Table

    constructor ()
      ensures executions == []
    {
      executions := [];
    }

    method StartAttempt(r: PairRef, now: int) returns (result: Result<Context, StartError>)
      modifies this
      ensures StartRefusal(old(executions), r, now).Some? ==>
                result == Err(StartRefusal(old(executions), r, now).value) && executions == old(executions)
      ensures StartRefusal(old(executions), r, now).None? ==>
                result == Ok(StartContext(old(executions), r)) && executions == Started(old(executions), r, now)
    {
      if !ValidRef(executions, r) { return Err(PairMissing); }
      var e := executions[r.execution];
      var p := e.pairs[r.pair];
      if !Eligible(e.status) { return Err(ExecutionNotEligible); }
      if p.nextAttemptAt.Some? && p.nextAttemptAt.value > now { return Err(DelayNotElapsed); }
      if p.status != Queued && p.status != RetryWait { return Err(PairNotEligible); }
      var number := MaxNumber(p.attempts) + 1;
      var attempt := |p.attempts|;
      p := p.(attempts := p.attempts + [Attempt(number, Running, None, now, None)]);
      p := p.(status := Running, waitReason := None);
      if p.startedAt == None { p := p.(startedAt := Some(now)); }
      e := e.(pairs := e.pairs[r.pair := p]);
      e := e.(status := Running);
      if e.startedAt == None { e := e.(startedAt := Some(now)); }
      executions := executions[r.execution := e];
      result := Ok(Context(r, attempt, number, p.retryCount, p.retryDelay));
    }

    method RequestCancellation(id: nat, now: int) returns (found: bool)
      modifies this
      ensures found == (id < |old(executions)|)
      ensures executions == if found then CancelRequestedTable(old(executions), id, now) else old(executions)
    {
      if id >= |executions| { return false; }
      found := true;
      var e := executions[id];
      if !Cancellable(e.status) {
        assert executions[id := e] == executions;
        return;
      }
      var pairs := e.pairs;
      var active := false;
      for i := 0 to |pairs|
        invariant |pairs| == |e.pairs|
        invariant forall k :: 0 <= k < i ==> pairs[k] == CancelledPair(e.pairs[k], now)
        invariant forall k :: i <= k < |pairs| ==> pairs[k] == e.pairs[k]
        invariant active <==> exists k :: 0 <= k < i && Active(e.pairs[k].status)
      {
        if Active(pairs[i].status) { active := true; }
        if pairs[i].status == Queued || pairs[i].status == RetryWait {
          pairs := pairs[i := pairs[i].(
            status := NotStarted, finishedAt := Some(now), nextAttemptAt := None, waitReason := None)];
        } else if pairs[i].status == Running {
          pairs := pairs[i := pairs[i].(status := CancelRequested)];
        }
      }
      assert pairs == seq(|e.pairs|, i requires 0 <= i < |e.pairs| => CancelledPair(e.pairs[i], now));
      assert active == AnyActive(e.pairs);
      e := e.(pairs := pairs);
      e := e.(
        status := if active then CancelRequested else Cancelled, finishedAt := if active then None else Some(now));
      executions := executions[id := e];
    }

    method FinishAttempt(c: Context, outcome: Outcome, now: int)
      modifies this
      ensures executions == FinishedTable(old(executions), c, outcome, now)
    {
      hide AllTerminal, Aggregate;
      if !ValidRef(executions, c.ref) { return; }
      var e := executions[c.ref.execution];
      var p := e.pairs[c.ref.pair];
      if c.attempt >= |p.attempts| || p.attempts[c.attempt].status != Running || !Active(p.status) {
        assert executions[c.ref.execution := e] == executions;
        return;
      }
      var cancelling := p.status == CancelRequested;
      var status := outcome.status;
      if cancelling && status != Success { status := Cancelled; }
      var a := p.attempts[c.attempt].(status := status, run := Some(outcome.run), finishedAt := Some(now));
      p := p.(attempts := p.attempts[c.attempt := a]);
      var retry := !cancelling && status == Failed && c.number <= c.retryCount;
      p := p.(status := if retry then RetryWait else status,
              finishedAt := if retry then None else Some(now),
              nextAttemptAt := if retry then Some(now + Max0(c.retryDelay) * 1000) else None,
              waitReason := if retry then Some(RetryDelay) else None);
      e := e.(pairs := e.pairs[c.ref.pair := p]);
      var terminal, aggregate := SummarisePairs(e.status, e.pairs);
      e := e.(status := aggregate, finishedAt := if terminal then Some(now) else None);
      executions := executions[c.ref.execution := e];
    }

    // pairs.filter(p => p.status === s).length
    static method CountStatus(pairs: seq<Pair>, s: Status) returns (n: nat)
      ensures n <= |pairs| && (n > 0 <==> Has(pairs, s))
      ensures n == |pairs| <==> forall p | p in pairs :: p.status == s
    {
      n := 0;
      for i := 0 to |pairs|
        invariant n <= i && (n > 0 <==> exists k :: 0 <= k < i && pairs[k].status == s)
        invariant n == i <==> forall k | 0 <= k < i :: pairs[k].status == s
      {
        if pairs[i].status == s { n := n + 1; }
      }
    }

    static method EveryTerminal(pairs: seq<Pair>) returns (terminal: bool)
      ensures terminal == AllTerminal(pairs)
    {
      for i := 0 to |pairs|
        invariant forall k | 0 <= k < i :: Terminal(pairs[k].status)
      {
        if !Terminal(pairs[i].status) {
          assert pairs[i] in pairs;
          return false;
        }
      }
      terminal := true;
    }

    // The aggregate that finishAttempt stores.
    static method SummarisePairs(current: Status, pairs: seq<Pair>) returns (terminal: bool, status: Status)
      ensures terminal == AllTerminal(pairs)
      ensures status == Aggregate(current, pairs)
    {
      hide AllTerminal, Has;
      terminal := EveryTerminal(pairs);
      var successes := CountStatus(pairs, Success);
      var failed := CountStatus(pairs, Failed);
      var interrupted := CountStatus(pairs, Interrupted);
      var running := CountStatus(pairs, Running);
      var waiting := CountStatus(pairs, RetryWait);
      status :=
        if current == CancelRequested then (if terminal then Cancelled else CancelRequested)
        else if terminal then
          if successes == |pairs| then Success
          else if successes > 0 then PartialFailure
          else if failed > 0 then Failed
          else if interrupted > 0 then Interrupted
          else Failed
        else if running > 0 then Running
        else if waiting > 0 then Retrying
        else Queued;
    }

    // ExecutionService.insert, inside its caller's transaction: None is a violated unique key, which rolls back.
    method Insert(job: string, trigger: Trigger, scheduledFor: Option<int>, selections: seq<Selection>, now: int)
      returns (id: Option<nat>)
      modifies this
      ensures id.Some? && id.value < |old(executions)| ==>
                AdmittedAs(old(executions), job, scheduledFor, id.value) && executions == old(executions)
      ensures (exists i :: AdmittedAs(old(executions), job, scheduledFor, i)) ==>
                id.Some? && id.value < |old(executions)|
      ensures id.None? ==> !UniqueSelections(selections) && executions == old(executions)
      ensures id.Some? && id.value >= |old(executions)| ==>
                UniqueSelections(selections) && id.value == |old(executions)| &&
                executions == old(executions)
                    + [FreshExecution(old(executions), job, trigger, scheduledFor, selections, now)]
    {
      if scheduledFor.Some? {
        for i := 0 to |executions|
          invariant forall k :: 0 <= k < i ==> !AdmittedAs(executions, job, scheduledFor, k)
          invariant executions == old(executions)
        {
          if executions[i].job == job && executions[i].scheduledFor == scheduledFor { return Some(i); }
        }
      }
      if !UniqueSelections(selections) { return None; }
      id := Some(|executions|);
      var pairs: seq<Pair> := [];
      for i := 0 to |selections|
        invariant |pairs| == i
        invariant forall k :: 0 <= k < i ==> pairs[k] == FreshPair(selections[k])
      {
        pairs := pairs + [FreshPair(selections[i])];
      }
      assert pairs == seq(|selections|, i requires 0 <= i < |selections| => FreshPair(selections[i]));
      executions := executions
          + [Execution(job, trigger, Queued, scheduledFor, now, None, None, 0, MaxSequence(executions) + 1, 0, pairs)];
    }
  }
}
