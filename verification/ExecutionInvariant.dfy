/** What every step of the store keeps about one execution: attempts agree with the pair, the pairs
    with the execution, and every effective step uses up part of a finite budget. */
module ExecutionInvariant {
  import opened ExecutionTypes
  import opened Wrappers
  import opened ExecutionStore

  // ---------------------------------------------------------------- the invariant

  ghost predicate AttemptOk(a: Attempt) {
    && (a.status == Running || OutcomeAllowed(a.status))
    && (a.status == Running <==> a.finishedAt == None)
    && (a.status == Running <==> a.run == None)
  }

  function Last(attempts: seq<Attempt>): Attempt
    requires attempts != []
  {
    attempts[|attempts| - 1]
  }

  // Attempts are numbered 1..n, every attempt but the last has failed, and the last explains the pair.
  ghost predicate PairOk(p: Pair) {
    && (forall k | 0 <= k < |p.attempts| :: AttemptOk(p.attempts[k]) && p.attempts[k].number == k + 1)
    && (forall k | 0 <= k < |p.attempts| - 1 :: p.attempts[k].status == Failed)
    && |p.attempts| <= Max0(p.retryCount) + 1
    && (p.startedAt.Some? <==> p.attempts != [])
    && (Terminal(p.status) <==> p.finishedAt.Some?)
    && (p.waitReason.Some? ==> Waiting(p.status))
    && match p.status
       case Queued => p.attempts == [] && p.nextAttemptAt == None
       case RetryWait => p.attempts != [] && Last(p.attempts).status == Failed && |p.attempts| <= p.retryCount
         && p.nextAttemptAt.Some?
       case Running => p.attempts != [] && Last(p.attempts).status == Running
       case CancelRequested => p.attempts != [] && Last(p.attempts).status == Running
       case NotStarted => p.attempts != [] ==> Last(p.attempts).status == Failed
       case Success => p.attempts != [] && Last(p.attempts).status == Success
       case Failed => p.attempts != [] && Last(p.attempts).status == Failed
       case Cancelled => p.attempts != [] && Last(p.attempts).status == Cancelled
       case Interrupted => p.attempts != [] && Last(p.attempts).status == Interrupted
       case _ => false
  }

  predicate Cancelling(s: Status) { s in {CancelRequested, Cancelled} }

  ghost predicate ExecutionOk(e: Execution) {
    && e.pairs != []
    && (forall i | 0 <= i < |e.pairs| :: PairOk(e.pairs[i]))
    && (Cancelling(e.status) ==>
          && e.status == (if AllTerminal(e.pairs) then Cancelled else CancelRequested)
          && forall i | 0 <= i < |e.pairs| :: !Waiting(e.pairs[i].status) && e.pairs[i].status != Running)
    && (!Cancelling(e.status) ==>
          && e.status == Summary(e.pairs)
          && forall i | 0 <= i < |e.pairs| :: e.pairs[i].status != CancelRequested && e.pairs[i].status != NotStarted)
    && (e.finishedAt.Some? <==> AllTerminal(e.pairs))
  }

  // A pair is active exactly when one attempt is running, and then that attempt is the last one.
  lemma OneRunningAttempt(p: Pair)
    requires PairOk(p)
    ensures Active(p.status) <==> exists k :: 0 <= k < |p.attempts| && p.attempts[k].status == Running
    ensures forall k :: 0 <= k < |p.attempts| && p.attempts[k].status == Running ==> k == |p.attempts| - 1
  {
    if Active(p.status) {
      assert p.attempts[|p.attempts| - 1].status == Running;
    }
  }

  // An execution has finished exactly when each of its pairs has.
  lemma FinishedIffPairsTerminal(e: Execution)
    requires ExecutionOk(e)
    ensures Finished(e.status) <==> AllTerminal(e.pairs)
    ensures Finished(e.status) <==> e.finishedAt.Some?
    ensures Finished(e.status) || Eligible(e.status) || e.status == CancelRequested
  {
    assert forall p | p in e.pairs :: p.status != CancelRequested || Cancelling(e.status);
  }

  // ---------------------------------------------------------------- steps on one execution

  datatype Step =
    | Start(i: nat, now: int)
    | Finish(c: Context, outcome: Outcome, now: int)
    | Cancel(now: int)
    | Note(i: nat, reason: Option<WaitReason>)   // the dispatcher's wait reason
    | Prioritise(priority: int)

  // A context that startAttempt handed out for a pair of this execution.
  predicate Issued(e: Execution, c: Context) {
    && c.ref.pair < |e.pairs|
    && c.attempt < |e.pairs[c.ref.pair].attempts|
    && c.number == e.pairs[c.ref.pair].attempts[c.attempt].number
    && c.retryCount == e.pairs[c.ref.pair].retryCount
    && c.retryDelay == e.pairs[c.ref.pair].retryDelay
  }

  predicate MayStart(e: Execution, i: nat, now: int) {
    && i < |e.pairs|
    && Eligible(e.status) && Waiting(e.pairs[i].status)
    && !(e.pairs[i].nextAttemptAt.Some? && e.pairs[i].nextAttemptAt.value > now)
  }

  function Apply(e: Execution, s: Step): Execution {
    match s
    case Start(i, now) => if MayStart(e, i, now) then StartedExecution(e, i, now) else e
    case Finish(c, outcome, now) => if Issued(e, c) then FinishedExecution(e, c, outcome, now) else e
    case Cancel(now) => CancelledExecution(e, now)
    case Note(i, reason) =>
      if i < |e.pairs| && Waiting(e.pairs[i].status) then e.(pairs := e.pairs[i := e.pairs[i].(waitReason := reason)])
      else e
    case Prioritise(priority) => if e.status == Queued then e.(priority := priority) else e
  }

  function Run(e: Execution, steps: seq<Step>): Execution
    decreases |steps|
  {
    if steps == [] then e else Run(Apply(e, steps[0]), steps[1..])
  }

  // ---------------------------------------------------------------- preservation

  lemma MaxIsLength(attempts: seq<Attempt>)
    requires forall k | 0 <= k < |attempts| :: attempts[k].number == k + 1
    ensures MaxNumber(attempts) == |attempts|
  {
    if attempts != [] {
      assert attempts[|attempts| - 1] in attempts;
    }
  }

  lemma StartKeepsPair(p: Pair, now: int)
    requires PairOk(p) && Waiting(p.status)
    ensures PairOk(StartedPair(p, now))
    ensures StartedPair(p, now).attempts[..|p.attempts|] == p.attempts
    ensures Last(StartedPair(p, now).attempts).number == |p.attempts| + 1
  {
    hide MaxNumber;
    MaxIsLength(p.attempts);
    AppendAttempt(p.attempts, Attempt(|p.attempts| + 1, Running, None, now, None), p.status == RetryWait);
  }

  // Appending one attempt to attempts of which the last, if any, has failed.
  lemma AppendAttempt(attempts: seq<Attempt>, a: Attempt, some: bool)
    requires forall k | 0 <= k < |attempts| :: AttemptOk(attempts[k]) && attempts[k].number == k + 1
    requires forall k | 0 <= k < |attempts| - 1 :: attempts[k].status == Failed
    requires if some then attempts != [] && Last(attempts).status == Failed else attempts == []
    requires AttemptOk(a) && a.number == |attempts| + 1
    ensures var more := attempts + [a];
            && (forall k | 0 <= k < |more| :: AttemptOk(more[k]) && more[k].number == k + 1)
            && (forall k | 0 <= k < |more| - 1 :: more[k].status == Failed)
  {
  }

  lemma FinishKeepsPair(e: Execution, c: Context, outcome: Outcome, now: int)
    requires Issued(e, c) && PairOk(e.pairs[c.ref.pair]) && InProgress(e.pairs[c.ref.pair], c)
    ensures PairOk(FinishedPair(e.pairs[c.ref.pair], c, outcome, now))
    ensures c.attempt == |e.pairs[c.ref.pair].attempts| - 1
    ensures var status := FinishedPair(e.pairs[c.ref.pair], c, outcome, now).status;
            && !Active(status) && status != NotStarted
            && (e.pairs[c.ref.pair].status == CancelRequested ==> !Waiting(status))
  {
    OneRunningAttempt(e.pairs[c.ref.pair]);
  }

  lemma SummaryOfOne(pairs: seq<Pair>, i: nat)
    requires i < |pairs| && pairs[i].status == Running
    ensures Summary(pairs) == Running
  {
    assert pairs[i] in pairs;
  }

  lemma StartKeeps(e: Execution, i: nat, now: int)
    requires ExecutionOk(e) && MayStart(e, i, now)
    ensures ExecutionOk(StartedExecution(e, i, now))
  {
    hide PairOk, Summary, Has;
    StartKeepsPair(e.pairs[i], now);
    var f := StartedExecution(e, i, now);
    SummaryOfOne(f.pairs, i);
    assert f.pairs[i] in f.pairs;
    assert e.pairs[i] in e.pairs;
  }

  lemma CancelKeepsPair(p: Pair, now: int)
    requires PairOk(p)
    ensures PairOk(CancelledPair(p, now))
    ensures CancelledPair(p, now).attempts == p.attempts
    ensures Terminal(CancelledPair(p, now).status) <==> !Active(p.status)
    ensures !Waiting(CancelledPair(p, now).status) && CancelledPair(p, now).status != Running
  {
  }

  // The pairs of an execution once it is cancelled.
  ghost predicate AreCancelled(pairs: seq<Pair>, after: seq<Pair>, now: int) {
    |after| == |pairs| && forall i | 0 <= i < |pairs| :: after[i] == CancelledPair(pairs[i], now)
  }

  lemma CancelKeepsPairs(pairs: seq<Pair>, after: seq<Pair>, now: int)
    requires AreCancelled(pairs, after, now) && forall i | 0 <= i < |pairs| :: PairOk(pairs[i])
    ensures forall i | 0 <= i < |after| ::
              PairOk(after[i]) && !Waiting(after[i].status) && after[i].status != Running
              && after[i].attempts == pairs[i].attempts
    ensures AllTerminal(after) <==> !AnyActive(pairs)
  {
    hide PairOk, CancelledPair;
    forall i | 0 <= i < |pairs|
      ensures PairOk(after[i]) && !Waiting(after[i].status) && after[i].status != Running
      ensures after[i].attempts == pairs[i].attempts && (Terminal(after[i].status) <==> !Active(pairs[i].status))
      ensures after[i] in after && pairs[i] in pairs
    {
      CancelKeepsPair(pairs[i], now);
    }
    assert AllTerminal(after) <==> forall i | 0 <= i < |after| :: Terminal(after[i].status);
  }

  lemma CancelKeeps(e: Execution, now: int)
    requires ExecutionOk(e)
    ensures ExecutionOk(CancelledExecution(e, now))
  {
    hide PairOk, Summary, CancelledPair, AnyActive, AllTerminal;
    if Cancellable(e.status) { CancelKeepsPairs(e.pairs, CancelledExecution(e, now).pairs, now); }
  }

  lemma SummaryNeverCancels(pairs: seq<Pair>)
    ensures !Cancelling(Summary(pairs))
  {
  }

  lemma FinishKeeps(e: Execution, c: Context, outcome: Outcome, now: int)
    requires ExecutionOk(e) && Issued(e, c)
    ensures ExecutionOk(FinishedExecution(e, c, outcome, now))
  {
    hide PairOk, Summary, FinishedPair, Has;
    if InProgress(e.pairs[c.ref.pair], c) {
      FinishKeepsPair(e, c, outcome, now);
      SummaryNeverCancels(FinishedExecution(e, c, outcome, now).pairs);
      assert e.pairs[c.ref.pair] in e.pairs;
      assert e.status != Cancelled;
    }
  }

  lemma NoteKeeps(e: Execution, i: nat, reason: Option<WaitReason>)
    requires ExecutionOk(e) && i < |e.pairs| && Waiting(e.pairs[i].status)
    ensures ExecutionOk(Apply(e, Note(i, reason)))
  {
    hide PairOk, Summary, Has, AllTerminal;
    var pairs := e.pairs[i := e.pairs[i].(waitReason := reason)];
    SameStatuses(e.pairs, pairs);
    NoteKeepsPair(e.pairs[i], reason);
  }

  lemma NoteKeepsPair(p: Pair, reason: Option<WaitReason>)
    requires PairOk(p) && Waiting(p.status)
    ensures PairOk(p.(waitReason := reason))
  {
  }

  lemma SameStatuses(a: seq<Pair>, b: seq<Pair>)
    requires |a| == |b| && forall k | 0 <= k < |a| :: a[k].status == b[k].status
    ensures AllTerminal(a) == AllTerminal(b) && Summary(a) == Summary(b)
  {
    hide AllTerminal, Has;
    forall s ensures Has(a, s) == Has(b, s) { SameHas(a, b, s); }
    SameAll(a, b);
  }

  lemma SameHas(a: seq<Pair>, b: seq<Pair>, s: Status)
    requires |a| == |b| && forall k | 0 <= k < |a| :: a[k].status == b[k].status
    ensures Has(a, s) == Has(b, s)
  {
    if p :| p in a && p.status == s { var k :| 0 <= k < |a| && a[k] == p; assert b[k] in b; }
    if p :| p in b && p.status == s { var k :| 0 <= k < |b| && b[k] == p; assert a[k] in a; }
  }

  lemma SameAll(a: seq<Pair>, b: seq<Pair>)
    requires |a| == |b| && forall k | 0 <= k < |a| :: a[k].status == b[k].status
    ensures AllTerminal(a) == AllTerminal(b)
    ensures (forall p | p in a :: p.status == Success) == (forall p | p in b :: p.status == Success)
  {
    assert AllTerminal(a) <==> forall k | 0 <= k < |a| :: Terminal(a[k].status);
    assert AllTerminal(b) <==> forall k | 0 <= k < |b| :: Terminal(b[k].status);
    assert (forall p | p in a :: p.status == Success) <==> forall k | 0 <= k < |a| :: a[k].status == Success;
    assert (forall p | p in b :: p.status == Success) <==> forall k | 0 <= k < |b| :: b[k].status == Success;
  }

  lemma FreshIsOk(t: Table, job: string, trigger: Trigger, scheduledFor: Option<int>, selections: seq<Selection>,
                  now: int)
    requires selections != []
    ensures ExecutionOk(FreshExecution(t, job, trigger, scheduledFor, selections, now))
  {
    var e := FreshExecution(t, job, trigger, scheduledFor, selections, now);
    assert e.pairs[0] in e.pairs;
  }

  lemma ApplyKeeps(e: Execution, s: Step)
    requires ExecutionOk(e)
    ensures ExecutionOk(Apply(e, s))
  {
    match s
    case Start(i, now) => if MayStart(e, i, now) { StartKeeps(e, i, now); }
    case Finish(c, outcome, now) => if Issued(e, c) { FinishKeeps(e, c, outcome, now); }
    case Cancel(now) => CancelKeeps(e, now);
    case Note(i, reason) => if i < |e.pairs| && Waiting(e.pairs[i].status) { NoteKeeps(e, i, reason); }
    case Prioritise(priority) =>
  }

  // Every state of every run of an execution satisfies the invariant.
  lemma {:induction false} RunKeeps(e: Execution, steps: seq<Step>)
    requires ExecutionOk(e)
    ensures ExecutionOk(Run(e, steps))
    decreases |steps|
  {
    if steps != [] {
      ApplyKeeps(e, steps[0]);
      RunKeeps(Apply(e, steps[0]), steps[1..]);
    }
  }

  // Contexts stay valid however long the executor takes to answer.
  lemma IssuedStays(e: Execution, s: Step, c: Context)
    requires ExecutionOk(e) && Issued(e, c)
    ensures Issued(Apply(e, s), c)
  {
    hide PairOk, Summary, Has, AllTerminal, MaxNumber;
    match s
    case Start(i, now) =>
    case Finish(d, outcome, now) =>
    case Cancel(now) =>
    case Note(i, reason) =>
    case Prioritise(priority) =>
  }

  // A second result for the same attempt, however late and whatever happened in between, changes nothing.
  lemma {:induction false} LateFinishIsIgnored(e: Execution, c: Context, first: Outcome, steps: seq<Step>,
                                               second: Outcome, now: int, later: int)
    requires ExecutionOk(e) && Issued(e, c)
    ensures var f := Run(Apply(e, Finish(c, first, now)), steps);
            Apply(f, Finish(c, second, later)) == f
  {
    FinishKeeps(e, c, first, now);
    var g := Apply(e, Finish(c, first, now));
    if !InProgress(e.pairs[c.ref.pair], c) {
      OneRunningAttempt(e.pairs[c.ref.pair]);
    }
    SettledStays(g, c, steps);
  }

  predicate Settled(e: Execution, c: Context) {
    && c.ref.pair < |e.pairs| && c.attempt < |e.pairs[c.ref.pair].attempts|
    && e.pairs[c.ref.pair].attempts[c.attempt].status != Running
  }

  lemma SettledStep(e: Execution, c: Context, s: Step)
    requires ExecutionOk(e) && Settled(e, c)
    ensures Settled(Apply(e, s), c)
  {
    hide PairOk, Summary, Has, AllTerminal, MaxNumber;
    if s.Finish? && Issued(e, s.c) && InProgress(e.pairs[s.c.ref.pair], s.c) {
      assert s.c.ref.pair != c.ref.pair || s.c.attempt != c.attempt;
    }
  }

  lemma {:induction false} SettledStays(e: Execution, c: Context, steps: seq<Step>)
    requires ExecutionOk(e) && Settled(e, c)
    ensures Settled(Run(e, steps), c)
    decreases |steps|
  {
    if steps != [] {
      ApplyKeeps(e, steps[0]);
      SettledStep(e, c, steps[0]);
      SettledStays(Apply(e, steps[0]), c, steps[1..]);
    }
  }

  // ---------------------------------------------------------------- termination

  // Attempts the pair may still make, weighted so that a start and each way to finish use some of it up.
  function Remaining(p: Pair): nat {
    var rem := Max0(Max0(p.retryCount) + 1 - |p.attempts|);
    if Terminal(p.status) then 0
    else if p.status == CancelRequested then 1
    else if p.status == Running then 3 * rem + 2
    else 3 * rem
  }

  function Budget(pairs: seq<Pair>): nat {
    if pairs == [] then 0 else Remaining(pairs[0]) + Budget(pairs[1..])
  }

  lemma {:induction false} BudgetUpdate(pairs: seq<Pair>, i: nat, p: Pair)
    requires i < |pairs|
    ensures Budget(pairs[i := p]) == Budget(pairs) - Remaining(pairs[i]) + Remaining(p)
  {
    if i > 0 {
      assert pairs[i := p][1..] == pairs[1..][i - 1 := p];
      BudgetUpdate(pairs[1..], i - 1, p);
    }
  }

  lemma CancelUsesPair(p: Pair, now: int)
    requires PairOk(p)
    ensures Remaining(CancelledPair(p, now)) <= Remaining(p)
    ensures p.status in {Queued, RetryWait, Running} ==> Remaining(CancelledPair(p, now)) < Remaining(p)
  {
  }

  lemma {:induction false} BudgetOfCancelled(pairs: seq<Pair>, after: seq<Pair>, now: int)
    requires AreCancelled(pairs, after, now) && forall i | 0 <= i < |pairs| :: PairOk(pairs[i])
    ensures Budget(after) <= Budget(pairs)
    ensures (exists i :: 0 <= i < |pairs| && pairs[i].status in {Queued, RetryWait, Running}) ==>
              Budget(after) < Budget(pairs)
  {
    hide PairOk, CancelledPair, Remaining;
    if pairs != [] {
      BudgetOfCancelled(pairs[1..], after[1..], now);
      CancelUsesPair(pairs[0], now);
      if i :| 0 < i < |pairs| && pairs[i].status in {Queued, RetryWait, Running} {
        assert pairs[1..][i - 1].status in {Queued, RetryWait, Running};
      }
    }
  }

  // Steps other than the dispatcher's remark and the change of priority.
  predicate Moves(s: Step) { s.Start? || s.Finish? || s.Cancel? }

  lemma StartUsesBudget(p: Pair, now: int)
    requires PairOk(p) && Waiting(p.status)
    ensures Remaining(StartedPair(p, now)) < Remaining(p)
  {
  }

  lemma FinishUsesBudget(e: Execution, c: Context, outcome: Outcome, now: int)
    requires Issued(e, c) && PairOk(e.pairs[c.ref.pair]) && InProgress(e.pairs[c.ref.pair], c)
    ensures Remaining(FinishedPair(e.pairs[c.ref.pair], c, outcome, now)) < Remaining(e.pairs[c.ref.pair])
  {
    OneRunningAttempt(e.pairs[c.ref.pair]);
  }

  // Every step that changes the execution's work lowers the budget; no step raises it.
  lemma StepUsesBudget(e: Execution, s: Step)
    requires ExecutionOk(e)
    ensures Budget(Apply(e, s).pairs) <= Budget(e.pairs)
    ensures Moves(s) && Apply(e, s) != e ==> Budget(Apply(e, s).pairs) < Budget(e.pairs)
  {
    hide PairOk, Summary, AllTerminal, Budget, Remaining, StartedPair, FinishedPair, CancelledExecution, MayStart;
    match s
    case Start(i, now) =>
      if MayStart(e, i, now) {
        WaitsForStart(e, i, now);
        StartUsesBudget(e.pairs[i], now);
        BudgetUpdate(e.pairs, i, StartedPair(e.pairs[i], now));
      }
    case Finish(c, outcome, now) =>
      if Issued(e, c) && InProgress(e.pairs[c.ref.pair], c) {
        FinishUsesBudget(e, c, outcome, now);
        BudgetUpdate(e.pairs, c.ref.pair, FinishedPair(e.pairs[c.ref.pair], c, outcome, now));
      }
    case Cancel(now) =>
      CancelUsesBudget(e, now);
    case Note(i, reason) =>
      if i < |e.pairs| {
        NoteUsesNothing(e.pairs[i], reason);
        BudgetUpdate(e.pairs, i, e.pairs[i].(waitReason := reason));
      }
    case Prioritise(priority) =>
  }

  lemma WaitsForStart(e: Execution, i: nat, now: int)
    requires MayStart(e, i, now)
    ensures i < |e.pairs| && Waiting(e.pairs[i].status)
  {
  }

  lemma NoteUsesNothing(p: Pair, reason: Option<WaitReason>)
    ensures Remaining(p.(waitReason := reason)) == Remaining(p)
  {
  }

  lemma CancelUsesBudget(e: Execution, now: int)
    requires ExecutionOk(e)
    ensures Budget(CancelledExecution(e, now).pairs) <= Budget(e.pairs)
    ensures CancelledExecution(e, now) != e ==> Budget(CancelledExecution(e, now).pairs) < Budget(e.pairs)
  {
    hide PairOk, Summary, Budget, CancelledPair;
    if Cancellable(e.status) {
      var f := CancelledExecution(e, now);
      BudgetOfCancelled(e.pairs, f.pairs, now);
      if e.status == CancelRequested {
        CancelTwice(e, now);
      } else {
        FinishedIffPairsTerminal(e);
        var p :| p in e.pairs && !Terminal(p.status);
        var i :| 0 <= i < |e.pairs| && e.pairs[i] == p;
        StatusOfPair(p);
      }
    }
  }

  lemma StatusOfPair(p: Pair)
    requires PairOk(p)
    ensures Terminal(p.status) || p.status in {Queued, RetryWait, Running, CancelRequested}
  {
  }

  // Cancelling again changes nothing.
  lemma CancelTwice(e: Execution, now: int)
    requires ExecutionOk(e) && e.status == CancelRequested
    ensures CancelledExecution(e, now) == e
  {
    hide PairOk, Summary;
    var f := CancelledExecution(e, now);
    forall i | 0 <= i < |e.pairs| ensures f.pairs[i] == e.pairs[i] { StatusOfPair(e.pairs[i]); }
    assert f.pairs == e.pairs;
    if !AnyActive(e.pairs) {
      forall p | p in e.pairs ensures Terminal(p.status) { StatusOfPair(p); }
    }
  }

  // Number of steps of a run that changed the execution's work.
  function Effective(e: Execution, steps: seq<Step>): nat
    decreases |steps|
  {
    if steps == [] then 0
    else (if Moves(steps[0]) && Apply(e, steps[0]) != e then 1 else 0) + Effective(Apply(e, steps[0]), steps[1..])
  }

  // However long a run is, the number of its effective steps is bounded by the budget it began with.
  lemma {:induction false} RunsAreBounded(e: Execution, steps: seq<Step>)
    requires ExecutionOk(e)
    ensures Effective(e, steps) + Budget(Run(e, steps).pairs) <= Budget(e.pairs)
    decreases |steps|
  {
    if steps != [] {
      ApplyKeeps(e, steps[0]);
      StepUsesBudget(e, steps[0]);
      RunsAreBounded(Apply(e, steps[0]), steps[1..]);
    }
  }

  function AttemptLimit(pairs: seq<Pair>): nat {
    if pairs == [] then 0 else Max0(pairs[0].retryCount) + 1 + AttemptLimit(pairs[1..])
  }

  function AttemptCount(pairs: seq<Pair>): nat {
    if pairs == [] then 0 else |pairs[0].attempts| + AttemptCount(pairs[1..])
  }

  // An execution never makes more attempts than its pairs' retry counts allow together.
  lemma {:induction false} AttemptsAreBounded(pairs: seq<Pair>)
    requires forall i | 0 <= i < |pairs| :: PairOk(pairs[i])
    ensures AttemptCount(pairs) <= AttemptLimit(pairs)
  {
    if pairs != [] {
      AttemptsAreBounded(pairs[1..]);
    }
  }

  // An execution that has not finished is never stuck: either an attempt is running whose result changes
  // it, or a waiting pair starts as soon as the clock passes its delay.
  lemma NeverStuck(e: Execution) returns (s: Step)
    requires ExecutionOk(e) && !Finished(e.status)
    ensures (s.Start? || s.Finish?) && Apply(e, s) != e
  {
    hide PairOk, Summary, Apply;
    FinishedIffPairsTerminal(e);
    var p :| p in e.pairs && !Terminal(p.status);
    var i :| 0 <= i < |e.pairs| && e.pairs[i] == p;
    StatusOfPair(p);
    if Waiting(p.status) { s := WaitingCanStart(e, i); } else { s := ActiveCanFinish(e, i); }
  }

  lemma WaitingCanStart(e: Execution, i: nat) returns (s: Step)
    requires i < |e.pairs| && PairOk(e.pairs[i]) && Waiting(e.pairs[i].status) && Eligible(e.status)
    ensures s.Start? && Apply(e, s) != e
  {
    hide PairOk;
    var p := e.pairs[i];
    var now := if p.nextAttemptAt.Some? then p.nextAttemptAt.value else 0;
    s := Start(i, now);
    assert Apply(e, s).pairs[i] == StartedPair(p, now);
  }

  lemma ActiveCanFinish(e: Execution, i: nat) returns (s: Step)
    requires i < |e.pairs| && PairOk(e.pairs[i]) && Active(e.pairs[i].status)
    ensures s.Finish? && Apply(e, s) != e
  {
    var p := e.pairs[i];
    var k := |p.attempts| - 1;
    var c := Context(PairRef(0, i), k, p.attempts[k].number, p.retryCount, p.retryDelay);
    s := Finish(c, Outcome("", Success), 0);
    assert Issued(e, c) && InProgress(p, c);
    assert Apply(e, s).pairs[i] == FinishedPair(p, c, s.outcome, 0);
  }

  // So every execution can be brought to its end, in at most as many steps as its budget.
  lemma {:induction false} EndIsReached(e: Execution) returns (steps: seq<Step>)
    requires ExecutionOk(e)
    ensures Finished(Run(e, steps).status) && |steps| == Effective(e, steps) <= Budget(e.pairs)
    decreases Budget(e.pairs)
  {
    hide ExecutionOk, Apply, Budget;
    steps := [];
    if !Finished(e.status) {
      var s := NeverStuck(e);
      ApplyKeeps(e, s);
      StepUsesBudget(e, s);
      var rest := EndIsReached(Apply(e, s));
      steps := [s] + rest;
      assert steps[1..] == rest;
    }
  }

  // Neither a start nor a result can change the execution.
  ghost predicate Exhausted(e: Execution) {
    forall s: Step | s.Start? || s.Finish? :: Apply(e, s) == e
  }

  // A run cannot be continued exactly when it has finished the execution.
  lemma MaximalRunsEnd(e: Execution, steps: seq<Step>)
    requires ExecutionOk(e)
    ensures Exhausted(Run(e, steps)) <==> Finished(Run(e, steps).status)
    ensures Effective(e, steps) <= Budget(e.pairs)
  {
    hide ExecutionOk, Apply, Budget, Effective;
    RunKeeps(e, steps);
    RunsAreBounded(e, steps);
    var f := Run(e, steps);
    if !Finished(f.status) {
      var s := NeverStuck(f);
    } else {
      forall s: Step | s.Start? || s.Finish? ensures Apply(f, s) == f { FinishedRests(f, s); }
    }
  }

  lemma FinishedRests(e: Execution, s: Step)
    requires ExecutionOk(e) && Finished(e.status) && (s.Start? || s.Finish?)
    ensures Apply(e, s) == e
  {
    FinishedIffPairsTerminal(e);
    if s.Finish? && Issued(e, s.c) { assert e.pairs[s.c.ref.pair] in e.pairs; }
  }

  // ---------------------------------------------------------------- cancellation

  // What may have become of pair p by q once its execution was cancelled.
  predicate WindsDown(p: Pair, q: Pair) {
    && (q == p || (p.status == CancelRequested && q.status in {Success, Cancelled}
                   && |q.attempts| == |p.attempts|))
  }

  lemma CancelTakesEffect(e: Execution, now: int)
    requires ExecutionOk(e) && Cancellable(e.status)
    ensures var f := CancelledExecution(e, now);
            && Cancelling(f.status) && |f.pairs| == |e.pairs|
            && (f.status == Cancelled <==> !AnyActive(e.pairs))
            && forall i | 0 <= i < |e.pairs| ::
                 && f.pairs[i].attempts == e.pairs[i].attempts
                 && (Waiting(e.pairs[i].status) ==> f.pairs[i].status == NotStarted)
                 && (Active(e.pairs[i].status) ==> f.pairs[i].status == CancelRequested)
                 && (Terminal(e.pairs[i].status) ==> f.pairs[i] == e.pairs[i])
  {
    hide PairOk, Summary, AllTerminal;
    var f := CancelledExecution(e, now);
    CancelKeepsPairs(e.pairs, f.pairs, now);
  }

  lemma CancelledStep(e: Execution, s: Step)
    requires ExecutionOk(e) && Cancelling(e.status)
    ensures var f := Apply(e, s);
            && Cancelling(f.status) && |f.pairs| == |e.pairs|
            && forall i | 0 <= i < |e.pairs| :: WindsDown(e.pairs[i], f.pairs[i])
  {
    if s.Cancel? && Cancellable(e.status) {
      assert Apply(e, s).pairs == e.pairs;
    }
    if s.Finish? && Issued(e, s.c) && InProgress(e.pairs[s.c.ref.pair], s.c) {
      assert e.pairs[s.c.ref.pair] in e.pairs;
    }
  }

  // Once a cancellation took effect no run starts or reschedules an attempt of the execution: waiting pairs
  // stay not started, active ones end as success or cancelled, and the execution ends with the last of them.
  lemma {:induction false} CancellationIsFinal(e: Execution, steps: seq<Step>)
    requires ExecutionOk(e) && Cancelling(e.status)
    ensures var f := Run(e, steps);
            && |f.pairs| == |e.pairs|
            && (forall i | 0 <= i < |e.pairs| :: WindsDown(e.pairs[i], f.pairs[i]))
            && f.status == (if AllTerminal(f.pairs) then Cancelled else CancelRequested)
    decreases |steps|
  {
    if steps != [] {
      ApplyKeeps(e, steps[0]);
      CancelledStep(e, steps[0]);
      CancellationIsFinal(Apply(e, steps[0]), steps[1..]);
    }
  }
}
