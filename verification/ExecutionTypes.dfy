/** Rows of the queue tables and the values exchanged with the executor.

    A row id is modelled by the position of the row: executions are never deleted, the pairs of an
    execution are inserted with it, and the attempts of a pair are inserted one after the other. */
module ExecutionTypes {
  import opened Wrappers

  // The text found in the status columns of executions, pairs and attempts.
  datatype Status =
    | Queued | Running | RetryWait | Retrying | CancelRequested
    | Success | PartialFailure | Failed | Cancelled | Interrupted | NotStarted

  datatype WaitReason = RetryDelay | GlobalCapacity | SourceCapacity

  datatype Trigger = Scheduled | Manual | Retry | Catchup

  datatype Attempt = Attempt(number: nat, status: Status, run: Option<string>, startedAt: int, finishedAt: Option<int>)

  datatype Pair = Pair(
    connection: string, target: string, group: string, required: bool, retryCount: int, retryDelay: int,
    status: Status, waitReason: Option<WaitReason>, nextAttemptAt: Option<int>,
    startedAt: Option<int>, finishedAt: Option<int>, attempts: seq<Attempt>)

  datatype Execution = Execution(
    job: string, trigger: Trigger, status: Status, scheduledFor: Option<int>,
    queuedAt: int, startedAt: Option<int>, finishedAt: Option<int>,
    priority: int, sequence: nat, missed: nat, pairs: seq<Pair>)

  type Table = seq<Execution>

  datatype PairRef = PairRef(execution: nat, pair: nat)

  // What startAttempt hands to the executor and finishAttempt receives back.
  datatype Context = Context(ref: PairRef, attempt: nat, number: nat, retryCount: int, retryDelay: int)

  type OutcomeStatus = s: Status | OutcomeAllowed(s) witness Success

  predicate OutcomeAllowed(s: Status) { s in {Success, Failed, Cancelled, Interrupted} }

  datatype Outcome = Outcome(run: string, status: OutcomeStatus)

  datatype StartError = PairMissing | ExecutionNotEligible | DelayNotElapsed | PairNotEligible

  // Statuses under which an execution may still start work.
  predicate Eligible(s: Status) { s in {Queued, Running, Retrying} }

  // Statuses of a pair that waits for the dispatcher.
  predicate Waiting(s: Status) { s in {Queued, RetryWait} }

  // Statuses of a pair whose last attempt is in progress.
  predicate Active(s: Status) { s in {Running, CancelRequested} }

  // Statuses in which a pair rests for ever.
  predicate Terminal(s: Status) { s in {Success, Failed, Cancelled, Interrupted, NotStarted} }

  // Statuses in which an execution rests for ever.
  predicate Finished(s: Status) { s in {Success, PartialFailure, Failed, Cancelled, Interrupted} }

  predicate ValidRef(t: Table, r: PairRef) { r.execution < |t| && r.pair < |t[r.execution].pairs| }

  function PairAt(t: Table, r: PairRef): Pair
    requires ValidRef(t, r)
  {
    t[r.execution].pairs[r.pair]
  }

  function Max0(x: int): nat { if x < 0 then 0 else x }
}
