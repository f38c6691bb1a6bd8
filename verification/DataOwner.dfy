/** The single-writer lock of data-owner.ts:7-38: a gate file around the check and creation of a lock file.

    Any number of processes take steps of one file operation each, in any order; every operation may throw, a process
    may die between any two of them, and process ids are used again once they are free. */
module DataOwner {
  import opened Wrappers

  // What the lock file contains: something that is not a valid owner, such as a file that is still being written,
  // or the process id and token of an owner.
  datatype Content = Garbled | Owner(pid: nat, token: nat)

  // The process that created the file is not recorded in it; it is only needed to say what is true.
  datatype LockFile = LockFile(creator: nat, content: Content)

  // Where a process is: outside, in acquire with its new token, or owning the directory.
  datatype Place =
    | Outside
    | Checking(token: nat)
    | Reading(token: nat)
    | Probing(token: nat, pid: nat, creator: nat)
    | Unlinking(token: nat, creator: nat)
    | Creating(token: nat)
    | Writing(token: nat)
    | Syncing(token: nat)
    | Leaving(token: nat, acquired: bool)
    | Owning(token: nat)
    | Removing(token: nat)

  datatype Process = Process(pid: nat, place: Place)

  // Live processes have numbers that are never used again, besides process ids that are.
  datatype World = World(live: map<nat, Process>, gate: Option<nat>, lock: Option<LockFile>, nextProcess: nat,
                         nextToken: nat)

  // Go: the process takes its next step, starting to acquire when it is outside and to release when it owns the
  // directory; `throws` says that the operating system refuses the operation.
  datatype Action = Start(pid: nat) | Crash(process: nat) | Go(process: nat, throws: bool)

  predicate PidLive(live: map<nat, Process>, pid: nat) { exists q :: q in live && live[q].pid == pid }

  function At(w: World, p: nat, place: Place): World
    requires p in w.live
  {
    w.(live := w.live[p := w.live[p].(place := place)])
  }

  function AcquireStep(w: World, p: nat, throws: bool): World
    requires p in w.live
  {
    match w.live[p].place
    case Outside =>
      if throws || w.gate.Some? then w
      else At(w, p, Checking(w.nextToken)).(gate := Some(p), nextToken := w.nextToken + 1)
    case Checking(token) =>
      // existsSync answers false instead of throwing.
      if throws || w.lock.None? then At(w, p, Creating(token)) else At(w, p, Reading(token))
    case Reading(token) =>
      if throws || w.lock.None? || w.lock.value.content.Garbled? then At(w, p, Leaving(token, false))
      else At(w, p, Probing(token, w.lock.value.content.pid, w.lock.value.creator))
    case Probing(token, pid, creator) =>
      if throws || PidLive(w.live, pid) then At(w, p, Leaving(token, false)) else At(w, p, Unlinking(token, creator))
    case Unlinking(token, _) =>
      if throws || w.lock.None? then At(w, p, Leaving(token, false)) else At(w, p, Creating(token)).(lock := None)
    case Creating(token) =>
      if throws || w.lock.Some? then At(w, p, Leaving(token, false))
      else At(w, p, Writing(token)).(lock := Some(LockFile(p, Garbled)))
    case Writing(token) =>
      if throws || w.lock.None? then At(w, p, Leaving(token, false))
      else At(w, p, Syncing(token)).(lock := Some(w.lock.value.(content := Owner(w.live[p].pid, token))))
    case Syncing(token) => At(w, p, Leaving(token, !throws))
    case Leaving(token, acquired) =>
      if throws then At(w, p, Outside)
      else At(w, p, if acquired then Owning(token) else Outside).(gate := None)
    case _ => w
  }

  function ReleaseStep(w: World, p: nat, throws: bool): World
    requires p in w.live
  {
    match w.live[p].place
    case Owning(token) =>
      if throws || w.lock.None? || w.lock.value.content != Owner(w.live[p].pid, token) then w
      else At(w, p, Removing(token))
    case Removing(token) =>
      if throws || w.lock.None? then At(w, p, Owning(token)) else At(w, p, Outside).(lock := None)
    case _ => w
  }

  function Next(w: World, a: Action): World {
    match a
    case Start(pid) =>
      if PidLive(w.live, pid) then w
      else w.(live := w.live[w.nextProcess := Process(pid, Outside)], nextProcess := w.nextProcess + 1)
    case Crash(p) => w.(live := w.live - {p})
    case Go(p, throws) =>
      if p !in w.live then w
      else if Owns(w, p) then ReleaseStep(w, p, throws)
      else AcquireStep(w, p, throws)
  }

  function Run(w: World, actions: seq<Action>): World
    decreases |actions|
  {
    if actions == [] then w else Run(Next(w, actions[0]), actions[1..])
  }

  // acquire has returned and the release function has not yet done its work.
  predicate Owns(w: World, p: nat) { p in w.live && (w.live[p].place.Owning? || w.live[p].place.Removing?) }

  predicate InGate(place: Place) {
    place.Checking? || place.Reading? || place.Probing? || place.Unlinking? || place.Creating? || place.Writing?
    || place.Syncing? || place.Leaving?
  }

  // Before the first process: whatever earlier ones have left behind.
  predicate Initial(w: World) {
    && w.live == map[] && w.nextProcess > 0
    && (w.gate.Some? ==> w.gate.value == 0) && (w.lock.Some? ==> w.lock.value.creator == 0)
  }

  // ---------------------------------------------------------------- the invariant

  // The process has created the lock file that is there.
  predicate HasFile(place: Place) {
    place.Writing? || place.Syncing? || (place.Leaving? && place.acquired) || place.Owning? || place.Removing?
  }

  predicate ProcessOk(w: World, p: nat)
    requires p in w.live
  {
    var place := w.live[p].place;
    && p < w.nextProcess
    && (InGate(place) ==> w.gate == Some(p))
    && (HasFile(place) ==> w.lock.Some? && w.lock.value.creator == p
                           && (place.Writing? || w.lock.value.content == Owner(w.live[p].pid, place.token)))
    && (place.Probing? ==>
          place.creator < w.nextProcess && (place.creator in w.live ==> w.live[place.creator].pid == place.pid)
          && (w.lock.Some? ==> w.lock.value.creator == place.creator))
    && (place.Unlinking? ==>
          place.creator < w.nextProcess && place.creator !in w.live
          && (w.lock.Some? ==> w.lock.value.creator == place.creator))
  }

  predicate FilesOk(w: World) {
    && (w.gate.Some? ==> w.gate.value < w.nextProcess)
    && (w.lock.Some? ==>
          var file := w.lock.value;
          file.creator < w.nextProcess
          && (file.creator in w.live && file.content.Owner? ==> file.content.pid == w.live[file.creator].pid))
  }

  predicate PidsDiffer(w: World) {
    forall p, q | p in w.live && q in w.live && p != q :: w.live[p].pid != w.live[q].pid
  }

  predicate Inv(w: World) {
    FilesOk(w) && PidsDiffer(w) && forall p | p in w.live :: ProcessOk(w, p)
  }

  lemma InitialOk(w: World)
    requires Initial(w)
    ensures Inv(w)
  {
  }

  lemma StartKeeps(w: World, pid: nat)
    requires Inv(w)
    ensures Inv(Next(w, Start(pid)))
  {
    var after := Next(w, Start(pid));
    if after != w {
      forall p | p in after.live ensures ProcessOk(after, p) {
        if p != w.nextProcess { assert ProcessOk(w, p); }
      }
      forall p, q | p in after.live && q in after.live && p != q ensures after.live[p].pid != after.live[q].pid {
        assert p != w.nextProcess ==> PidLive(w.live, after.live[p].pid);
        assert q != w.nextProcess ==> PidLive(w.live, after.live[q].pid);
      }
      NumbersAreFresh(w);
    }
  }

  lemma NumbersAreFresh(w: World)
    requires Inv(w)
    ensures w.nextProcess !in w.live
  {
    forall p | p in w.live ensures p < w.nextProcess { assert ProcessOk(w, p); }
  }

  lemma CrashKeeps(w: World, p: nat)
    requires Inv(w)
    ensures Inv(Next(w, Crash(p)))
  {
    var after := Next(w, Crash(p));
    forall q | q in after.live ensures ProcessOk(after, q) { assert ProcessOk(w, q); }
  }

  // A step of one process keeps what is true of another.
  lemma OthersKeep(w: World, p: nat, throws: bool, q: nat)
    requires Inv(w) && p in w.live && q in w.live && p != q
    ensures var after := Next(w, Go(p, throws)); q in after.live && ProcessOk(after, q)
  {
    hide PidsDiffer, PidLive;
    PidsStay(w, p, throws);
    assert ProcessOk(w, p);
    assert ProcessOk(w, q);
  }

  lemma PidsStay(w: World, p: nat, throws: bool)
    requires p in w.live
    ensures var after := Next(w, Go(p, throws));
            after.live.Keys == w.live.Keys && (forall q | q in w.live :: after.live[q].pid == w.live[q].pid)
            && after.nextProcess == w.nextProcess
  {
  }

  lemma OwnFiles(w: World, p: nat, throws: bool)
    requires Inv(w) && p in w.live
    ensures FilesOk(Next(w, Go(p, throws)))
  {
    hide PidsDiffer, PidLive;
    PidsStay(w, p, throws);
    assert ProcessOk(w, p);
  }

  // A probe that finds nobody alive proves that the creator of the lock file is dead.
  lemma ProbeIsRight(w: World, p: nat)
    requires Inv(w) && p in w.live && w.live[p].place.Probing? && !PidLive(w.live, w.live[p].place.pid)
    ensures w.live[p].place.creator !in w.live
  {
    assert ProcessOk(w, p);
    if w.live[p].place.creator in w.live { assert PidLive(w.live, w.live[p].place.pid); }
  }

  // Up to the creation of the lock file, and from there on.
  predicate Looking(place: Place) {
    place.Outside? || place.Checking? || place.Reading? || place.Probing? || place.Unlinking?
  }

  lemma LookingKeeps(w: World, p: nat, throws: bool)
    requires Inv(w) && p in w.live && Looking(w.live[p].place)
    ensures p in Next(w, Go(p, throws)).live && ProcessOk(Next(w, Go(p, throws)), p)
  {
    hide PidsDiffer, PidLive;
    PidsStay(w, p, throws);
    assert ProcessOk(w, p);
    if w.live[p].place.Probing? && !PidLive(w.live, w.live[p].place.pid) { ProbeIsRight(w, p); }
  }

  lemma OwnKeeps(w: World, p: nat, throws: bool)
    requires Inv(w) && p in w.live
    ensures p in Next(w, Go(p, throws)).live && ProcessOk(Next(w, Go(p, throws)), p)
  {
    if Looking(w.live[p].place) {
      LookingKeeps(w, p, throws);
    } else {
      hide PidsDiffer, PidLive, FilesOk;
      assert ProcessOk(w, p);
    }
  }

  lemma GoKeeps(w: World, p: nat, throws: bool)
    requires Inv(w)
    ensures Inv(Next(w, Go(p, throws)))
  {
    hide ProcessOk, Next, FilesOk;
    var after := Next(w, Go(p, throws));
    if p in w.live {
      OwnKeeps(w, p, throws);
      OwnFiles(w, p, throws);
      PidsStay(w, p, throws);
      forall q | q in after.live ensures ProcessOk(after, q) {
        if q != p { OthersKeep(w, p, throws, q); }
      }
    } else {
      NobodyGoes(w, p, throws);
    }
  }

  lemma NobodyGoes(w: World, p: nat, throws: bool)
    requires p !in w.live
    ensures Next(w, Go(p, throws)) == w
  {
  }

  lemma StepKeeps(w: World, a: Action)
    requires Inv(w)
    ensures Inv(Next(w, a))
  {
    hide Inv, Next;
    match a {
      case Start(pid) => StartKeeps(w, pid);
      case Crash(p) => CrashKeeps(w, p);
      case Go(p, throws) => GoKeeps(w, p, throws);
    }
  }

  lemma {:induction false} RunKeeps(w: World, actions: seq<Action>)
    requires Inv(w)
    ensures Inv(Run(w, actions))
    decreases |actions|
  {
    hide Inv, Next;
    if actions != [] {
      StepKeeps(w, actions[0]);
      RunKeeps(Next(w, actions[0]), actions[1..]);
    }
  }

  // ---------------------------------------------------------------- mutual exclusion

  lemma OwnersFile(w: World, p: nat)
    requires Inv(w) && Owns(w, p)
    ensures w.lock == Some(LockFile(p, Owner(w.live[p].pid, w.live[p].place.token)))
  {
    assert ProcessOk(w, p);
  }

  // In every interleaving at most one live process owns the directory, and the lock file then holds its process id
  // and its token.
  lemma MutualExclusion(start: World, actions: seq<Action>, p: nat, q: nat)
    requires Initial(start)
    ensures var w := Run(start, actions);
            && (Owns(w, p) && Owns(w, q) ==> p == q)
            && (Owns(w, p) ==> w.lock == Some(LockFile(p, Owner(w.live[p].pid, w.live[p].place.token))))
  {
    hide Inv, Owns;
    InitialOk(start);
    RunKeeps(start, actions);
    var w := Run(start, actions);
    if Owns(w, p) { OwnersFile(w, p); }
    if Owns(w, q) { OwnersFile(w, q); }
  }

  // No step of a process takes away or changes the lock file of another one that is alive and has it.
  lemma NobodyElsesFile(start: World, actions: seq<Action>, p: nat, throws: bool, q: nat)
    requires Initial(start)
    ensures var w := Run(start, actions);
            q in w.live && HasFile(w.live[q].place) && p != q ==> Next(w, Go(p, throws)).lock == w.lock
  {
    hide Run;
    InitialOk(start);
    RunKeeps(start, actions);
    var w := Run(start, actions);
    if p in w.live { assert ProcessOk(w, p); }
    if q in w.live { assert ProcessOk(w, q); }
  }

  // While a process that has the file lives, nobody else gets past the check.
  lemma OwnerExcludes(start: World, actions: seq<Action>, p: nat, q: nat)
    requires Initial(start)
    ensures var w := Run(start, actions);
            Owns(w, p) && q in w.live && q != p ==> !HasFile(w.live[q].place)
  {
    hide Run;
    InitialOk(start);
    RunKeeps(start, actions);
    var w := Run(start, actions);
    if Owns(w, p) && q in w.live {
      assert ProcessOk(w, p);
      assert ProcessOk(w, q);
    }
  }

  // ---------------------------------------------------------------- an abandoned gate

  // The gate file is there, and no live process is behind it.
  predicate Abandoned(w: World) { w.gate.Some? && forall p | p in w.live :: !InGate(w.live[p].place) }

  lemma AbandonedStays(w: World, a: Action)
    requires Inv(w) && Abandoned(w)
    ensures Abandoned(Next(w, a)) && Next(w, a).gate == w.gate
    ensures forall p :: Owns(Next(w, a), p) ==> Owns(w, p)
  {
  }

  // A crash behind the gate blocks every later owner for ever, and admits none.
  lemma {:induction false} AbandonedForEver(w: World, actions: seq<Action>, p: nat)
    requires Inv(w) && Abandoned(w)
    ensures Abandoned(Run(w, actions)) && (Owns(Run(w, actions), p) ==> Owns(w, p))
    decreases |actions|
  {
    hide Inv, Abandoned, Next, Owns;
    if actions != [] {
      AbandonedStays(w, actions[0]);
      StepKeeps(w, actions[0]);
      AbandonedForEver(Next(w, actions[0]), actions[1..], p);
    }
  }

  // The process that will abandon the gate in this step: it dies behind it, or cannot remove it.
  predicate Abandons(w: World, a: Action) {
    && w.gate.Some? && w.gate.value in w.live && InGate(w.live[w.gate.value].place)
    && (a == Crash(w.gate.value) || (a == Go(w.gate.value, true) && w.live[w.gate.value].place.Leaving?))
  }

  lemma GateHolder(w: World)
    requires Inv(w) && !Abandoned(w)
    ensures w.gate.Some? ==> w.gate.value in w.live && InGate(w.live[w.gate.value].place)
    ensures forall p | p in w.live && InGate(w.live[p].place) :: w.gate == Some(p)
  {
    forall p | p in w.live && InGate(w.live[p].place) ensures w.gate == Some(p) { assert ProcessOk(w, p); }
  }

  lemma StartAbandons(w: World, pid: nat)
    requires Inv(w) && !Abandoned(w)
    ensures !Abandoned(Next(w, Start(pid)))
  {
    hide PidLive, Inv, InGate;
    GateHolder(w);
    NumbersAreFresh(w);
    if w.gate.Some? { assert InGate(Next(w, Start(pid)).live[w.gate.value].place); }
  }

  lemma CrashAbandons(w: World, p: nat)
    requires Inv(w) && !Abandoned(w)
    ensures Abandoned(Next(w, Crash(p))) <==> Abandons(w, Crash(p))
  {
    hide Inv, InGate;
    GateHolder(w);
    if w.gate.Some? && w.gate.value != p { assert InGate(Next(w, Crash(p)).live[w.gate.value].place); }
  }

  // The gate after a step of a process, and whether the process is behind it then.
  lemma GoThroughGate(w: World, p: nat, throws: bool)
    requires Inv(w) && p in w.live
    ensures var after := Next(w, Go(p, throws));
            && p in after.live
            && (InGate(w.live[p].place) && !w.live[p].place.Leaving? ==>
                InGate(after.live[p].place) && after.gate == w.gate)
            && (w.live[p].place.Leaving? ==>
                !InGate(after.live[p].place) && after.gate == if throws then w.gate else None)
            && (!InGate(w.live[p].place) ==>
                  after.gate == w.gate || (w.gate.None? && after.gate == Some(p) && InGate(after.live[p].place)))
            && (!InGate(w.live[p].place) && after.gate == w.gate ==> !InGate(after.live[p].place))
    ensures forall q | q in w.live && q != p ::
              q in Next(w, Go(p, throws)).live && Next(w, Go(p, throws)).live[q] == w.live[q]
  {
    hide PidLive, ProcessOk, FilesOk, PidsDiffer;
  }

  lemma GoAbandons(w: World, p: nat, throws: bool)
    requires Inv(w) && !Abandoned(w)
    ensures Abandoned(Next(w, Go(p, throws))) <==> Abandons(w, Go(p, throws))
  {
    hide Inv, InGate, Next;
    GateHolder(w);
    if p !in w.live {
      NobodyGoes(w, p, throws);
    } else {
      PidsStay(w, p, throws);
      GoThroughGate(w, p, throws);
      var after := Next(w, Go(p, throws));
      LeavingIsInGate(w.live[p].place);
      if after.gate.Some? && after.gate.value in after.live && InGate(after.live[after.gate.value].place) {
        assert !Abandoned(after);
      }
    }
  }

  lemma LeavingIsInGate(place: Place)
    ensures place.Leaving? ==> InGate(place)
  {
  }

  // When the gate is abandoned: its process dies behind it, or cannot remove it.
  lemma AbandonedWhen(w: World, a: Action)
    requires Inv(w) && !Abandoned(w)
    ensures Abandoned(Next(w, a)) <==>
              w.gate.Some? && w.gate.value in w.live && InGate(w.live[w.gate.value].place)
              && (a == Crash(w.gate.value) || (a == Go(w.gate.value, true) && w.live[w.gate.value].place.Leaving?))
  {
    hide Inv, InGate, Next, Abandoned;
    match a {
      case Start(pid) => StartAbandons(w, pid);
      case Crash(p) => CrashAbandons(w, p);
      case Go(p, throws) => GoAbandons(w, p, throws);
    }
  }

  // ---------------------------------------------------------------- one process on its own

  datatype Operation =
    | OpenGate | Exists | ReadOwner | Probe | UnlinkStale | CreateLock | WriteOwner | SyncOwner | UnlinkGate
    | ReadOwn | UnlinkOwn

  type Faults = Operation -> bool

  function OperationAt(place: Place): Operation {
    match place
    case Outside => OpenGate
    case Checking(_) => Exists
    case Reading(_) => ReadOwner
    case Probing(_, _, _) => Probe
    case Unlinking(_, _) => UnlinkStale
    case Creating(_) => CreateLock
    case Writing(_) => WriteOwner
    case Syncing(_) => SyncOwner
    case Leaving(_, _) => UnlinkGate
    case Owning(_) => ReadOwn
    case Removing(_) => UnlinkOwn
  }

  function StepsLeft(place: Place): nat {
    match place
    case Checking(_) => 8
    case Reading(_) => 7
    case Probing(_, _, _) => 6
    case Unlinking(_, _) => 5
    case Creating(_) => 4
    case Writing(_) => 3
    case Syncing(_) => 2
    case Leaving(_, _) => 1
    case _ => 0
  }

  // The rest of acquire, when no other process takes a step.
  function Ended(w: World, p: nat, faults: Faults): (after: World)
    requires p in w.live
    ensures after.live.Keys == w.live.Keys && !InGate(after.live[p].place)
    decreases StepsLeft(w.live[p].place)
  {
    if !InGate(w.live[p].place) then w
    else Ended(Next(w, Go(p, faults(OperationAt(w.live[p].place)))), p, faults)
  }

  function Acquired(w: World, p: nat, faults: Faults): World
    requires p in w.live && w.live[p].place == Outside
  {
    Ended(Next(w, Go(p, faults(OpenGate))), p, faults)
  }

  // Left alone, acquire succeeds exactly when there is no gate, and no lock file or one whose owner is readable and
  // no longer alive.
  lemma AcquireAlone(w: World, p: nat, faults: Faults)
    requires Inv(w) && p in w.live && w.live[p].place == Outside && forall o :: !faults(o)
    ensures Owns(Acquired(w, p, faults), p) <==>
              w.gate.None? && (w.lock.None?
                               || (w.lock.value.content.Owner? && !PidLive(w.live, w.lock.value.content.pid)))
    ensures w.gate.None? ==> Acquired(w, p, faults).gate.None?
  {
    hide Ended, PidLive, Inv;
    var w1 := Next(w, Go(p, false));
    if w.gate.Some? {
      NothingLeft(w, p, faults);
    } else {
      SamePids(w, w1);
      OneStepOn(w1, p, faults);
      var w2 := Next(w1, Go(p, false));
      SamePids(w, w2);
      if w.lock.None? { CreateAlone(w2, p, faults); } else { CheckAlone(w2, p, faults); }
    }
  }

  // From the moment at which a lock file has been seen.
  lemma CheckAlone(w: World, p: nat, faults: Faults)
    requires p in w.live && w.live[p].place.Reading? && w.lock.Some? && forall o :: !faults(o)
    ensures var after := Ended(w, p, faults);
            && (Owns(after, p) <==> w.lock.value.content.Owner? && !PidLive(w.live, w.lock.value.content.pid))
            && after.gate.None?
  {
    hide Ended, PidLive;
    OneStepOn(w, p, faults);
    var w1 := Next(w, Go(p, false));
    if w.lock.value.content.Garbled? {
      LeaveAlone(w1, p, faults);
    } else {
      SamePids(w, w1);
      OneStepOn(w1, p, faults);
      var w2 := Next(w1, Go(p, false));
      if PidLive(w.live, w.lock.value.content.pid) {
        LeaveAlone(w2, p, faults);
      } else {
        OneStepOn(w2, p, faults);
        CreateAlone(Next(w2, Go(p, false)), p, faults);
      }
    }
  }

  lemma SamePids(a: World, b: World)
    requires a.live.Keys == b.live.Keys && forall q | q in a.live :: a.live[q].pid == b.live[q].pid
    ensures forall pid :: PidLive(a.live, pid) <==> PidLive(b.live, pid)
  {
    forall pid ensures PidLive(a.live, pid) <==> PidLive(b.live, pid) {
      if PidLive(a.live, pid) {
        var q :| q in a.live && a.live[q].pid == pid;
        assert q in b.live && b.live[q].pid == pid;
      }
      if PidLive(b.live, pid) {
        var q :| q in b.live && b.live[q].pid == pid;
        assert q in a.live && a.live[q].pid == pid;
      }
    }
  }

  lemma LeaveAlone(w: World, p: nat, faults: Faults)
    requires p in w.live && w.live[p].place.Leaving? && !faults(UnlinkGate)
    ensures Ended(w, p, faults) == Next(w, Go(p, false))
    ensures Ended(w, p, faults).gate.None? && (Owns(Ended(w, p, faults), p) <==> w.live[p].place.acquired)
  {
    var after := Next(w, Go(p, false));
    assert Ended(after, p, faults) == after;
  }

  lemma CreateAlone(w: World, p: nat, faults: Faults)
    requires p in w.live && w.live[p].place.Creating? && w.lock.None? && forall o :: !faults(o)
    ensures Owns(Ended(w, p, faults), p) && Ended(w, p, faults).gate.None?
  {
    hide Ended, PidLive;
    OneStepOn(w, p, faults);
    var w1 := Next(w, Go(p, false));
    OneStepOn(w1, p, faults);
    var w2 := Next(w1, Go(p, false));
    OneStepOn(w2, p, faults);
    var w3 := Next(w2, Go(p, false));
    LeaveAlone(w3, p, faults);
  }

  // The owner can always release: nothing the others do can make its own check fail.
  lemma ReleaseFrees(start: World, actions: seq<Action>, p: nat)
    requires Initial(start)
    ensures var w := Run(start, actions);
            p in w.live && w.live[p].place.Owning? ==>
              var after := Next(Next(w, Go(p, false)), Go(p, false));
              after.lock.None? && p in after.live && after.live[p].place == Outside
  {
    InitialOk(start);
    RunKeeps(start, actions);
    var w := Run(start, actions);
    if Owns(w, p) { OwnersFile(w, p); }
  }

  lemma OneStepOn(w: World, p: nat, faults: Faults)
    requires p in w.live && InGate(w.live[p].place)
    ensures var after := Next(w, Go(p, faults(OperationAt(w.live[p].place))));
            p in after.live && Ended(after, p, faults) == Ended(w, p, faults)
  {
  }

  lemma NothingLeft(w: World, p: nat, faults: Faults)
    requires p in w.live && !InGate(w.live[p].place)
    ensures Ended(w, p, faults) == w
  {
  }

  // ---------------------------------------------------------------- the code itself

  // One data directory; `Acquire` and `Release` are the bodies of acquire and of the function it returns, in a
  // world where nothing else happens meanwhile.
  class DataDirectory {
    var live: map<nat, Process>
    var gate: Option<nat>
    var lock: Option<LockFile>
    var nextProcess: nat
    var nextToken: nat

    function Snapshot(): World
      reads this
    {
      World(live, gate, lock, nextProcess, nextToken)
    }

    constructor (w: World)
      ensures Snapshot() == w
    {
      live, gate, lock, nextProcess, nextToken := w.live, w.gate, w.lock, w.nextProcess, w.nextToken;
    }

    method Move(p: nat, place: Place)
      requires p in live
      modifies this`live
      ensures live == old(live)[p := old(live)[p].(place := place)]
    {
      live := live[p := live[p].(place := place)];
    }

    // try { ... } of acquire: the check of an existing lock file. Its result says whether creating may go on.
    method CheckExisting(p: nat, token: nat, faults: Faults) returns (free: bool)
      requires p in live && live[p].place == Checking(token)
      modifies this
      ensures p in live && live[p].place == (if free then Creating(token) else Leaving(token, false))
      ensures live.Keys == old(live).Keys
      ensures Ended(Snapshot(), p, faults) == Ended(old(Snapshot()), p, faults)
    {
      hide PidLive, Ended;
      ghost var w0 := Snapshot();
      OneStepOn(w0, p, faults);
      if faults(Exists) || lock.None? {
        Move(p, Creating(token));
        assert Snapshot() == Next(w0, Go(p, faults(Exists)));
        return true;
      }
      Move(p, Reading(token));
      ghost var w1 := Snapshot();
      assert w1 == Next(w0, Go(p, faults(Exists)));
      free := CheckOwner(p, token, faults);
    }

    // The lock file exists: its owner is read and probed, and the file is removed if nobody has that process id.
    method CheckOwner(p: nat, token: nat, faults: Faults) returns (free: bool)
      requires p in live && live[p].place == Reading(token) && lock.Some?
      modifies this
      ensures p in live && live[p].place == (if free then Creating(token) else Leaving(token, false))
      ensures live.Keys == old(live).Keys
      ensures Ended(Snapshot(), p, faults) == Ended(old(Snapshot()), p, faults)
    {
      hide PidLive, Ended;
      ghost var w1 := Snapshot();
      OneStepOn(w1, p, faults);
      if faults(ReadOwner) || lock.value.content.Garbled? {
        Move(p, Leaving(token, false));
        assert Snapshot() == Next(w1, Go(p, faults(ReadOwner)));
        return false;
      }
      var pid := lock.value.content.pid;
      Move(p, Probing(token, pid, lock.value.creator));
      ghost var w2 := Snapshot();
      assert w2 == Next(w1, Go(p, faults(ReadOwner)));
      OneStepOn(w2, p, faults);
      var dead := !PidLive(live, pid);
      if faults(Probe) || !dead {
        Move(p, Leaving(token, false));
        assert Snapshot() == Next(w2, Go(p, faults(Probe)));
        return false;
      }
      Move(p, Unlinking(token, lock.value.creator));
      ghost var w3 := Snapshot();
      assert w3 == Next(w2, Go(p, faults(Probe)));
      free := RemoveStale(p, token, faults);
    }

    method RemoveStale(p: nat, token: nat, faults: Faults) returns (free: bool)
      requires p in live && live[p].place.Unlinking? && live[p].place.token == token && lock.Some?
      modifies this
      ensures p in live && live[p].place == (if free then Creating(token) else Leaving(token, false))
      ensures live.Keys == old(live).Keys
      ensures Ended(Snapshot(), p, faults) == Ended(old(Snapshot()), p, faults)
    {
      hide PidLive, Ended;
      ghost var w3 := Snapshot();
      OneStepOn(w3, p, faults);
      if faults(UnlinkStale) {
        Move(p, Leaving(token, false));
        assert Snapshot() == Next(w3, Go(p, faults(UnlinkStale)));
        return false;
      }
      lock := None;
      Move(p, Creating(token));
      assert Snapshot() == Next(w3, Go(p, faults(UnlinkStale)));
      free := true;
    }

    method CreateOwn(p: nat, token: nat, faults: Faults) returns (created: bool)
      requires p in live && live[p].place == Creating(token)
      modifies this
      ensures p in live && live[p].place == Leaving(token, created)
      ensures live.Keys == old(live).Keys
      ensures Ended(Snapshot(), p, faults) == Ended(old(Snapshot()), p, faults)
    {
      hide PidLive, Ended;
      ghost var w0 := Snapshot();
      OneStepOn(w0, p, faults);
      if faults(CreateLock) || lock.Some? {
        Move(p, Leaving(token, false));
        assert Snapshot() == Next(w0, Go(p, faults(CreateLock)));
        return false;
      }
      lock := Some(LockFile(p, Garbled));
      Move(p, Writing(token));
      ghost var w1 := Snapshot();
      assert w1 == Next(w0, Go(p, faults(CreateLock)));
      created := WriteOwn(p, token, faults);
    }

    method WriteOwn(p: nat, token: nat, faults: Faults) returns (created: bool)
      requires p in live && live[p].place == Writing(token) && lock.Some?
      modifies this
      ensures p in live && live[p].place == Leaving(token, created)
      ensures live.Keys == old(live).Keys
      ensures Ended(Snapshot(), p, faults) == Ended(old(Snapshot()), p, faults)
    {
      hide PidLive, Ended;
      ghost var w1 := Snapshot();
      OneStepOn(w1, p, faults);
      if faults(WriteOwner) {
        Move(p, Leaving(token, false));
        assert Snapshot() == Next(w1, Go(p, faults(WriteOwner)));
        return false;
      }
      lock := Some(lock.value.(content := Owner(live[p].pid, token)));
      Move(p, Syncing(token));
      ghost var w2 := Snapshot();
      assert w2 == Next(w1, Go(p, faults(WriteOwner)));
      OneStepOn(w2, p, faults);
      created := !faults(SyncOwner);
      Move(p, Leaving(token, created));
      assert Snapshot() == Next(w2, Go(p, faults(SyncOwner)));
    }

    // finally { ... } of acquire: removing the gate file.
    method LeaveGate(p: nat, token: nat, created: bool, faults: Faults) returns (acquired: bool)
      requires p in live && live[p].place == Leaving(token, created)
      modifies this
      ensures Snapshot() == Ended(old(Snapshot()), p, faults) && acquired == Owns(Snapshot(), p)
    {
      hide PidLive, Ended;
      ghost var before := Snapshot();
      OneStepOn(before, p, faults);
      acquired := created && !faults(UnlinkGate);
      if !faults(UnlinkGate) { gate := None; }
      Move(p, if acquired then Owning(token) else Outside);
      assert Snapshot() == Next(before, Go(p, faults(UnlinkGate)));
      NothingLeft(Snapshot(), p, faults);
    }

    method Acquire(p: nat, faults: Faults) returns (acquired: bool)
      requires p in live && live[p].place == Outside
      modifies this
      ensures Snapshot() == Acquired(old(Snapshot()), p, faults)
      ensures acquired == Owns(Snapshot(), p)
    {
      hide PidLive, Ended;
      if faults(OpenGate) || gate.Some? {
        NothingLeft(Snapshot(), p, faults);
        return false;
      }
      var token := nextToken;
      gate, nextToken := Some(p), nextToken + 1;
      Move(p, Checking(token));
      assert Snapshot() == Next(old(Snapshot()), Go(p, false));
      acquired := CheckExisting(p, token, faults);
      if acquired { acquired := CreateOwn(p, token, faults); }
      acquired := LeaveGate(p, token, acquired, faults);
    }

    // The release function; calling it again after it has done its work does nothing.
    method Release(p: nat, token: nat, released: bool, faults: Faults) returns (done: bool)
      requires p in live && (live[p].place == Owning(token) || released)
      modifies this
      ensures released ==> done && Snapshot() == old(Snapshot())
      ensures !released ==>
                var read := Next(old(Snapshot()), Go(p, faults(ReadOwn)));
                Snapshot() == if read.live[p].place.Removing? then Next(read, Go(p, faults(UnlinkOwn))) else read
      ensures !released ==> (done <==> live[p].place == Outside)
    {
      if released { return true; }
      if faults(ReadOwn) || lock.None? || lock.value.content != Owner(live[p].pid, token) { return false; }
      Move(p, Removing(token));
      if faults(UnlinkOwn) {
        Move(p, Owning(token));
        return false;
      }
      lock := None;
      Move(p, Outside);
      done := true;
    }
  }
}
