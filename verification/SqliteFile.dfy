/** Nested snapshot transactions (database.service.ts:16-73).

    The database is its exported image; a statement is a function on it. What a callback does is a tree of further
    calls, with exceptions thrown and caught and with choices that depend on the database. */
module SqliteFile {

  type Database = seq<bv8>

  type Statement = Database -> Database

  // How saving ends: completely, with an exception before the new file is in place, or with one after that.
  datatype Saving = Saved | FailedBefore | FailedAfter

  // What the callback turns out to be.
  datatype Callback = Ordinary | AsyncFunction | ReturnsThenable

  datatype Work =
    | Skip
    | Throw
    | Then(first: Work, second: Work)
    | Catch(tried: Work, handler: Work)
    | If(test: Database -> bool, yes: Work, no: Work)
    | Execute(statement: Statement, fails: bool, saving: Saving)
    | Transaction(body: Work, callback: Callback, saving: Saving)

  // ---------------------------------------------------------------- all or nothing

  function Fold(statements: seq<Statement>, db: Database): Database {
    if statements == [] then db else Fold(statements[1..], statements[0](db))
  }

  lemma {:induction false} FoldConcatenates(a: seq<Statement>, b: seq<Statement>, db: Database)
    ensures Fold(a + b, db) == Fold(b, Fold(a, db))
    decreases a
  {
    if a == [] {
      assert a + b == b;
    } else {
      FoldConcatenates(a[1..], b, a[0](db));
      assert (a + b)[1..] == a[1..] + b;
    }
  }

  datatype Kept = Kept(statements: seq<Statement>, ok: bool)

  // The call of a transaction whose body does `inner` succeeds.
  predicate Commits(inner: Kept, callback: Callback, saving: Saving, outer: bool) {
    callback == Ordinary && inner.ok && (outer ==> saving == Saved)
  }

  // The statements whose effect survives, in order, and whether the work ends without an exception. `outer` says
  // that no transaction is open around it. There are no snapshots and no intermediate states here: a transaction
  // that fails contributes nothing.
  function Survivors(w: Work, outer: bool, db: Database): Kept
    decreases w
  {
    match w
    case Skip => Kept([], true)
    case Throw => Kept([], false)
    case Then(first, second) =>
      var a := Survivors(first, outer, db);
      if !a.ok then a
      else
        var b := Survivors(second, outer, Fold(a.statements, db));
        Kept(a.statements + b.statements, b.ok)
    case Catch(tried, handler) =>
      var a := Survivors(tried, outer, db);
      if a.ok then a
      else
        var b := Survivors(handler, outer, Fold(a.statements, db));
        Kept(a.statements + b.statements, b.ok)
    case If(test, yes, no) => if test(db) then Survivors(yes, outer, db) else Survivors(no, outer, db)
    case Execute(statement, fails, saving) =>
      if Commits(Kept([statement], !fails), Ordinary, saving, outer) then Kept([statement], true) else Kept([], false)
    case Transaction(body, callback, saving) =>
      if callback == AsyncFunction then Kept([], false)
      else
        var inner := Survivors(body, false, db);
        if Commits(inner, callback, saving, outer) then inner else Kept([], false)
  }

  function After(w: Work, outer: bool, db: Database): Database { Fold(Survivors(w, outer, db).statements, db) }

  // What an outermost call leaves on disk: the image it saved, if it got as far as replacing the file.
  function Written(inner: Kept, callback: Callback, saving: Saving, db: Database, disk: Database): Database {
    if callback == Ordinary && inner.ok && saving != FailedBefore then Fold(inner.statements, db) else disk
  }

  // The file after work that is done while no transaction is open.
  function Disk(w: Work, db: Database, disk: Database): Database
    decreases w
  {
    match w
    case Skip => disk
    case Throw => disk
    case Then(first, second) =>
      var d := Disk(first, db, disk);
      if !Survivors(first, true, db).ok then d else Disk(second, After(first, true, db), d)
    case Catch(tried, handler) =>
      var d := Disk(tried, db, disk);
      if Survivors(tried, true, db).ok then d else Disk(handler, After(tried, true, db), d)
    case If(test, yes, no) => if test(db) then Disk(yes, db, disk) else Disk(no, db, disk)
    case Execute(statement, fails, saving) => Written(Kept([statement], !fails), Ordinary, saving, db, disk)
    case Transaction(body, callback, saving) =>
      if callback == AsyncFunction then disk else Written(Survivors(body, false, db), callback, saving, db, disk)
  }

  // ---------------------------------------------------------------- the class

  class SqliteFile {
    var native: Database
    var disk: Database
    var transactionDepth: nat

    constructor (image: Database)
      ensures native == image && disk == image && transactionDepth == 0
    {
      native, disk, transactionDepth := image, image, 0;
    }

    // The file is replaced by a rename; an exception can come before it or, from the cleanup, after it.
    method Persist(saving: Saving) returns (ok: bool)
      modifies this`disk
      ensures ok == (saving == Saved)
      ensures disk == if saving == FailedBefore then old(disk) else native
    {
      if saving == FailedBefore { return false; }
      disk := native;
      ok := saving == Saved;
    }

    // The end of the try block, the catch block that restores the snapshot, and the finally block.
    method Finish(before: Database, worked: bool, saving: Saving) returns (ok: bool)
      requires transactionDepth >= 1
      modifies this
      ensures transactionDepth == old(transactionDepth) - 1
      ensures ok == (worked && (old(transactionDepth) == 1 ==> saving == Saved))
      ensures native == if ok then old(native) else before
      ensures disk == if worked && old(transactionDepth) == 1 && saving != FailedBefore then old(native) else old(disk)
    {
      ok := worked;
      if ok && transactionDepth == 1 { ok := Persist(saving); }
      if !ok { native := before; }
      transactionDepth := transactionDepth - 1;
    }

    // execute and exec: a statement that fails may already have changed something.
    method Execute(statement: Statement, fails: bool, saving: Saving) returns (ok: bool)
      modifies this
      ensures var inner := Kept([statement], !fails);
              && ok == Commits(inner, Ordinary, saving, old(transactionDepth) == 0)
              && native == (if ok then statement(old(native)) else old(native))
              && disk == if old(transactionDepth) == 0 then Written(inner, Ordinary, saving, old(native), old(disk))
                 else old(disk)
      ensures transactionDepth == old(transactionDepth)
    {
      var before := native;
      transactionDepth := transactionDepth + 1;
      native := statement(native);
      ok := Finish(before, !fails, saving);
      assert Fold([statement], before) == statement(before);
    }

    method Transaction(body: Work, callback: Callback, saving: Saving) returns (ok: bool)
      modifies this
      ensures var inner := Survivors(body, false, old(native));
              && ok == (callback != AsyncFunction && Commits(inner, callback, saving, old(transactionDepth) == 0))
              && native == (if ok then After(body, false, old(native)) else old(native))
              && disk == if old(transactionDepth) == 0 && callback != AsyncFunction
                         then Written(inner, callback, saving, old(native), old(disk)) else old(disk)
      ensures transactionDepth == old(transactionDepth)
      decreases body, 1
    {
      hide Survivors, Fold;
      if callback == AsyncFunction { return false; }
      var before := native;
      transactionDepth := transactionDepth + 1;
      var worked := Perform(body);
      ok := Finish(before, worked && callback == Ordinary, saving);
    }

    // Runs a tree of work. The memory ends as if every failed transaction had never run, and the file only changes
    // where no transaction is open.
    method Perform(w: Work) returns (ok: bool)
      modifies this
      ensures ok == Survivors(w, old(transactionDepth) == 0, old(native)).ok
      ensures native == After(w, old(transactionDepth) == 0, old(native))
      ensures disk == if old(transactionDepth) == 0 then Disk(w, old(native), old(disk)) else old(disk)
      ensures transactionDepth == old(transactionDepth)
      decreases w, 0
    {
      hide Fold;
      ghost var outer, db := transactionDepth == 0, native;
      match w {
        case Skip => ok := true; Nothing(db);
        case Throw => ok := false; Nothing(db);
        case Then(first, second) =>
          ok := Perform(first);
          if ok {
            ok := Perform(second);
            FoldConcatenates(Survivors(first, outer, db).statements,
                             Survivors(second, outer, After(first, outer, db)).statements, db);
          }
        case Catch(tried, handler) =>
          ok := Perform(tried);
          if !ok {
            ok := Perform(handler);
            FoldConcatenates(Survivors(tried, outer, db).statements,
                             Survivors(handler, outer, After(tried, outer, db)).statements, db);
          }
        case If(test, yes, no) =>
          if test(native) { ok := Perform(yes); } else { ok := Perform(no); }
        case Execute(statement, fails, saving) =>
          ok := Execute(statement, fails, saving);
          Nothing(db);
          One(statement, db);
        case Transaction(body, callback, saving) =>
          ok := Transaction(body, callback, saving);
          Nothing(db);
      }
    }
  }

  lemma Nothing(db: Database)
    ensures Fold([], db) == db
  {
  }

  lemma One(statement: Statement, db: Database)
    ensures Fold([statement], db) == statement(db)
  {
  }

  // ---------------------------------------------------------------- what follows

  // The work with every transaction that fails replaced by the exception alone.
  function Excised(w: Work, outer: bool, db: Database): Work
    decreases w
  {
    match w
    case Skip => w
    case Throw => w
    case Then(first, second) => Then(Excised(first, outer, db), Excised(second, outer, After(first, outer, db)))
    case Catch(tried, handler) => Catch(Excised(tried, outer, db), Excised(handler, outer, After(tried, outer, db)))
    case If(test, yes, no) => if test(db) then Excised(yes, outer, db) else Excised(no, outer, db)
    case Execute(statement, fails, saving) => if Survivors(w, outer, db).ok then w else Throw
    case Transaction(body, callback, saving) =>
      if Survivors(w, outer, db).ok then Transaction(Excised(body, false, db), callback, saving) else Throw
  }

  // Every call the work makes, when it starts at db, succeeds.
  predicate AllCallsSucceed(w: Work, outer: bool, db: Database)
    decreases w
  {
    match w
    case Skip => true
    case Throw => true
    case Then(first, second) =>
      AllCallsSucceed(first, outer, db)
          && (Survivors(first, outer, db).ok ==> AllCallsSucceed(second, outer, After(first, outer, db)))
    case Catch(tried, handler) =>
      AllCallsSucceed(tried, outer, db)
          && (!Survivors(tried, outer, db).ok ==> AllCallsSucceed(handler, outer, After(tried, outer, db)))
    case If(test, yes, no) => if test(db) then AllCallsSucceed(yes, outer, db) else AllCallsSucceed(no, outer, db)
    case Execute(statement, fails, saving) => Survivors(w, outer, db).ok
    case Transaction(body, callback, saving) => Survivors(w, outer, db).ok && AllCallsSucceed(body, false, db)
  }

  // As if each failed transaction had never run: taking them out, so that none fails, changes neither the
  // database nor the outcome.
  lemma {:induction false} FailedWorkNeverRan(w: Work, outer: bool, db: Database)
    ensures Survivors(Excised(w, outer, db), outer, db) == Survivors(w, outer, db)
    ensures AllCallsSucceed(Excised(w, outer, db), outer, db)
    decreases w
  {
    hide Fold;
    match w {
      case Skip =>
      case Throw =>
      case Then(first, second) =>
        FailedWorkNeverRan(first, outer, db);
        FailedWorkNeverRan(second, outer, After(first, outer, db));
      case Catch(tried, handler) =>
        FailedWorkNeverRan(tried, outer, db);
        FailedWorkNeverRan(handler, outer, After(tried, outer, db));
      case If(test, yes, no) =>
        FailedWorkNeverRan(if test(db) then yes else no, outer, db);
      case Execute(statement, fails, saving) =>
      case Transaction(body, callback, saving) =>
        FailedWorkNeverRan(body, false, db);
    }
  }

  // No outermost call replaces the file and then fails.
  predicate NeverFailsAfter(w: Work) {
    match w
    case Then(first, second) => NeverFailsAfter(first) && NeverFailsAfter(second)
    case Catch(tried, handler) => NeverFailsAfter(tried) && NeverFailsAfter(handler)
    case If(test, yes, no) => NeverFailsAfter(yes) && NeverFailsAfter(no)
    case Execute(statement, fails, saving) => saving != FailedAfter
    case Transaction(body, callback, saving) => saving != FailedAfter
    case _ => true
  }

  // Memory and file agree whenever no transaction is open, also when saving fails before the rename.
  lemma {:induction false} MemoryIsOnDisk(w: Work, db: Database)
    requires NeverFailsAfter(w)
    ensures Disk(w, db, db) == After(w, true, db)
    decreases w
  {
    hide Fold;
    Nothing(db);
    match w {
      case Skip =>
      case Throw =>
      case Then(first, second) =>
        MemoryIsOnDisk(first, db);
        if Survivors(first, true, db).ok {
          MemoryIsOnDisk(second, After(first, true, db));
          FoldConcatenates(Survivors(first, true, db).statements,
                           Survivors(second, true, After(first, true, db)).statements, db);
        }
      case Catch(tried, handler) =>
        MemoryIsOnDisk(tried, db);
        if !Survivors(tried, true, db).ok {
          MemoryIsOnDisk(handler, After(tried, true, db));
          FoldConcatenates(Survivors(tried, true, db).statements,
                           Survivors(handler, true, After(tried, true, db)).statements, db);
        }
      case If(test, yes, no) => MemoryIsOnDisk(if test(db) then yes else no, db);
      case Execute(statement, fails, saving) =>
      case Transaction(body, callback, saving) =>
    }
  }

  // One outermost transaction: the two part exactly when the body changed something and saving failed after the
  // file was replaced.
  lemma AgreementIsExact(body: Work, callback: Callback, saving: Saving, db: Database)
    ensures var w := Transaction(body, callback, saving);
            var inner := Survivors(body, false, db);
            (Disk(w, db, db) == After(w, true, db))
              <==> !(callback == Ordinary && inner.ok && saving == FailedAfter && Fold(inner.statements, db) != db)
  {
    hide Fold;
    Nothing(db);
  }

  // For example: one statement that changes something, and an exception from the cleanup after the rename.
  lemma MemoryAndFileCanPart()
    ensures var w := Transaction(Execute(db => db + [1], false, Saved), Ordinary, FailedAfter);
            Disk(w, [], []) == [1] && After(w, true, []) == []
  {
    var statement: Statement := db => db + [1];
    var body := Execute(statement, false, Saved);
    assert Survivors(body, false, []) == Kept([statement], true);
    One(statement, []);
    Nothing([]);
  }

  // Inside a transaction nothing is saved, so the outcome of saving does not matter there.
  function WithSaving(w: Work, saving: Saving): Work {
    match w
    case Then(first, second) => Then(WithSaving(first, saving), WithSaving(second, saving))
    case Catch(tried, handler) => Catch(WithSaving(tried, saving), WithSaving(handler, saving))
    case If(test, yes, no) => If(test, WithSaving(yes, saving), WithSaving(no, saving))
    case Execute(statement, fails, _) => Execute(statement, fails, saving)
    case Transaction(body, callback, _) => Transaction(WithSaving(body, saving), callback, saving)
    case _ => w
  }

  lemma {:induction false} NestedWorkIgnoresDisk(w: Work, saving: Saving, db: Database)
    ensures Survivors(WithSaving(w, saving), false, db) == Survivors(w, false, db)
    decreases w
  {
    hide Fold;
    match w {
      case Skip =>
      case Throw =>
      case Then(first, second) =>
        NestedWorkIgnoresDisk(first, saving, db);
        NestedWorkIgnoresDisk(second, saving, After(first, false, db));
      case Catch(tried, handler) =>
        NestedWorkIgnoresDisk(tried, saving, db);
        NestedWorkIgnoresDisk(handler, saving, After(tried, false, db));
      case If(test, yes, no) => NestedWorkIgnoresDisk(if test(db) then yes else no, saving, db);
      case Execute(statement, fails, _) =>
      case Transaction(body, callback, _) => NestedWorkIgnoresDisk(body, saving, db);
    }
  }
}
