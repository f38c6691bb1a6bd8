/** The identity of a backup configuration, which is computed when work is enqueued (execution.service.ts), recovered
    from the columns a run records (backup.service.ts) and computed again by the protection policy
    (protection.service.ts); the shared part is execution.types.ts:40-62.

    The hash is a parameter; strings are compared by code unit. */
module Fingerprint {
  import opened Wrappers
  import Sequences
  import SqlStream

  // ---------------------------------------------------------------- the order of names

  // a < b
  predicate Less(a: string, b: string) {
    b != "" && (a == "" || a[0] < b[0] || (a[0] == b[0] && Less(a[1..], b[1..])))
  }

  lemma {:induction false} LessIsTotal(a: string, b: string)
    ensures Less(a, b) || a == b || Less(b, a)
    decreases a
  {
    if a != "" && b != "" && a[0] == b[0] {
      LessIsTotal(a[1..], b[1..]);
      assert a == [a[0]] + a[1..] && b == [b[0]] + b[1..];
    }
  }

  lemma {:induction false} LessIsStrict(a: string, b: string)
    requires Less(a, b)
    ensures a != b && !Less(b, a)
    decreases a
  {
    if a != "" && a[0] == b[0] { LessIsStrict(a[1..], b[1..]); }
  }

  lemma {:induction false} LessIsTransitive(a: string, b: string, c: string)
    requires Less(a, b) && Less(b, c)
    ensures Less(a, c)
    decreases a
  {
    if a != "" && a[0] == b[0] && b[0] == c[0] { LessIsTransitive(a[1..], b[1..], c[1..]); }
  }

  // ---------------------------------------------------------------- canonical names

  // [...new Set(names)]
  function Distinct(names: seq<string>): seq<string> {
    if names == [] then []
    else
      var front, last := Distinct(names[..|names| - 1]), names[|names| - 1];
      if last in names[..|names| - 1] then front else front + [last]
  }

  // .sort()
  function Sorted(names: seq<string>): seq<string> { Sequences.Sorted(Less, names) }

  function Canonical(names: seq<string>): seq<string> { Sorted(Distinct(names)) }

  // Strictly ascending.
  predicate Ascending(names: seq<string>) {
    forall i, j | 0 <= i < j < |names| :: Less(names[i], names[j])
  }

  ghost predicate SameNames(a: seq<string>, b: seq<string>) { forall name :: name in a <==> name in b }

  lemma {:induction false} DistinctKeeps(names: seq<string>)
    ensures SameNames(Distinct(names), names)
    ensures forall i, j | 0 <= i < j < |Distinct(names)| :: Distinct(names)[i] != Distinct(names)[j]
    decreases |names|
  {
    if names != [] {
      var front, last := names[..|names| - 1], names[|names| - 1];
      DistinctKeeps(front);
      assert names == front + [last];
      var distinct := Distinct(names);
      if last !in front {
        forall i, j | 0 <= i < j < |distinct| ensures distinct[i] != distinct[j] {
          assert distinct[i] in Distinct(front);
        }
      }
    }
  }

  lemma LessIsOrder()
    ensures Sequences.StrictWeakOrder(Less)
  {
    forall a, b | Less(a, b) ensures !Less(b, a) { LessIsStrict(a, b); }
    forall a, b, c | !Less(a, b) && !Less(b, c) ensures !Less(a, c) {
      if Less(a, c) {
        LessIsTotal(b, c);
        if Less(c, b) { LessIsTransitive(a, c, b); }
      }
    }
  }

  lemma SortedKeeps(names: seq<string>)
    requires forall i, j | 0 <= i < j < |names| :: names[i] != names[j]
    ensures SameNames(Sorted(names), names) && Ascending(Sorted(names))
  {
    hide Less;
    LessIsOrder();
    Sequences.SortedOrders(Less, names);
    var sorted := Sorted(names);
    forall name ensures name in sorted <==> name in names {
      assert name in multiset(sorted) <==> name in multiset(names);
    }
    forall i, j | 0 <= i < j < |sorted| ensures Less(sorted[i], sorted[j]) {
      DistinctStays(names, sorted, i, j);
      LessIsTotal(sorted[i], sorted[j]);
      assert !Less(sorted[j], sorted[i]);
    }
  }

  lemma DistinctStays(names: seq<string>, sorted: seq<string>, i: nat, j: nat)
    requires multiset(sorted) == multiset(names) && i < j < |sorted|
    requires forall i, j | 0 <= i < j < |names| :: names[i] != names[j]
    ensures sorted[i] != sorted[j]
  {
    OnceEach(names, sorted[i]);
    CountTwice(sorted, i, j);
  }

  lemma CountTwice(names: seq<string>, i: nat, j: nat)
    requires i < j < |names|
    ensures names[i] == names[j] ==> multiset(names)[names[i]] >= 2
  {
    var front, rest := names[..j], names[j..];
    assert names == front + rest && front[i] == names[i] && rest[0] == names[j];
    assert names[i] in multiset(front) && names[j] in multiset(rest);
  }

  lemma {:induction false} OnceEach(names: seq<string>, name: string)
    requires forall i, j | 0 <= i < j < |names| :: names[i] != names[j]
    ensures multiset(names)[name] <= 1
    decreases |names|
  {
    if names != [] {
      OnceEach(names[1..], name);
      assert names == [names[0]] + names[1..];
      assert names[0] !in names[1..];
    }
  }

  lemma {:induction false} AscendingIsUnique(a: seq<string>, b: seq<string>)
    requires Ascending(a) && Ascending(b) && SameNames(a, b)
    ensures a == b
    decreases |a|
  {
    hide Less;
    assert b == [] || b[0] in b;
    if a != [] {
      assert a[0] in a && a[0] in b;
      assert b[0] in b && b[0] in a;
      FirstIsLeast(a, b[0]);
      FirstIsLeast(b, a[0]);
      if a[0] != b[0] {
        LessIsStrict(a[0], b[0]);
        assert false;
      }
      TailNames(a, b);
      AscendingIsUnique(a[1..], b[1..]);
    }
  }

  lemma FirstIsLeast(a: seq<string>, name: string)
    requires Ascending(a) && name in a
    ensures a[0] == name || Less(a[0], name)
  {
    hide Less;
  }

  lemma TailNames(a: seq<string>, b: seq<string>)
    requires Ascending(a) && Ascending(b) && SameNames(a, b) && a != [] && b != [] && a[0] == b[0]
    ensures SameNames(a[1..], b[1..]) && Ascending(a[1..]) && Ascending(b[1..])
  {
    hide Less;
    FirstOnlyOnce(a);
    FirstOnlyOnce(b);
    assert a == [a[0]] + a[1..] && b == [b[0]] + b[1..];
    forall name ensures name in a[1..] <==> name in b[1..] {
      assert name in a <==> name == a[0] || name in a[1..];
      assert name in b <==> name == b[0] || name in b[1..];
    }
  }

  lemma FirstOnlyOnce(a: seq<string>)
    requires Ascending(a) && a != []
    ensures a[0] !in a[1..]
  {
    hide Less;
    forall j | 1 <= j < |a| ensures a[j] != a[0] { LessIsStrict(a[0], a[j]); }
  }

  lemma CanonicalIsAscending(names: seq<string>)
    ensures SameNames(Canonical(names), names) && Ascending(Canonical(names))
  {
    hide Less;
    DistinctKeeps(names);
    SortedKeeps(Distinct(names));
  }

  // The canonical form is the set of the names: neither order nor repetition shows, and nothing else is lost.
  lemma CanonicalIsTheSet(a: seq<string>, b: seq<string>)
    ensures Canonical(a) == Canonical(b) <==> SameNames(a, b)
    ensures Canonical(Canonical(a)) == Canonical(a)
  {
    hide Less, Canonical, Ascending;
    CanonicalIsAscending(a);
    CanonicalIsAscending(b);
    if SameNames(a, b) { AscendingIsUnique(Canonical(a), Canonical(b)); }
    CanonicalIsAscending(Canonical(a));
    AscendingIsUnique(Canonical(Canonical(a)), Canonical(a));
  }

  // ---------------------------------------------------------------- stored configuration

  // A column holding database names: empty, not a JSON array of strings, or one.
  datatype NamesText = NoNames | Malformed | Names(names: seq<string>)

  // parseDatabaseNames(value || '[]')
  function Parse(text: NamesText): Option<seq<string>> {
    match text case NoNames => Some([]) case Malformed => None case Names(names) => Some(names)
  }

  // A property of the stored objects: absent, or a value, of which the truth value and whether it is a boolean count.
  datatype Flag = Missing | Value(truth: bool, isBoolean: bool)

  // The backup_objects column: empty or not JSON, null, or something with properties.
  datatype ObjectsText = NoJson | Null | Flags(views: Flag, routines: Flag, triggers: Flag, events: Flag)

  datatype Objects = Objects(views: bool, routines: bool, triggers: bool, events: bool)

  datatype Source = Source(databaseNames: NamesText, databaseName: string)

  datatype Job = Job(
    databaseScope: string, backupLayout: string, backupObjects: ObjectsText, insertMode: string, compression: string,
    backupEncryption: string)

  datatype Configuration = Configuration(
    databaseScope: string, databaseNames: seq<string>, backupLayout: string, backupObjects: Objects, insertMode: string,
    compression: string, backupEncryption: string)

  function SkipSpaces(s: string): string { if s != "" && SqlStream.IsSpace(s[0]) then SkipSpaces(s[1..]) else s }

  function DropSpaces(s: string): string {
    if s != "" && SqlStream.IsSpace(s[|s| - 1]) then DropSpaces(s[..|s| - 1]) else s
  }

  // split(',').map(trim).filter(Boolean), with the part read so far.
  function Split(s: string, part: string): seq<string>
    decreases |s|
  {
    var named := DropSpaces(SkipSpaces(part));
    if s == "" then (if named == "" then [] else [named])
    else if s[0] == ',' then (if named == "" then [] else [named]) + Split(s[1..], "")
    else Split(s[1..], part + [s[0]])
  }

  // The names that a selection stands for.
  function SelectedNames(selection: NamesText, source: Option<Source>): Option<seq<string>> {
    var own := Parse(selection);
    if own.None? || own.value != [] || source.None? then own
    else
      var theirs := Parse(source.value.databaseNames);
      if theirs.None? || theirs.value != [] then theirs else Some(Split(source.value.databaseName, ""))
  }

  function Defaulted(flag: Flag, otherwise: bool): bool { if flag == Missing then otherwise else flag.truth }

  // The objects of a stored configuration; None stands for the exception that a JSON null causes.
  function ObjectsOf(text: ObjectsText, layout: string): Option<Objects> {
    match text
    case Null => None
    case NoJson => Some(Objects(layout != "table", layout != "table", true, layout != "table"))
    case Flags(views, routines, triggers, events) =>
      Some(Objects(Defaulted(views, layout != "table"), Defaulted(routines, layout != "table"),
                   Defaulted(triggers, true), Defaulted(events, layout != "table")))
  }

  function LayoutOf(layout: string): string { if layout == "database" || layout == "table" then layout else "single" }

  // snapshotConfiguration
  function Snapshot(job: Job, selection: NamesText, source: Option<Source>): Option<Configuration> {
    var names := SelectedNames(selection, source);
    var layout := LayoutOf(job.backupLayout);
    var objects := ObjectsOf(job.backupObjects, layout);
    if names.None? || objects.None? then None
    else
      Some(Configuration(
             if job.databaseScope == "all" then "all" else "selected", Canonical(names.value), layout, objects.value,
             if job.insertMode == "single-row" then "single-row" else "extended",
             if layout == "single" then job.compression else "zip", job.backupEncryption))
  }

  // ---------------------------------------------------------------- the identity

  // What is hashed.
  datatype Identity = Identity(
    scope: string, names: seq<string>, layout: string, objects: Objects, insertMode: string, compression: string,
    encryption: string)

  type Hash = Identity -> string

  ghost predicate Injective(hash: Hash) { forall a, b: Identity | hash(a) == hash(b) :: a == b }

  function IdentityOf(c: Configuration): Identity {
    Identity(c.databaseScope, if c.databaseScope == "all" then [] else Canonical(c.databaseNames), c.backupLayout,
             c.backupObjects, c.insertMode, c.compression, c.backupEncryption)
  }

  // selectionFingerprint
  function SelectionFingerprint(c: Configuration, hash: Hash): string { hash(IdentityOf(c)) }

  // Two configurations have the same fingerprint exactly when they agree in scope, set of names (unless all
  // databases are meant), layout, objects, insert mode, compression and encryption.
  lemma FingerprintMeans(a: Configuration, b: Configuration, hash: Hash)
    requires Injective(hash)
    ensures SelectionFingerprint(a, hash) == SelectionFingerprint(b, hash) <==>
              && a.databaseScope == b.databaseScope
              && (a.databaseScope == "all" || SameNames(a.databaseNames, b.databaseNames))
              && a.backupLayout == b.backupLayout && a.backupObjects == b.backupObjects
              && a.insertMode == b.insertMode && a.compression == b.compression
              && a.backupEncryption == b.backupEncryption
  {
    hide Canonical, SameNames;
    CanonicalIsTheSet(a.databaseNames, b.databaseNames);
  }

  // The selection as the user wrote it: order and repetition of the names do not matter.
  lemma SelectionOrderDoesNotMatter(job: Job, a: seq<string>, b: seq<string>, source: Option<Source>, hash: Hash)
    requires SameNames(a, b)
    ensures Snapshot(job, Names(a), source) == Snapshot(job, Names(b), source)
  {
    hide Canonical, ObjectsOf, Split;
    CanonicalIsTheSet(a, b);
    if a != [] { assert a[0] in b; }
    if b != [] { assert b[0] in a; }
  }

  // ---------------------------------------------------------------- what a run records

  // The columns of backup_runs from which the identity is recovered; None is NULL.
  datatype Columns = Columns(
    databaseScope: Option<string>, databaseNames: Option<NamesText>, backupLayout: Option<string>,
    backupObjects: Option<ObjectsText>, insertMode: Option<string>, compression: Option<string>,
    backupEncryption: Option<string>)

  // backupObjects of the source, for an object that is already complete.
  function Written(o: Objects): ObjectsText {
    Flags(Value(o.views, true), Value(o.routines, true), Value(o.triggers, true), Value(o.events, true))
  }

  function RecordedCompression(layout: string, compression: string): string {
    if layout != "single" then "zip"
    else if compression in {"none", "gzip", "zip"} then compression
    else "gzip"
  }

  // The first update of a run that was started for an execution.
  function Announced(c: Configuration): Columns {
    Columns(Some(c.databaseScope), Some(Names(c.databaseNames)), None, None, None, None, None)
  }

  // The second one, once the databases are known; `available` is what the server lists. None: the run stops before,
  // because nothing is selected.
  function Recorded(c: Configuration, available: seq<string>): Option<Columns> {
    var scope := if c.databaseScope == "all" then "all" else "selected";
    var databases := if scope == "all" then available else c.databaseNames;
    var layout := LayoutOf(c.backupLayout);
    if scope == "selected" && databases == [] then None
    else
      Some(Columns(
             Some(scope), Some(Names(databases)), Some(layout), Some(Written(c.backupObjects)),
             Some(if c.insertMode == "single-row" then "single-row" else "extended"),
             Some(RecordedCompression(layout, c.compression)), Some(c.backupEncryption)))
  }

  predicate IsBoolean(flag: Flag) { flag.Value? && flag.isBoolean }

  // matches
  predicate Matches(run: Columns, fingerprint: string, hash: Hash) {
    && run.databaseScope.Some? && run.databaseNames.Some? && run.backupLayout.Some? && run.backupObjects.Some?
    && run.insertMode.Some? && run.compression.Some? && run.backupEncryption.Some?
    && run.backupObjects.value.Flags?
    && IsBoolean(run.backupObjects.value.views) && IsBoolean(run.backupObjects.value.routines)
    && IsBoolean(run.backupObjects.value.triggers) && IsBoolean(run.backupObjects.value.events)
    && (run.databaseScope.value == "all" || run.databaseNames.value.Names?)
    && SelectionFingerprint(Recovered(run), hash) == fingerprint
  }

  // The configuration that the columns of a complete row spell out.
  function Recovered(run: Columns): Configuration
    requires run.databaseScope.Some? && run.databaseNames.Some? && run.backupLayout.Some? && run.backupObjects.Some?
    requires run.insertMode.Some? && run.compression.Some? && run.backupEncryption.Some?
    requires run.backupObjects.value.Flags?
    requires IsBoolean(run.backupObjects.value.views) && IsBoolean(run.backupObjects.value.routines)
    requires IsBoolean(run.backupObjects.value.triggers) && IsBoolean(run.backupObjects.value.events)
  {
    var o := run.backupObjects.value;
    Configuration(
      run.databaseScope.value, if run.databaseNames.value.Names? then run.databaseNames.value.names else [],
      run.backupLayout.value, Objects(o.views.truth, o.routines.truth, o.triggers.truth, o.events.truth),
      run.insertMode.value, run.compression.value, run.backupEncryption.value)
  }

  // What the protection policy compares with: the identity of the schedule as it is stored now.
  function Assessed(job: Job, selection: NamesText, source: Option<Source>, hash: Hash): string {
    var snapshot := Snapshot(job, selection, source);
    if snapshot.None? then "invalid_configuration" else SelectionFingerprint(snapshot.value, hash)
  }

  predicate KnownCompression(job: Job) {
    LayoutOf(job.backupLayout) != "single" || job.compression in {"none", "gzip", "zip"}
  }

  // The three modules agree: a run made for an unchanged schedule is recognised as proof of its current
  // configuration, whatever databases the server lists, exactly when the stored compression is one that runs know.
  // A run that stopped before the databases were known proves nothing.
  lemma IdentitiesAgree(job: Job, selection: NamesText, source: Option<Source>, available: seq<string>, hash: Hash)
    requires Injective(hash)
    requires var enqueued := Snapshot(job, selection, source);
             enqueued.Some? && Recorded(enqueued.value, available).Some?
    ensures var enqueued := Snapshot(job, selection, source).value;
            && Assessed(job, selection, source, hash) == SelectionFingerprint(enqueued, hash)
            && !Matches(Announced(enqueued), SelectionFingerprint(enqueued, hash), hash)
            && (Matches(Recorded(enqueued, available).value, SelectionFingerprint(enqueued, hash), hash) <==>
                KnownCompression(job))
  {
    hide Canonical, SameNames, ObjectsOf, SelectedNames, SelectionFingerprint;
    var c := Snapshot(job, selection, source).value;
    var run := Recorded(c, available).value;
    FingerprintMeans(Recovered(run), c, hash);
    assert SameNames(c.databaseNames, c.databaseNames) by { Reflexive(c.databaseNames); }
  }

  lemma Reflexive(names: seq<string>)
    ensures SameNames(names, names)
  {
  }

  // The columns that saving a schedule writes, from whatever the request holds.
  function Saved(scope: string, layout: string, objects: Objects, insertMode: string, compression: string,
                 encryption: string): Job {
    var backupLayout := LayoutOf(layout);
    Job(if scope == "all" then "all" else "selected", backupLayout, Written(objects),
        if insertMode == "single-row" then "single-row" else "extended", RecordedCompression(backupLayout, compression),
        if encryption == "aes-256-gcm" then "aes-256-gcm" else "none")
  }

  // What is snapshot of a saved schedule is what was asked for: every choice that exists is kept, and any other falls
  // back to the first of its kind.
  lemma SnapshotOfSaved(scope: string, layout: string, objects: Objects, insertMode: string, compression: string,
                        encryption: string, names: seq<string>, source: Option<Source>)
    requires names != []
    ensures var job := Saved(scope, layout, objects, insertMode, compression, encryption);
            var c := Snapshot(job, Names(names), source);
            && c.Some? && c.value.backupObjects == objects
            && c.value.databaseScope == (if scope == "all" then "all" else "selected")
            && SameNames(c.value.databaseNames, names)
            && (if layout in {"database", "table"} then c.value.backupLayout == layout && c.value.compression == "zip"
                else
                  && c.value.backupLayout == "single"
                  && c.value.compression == if compression in {"none", "zip"} then compression else "gzip")
            && c.value.insertMode == (if insertMode == "single-row" then insertMode else "extended")
            && c.value.backupEncryption == (if encryption == "aes-256-gcm" then encryption else "none")
  {
    hide Canonical, SameNames;
    CanonicalIsAscending(names);
  }

  // Rows without the column keep all kinds of objects, except that a dump by tables keeps triggers only; and a kind
  // that the column does not mention is treated likewise.
  lemma ObjectsByDefault(layout: string, views: Flag, routines: Flag, triggers: Flag, events: Flag)
    ensures ObjectsOf(NoJson, layout)
         == Some(if layout == "table" then Objects(false, false, true, false) else Objects(true, true, true, true))
    ensures ObjectsOf(Flags(Missing, Missing, Missing, Missing), layout) == ObjectsOf(NoJson, layout)
    ensures views.Value? && routines.Value? && triggers.Value? && events.Value? ==>
              ObjectsOf(Flags(views, routines, triggers, events), layout)
              == Some(Objects(views.truth, routines.truth, triggers.truth, events.truth))
  {
  }

  // ---------------------------------------------------------------- names written in one column

  // A name as it can be written into a list separated by commas.
  predicate Listable(name: string) {
    && name != "" && !SqlStream.IsSpace(name[0]) && !SqlStream.IsSpace(name[|name| - 1])
    && forall i | 0 <= i < |name| :: name[i] != ','
  }

  predicate Blank(text: string) { forall i | 0 <= i < |text| :: SqlStream.IsSpace(text[i]) && text[i] != ',' }

  // The names with white space around them, and commas between.
  function Listed(names: seq<string>, before: string, behind: string): string {
    if names == [] then ""
    else if |names| == 1 then before + names[0] + behind
    else before + names[0] + behind + "," + Listed(names[1..], before, behind)
  }

  lemma {:induction false} ReadsUpTo(text: string, rest: string, part: string)
    requires forall i | 0 <= i < |text| :: text[i] != ','
    ensures Split(text + rest, part) == Split(rest, part + text)
    decreases |text|
  {
    if text == "" {
      assert text + rest == rest && part + text == part;
    } else {
      assert (text + rest)[1..] == text[1..] + rest;
      ReadsUpTo(text[1..], rest, part + [text[0]]);
      assert part + [text[0]] + text[1..] == part + text;
    }
  }

  lemma {:induction false} SkipsBlanks(before: string, text: string)
    requires Blank(before) && text != "" && !SqlStream.IsSpace(text[0])
    ensures SkipSpaces(before + text) == text
    decreases |before|
  {
    if before == "" {
      assert before + text == text;
    } else {
      assert (before + text)[1..] == before[1..] + text;
      SkipsBlanks(before[1..], text);
    }
  }

  lemma {:induction false} DropsBlanks(text: string, behind: string)
    requires Blank(behind) && text != "" && !SqlStream.IsSpace(text[|text| - 1])
    ensures DropSpaces(text + behind) == text
    decreases |behind|
  {
    var n := |behind| - 1;
    if behind == "" {
      assert text + behind == text;
    } else {
      assert (text + behind)[..|text + behind| - 1] == text + behind[..n];
      DropsBlanks(text, behind[..n]);
    }
  }

  lemma Trims(before: string, name: string, behind: string)
    requires Blank(before) && Blank(behind) && Listable(name)
    ensures DropSpaces(SkipSpaces(before + name + behind)) == name
  {
    hide SqlStream.IsSpace;
    assert before + name + behind == before + (name + behind);
    SkipsBlanks(before, name + behind);
    DropsBlanks(name, behind);
  }

  // Reading such a column gives back the names, in their order.
  lemma {:induction false} SplitReadsList(names: seq<string>, before: string, behind: string)
    requires Blank(before) && Blank(behind) && forall i | 0 <= i < |names| :: Listable(names[i])
    ensures Split(Listed(names, before, behind), "") == names
    decreases |names|
  {
    hide DropSpaces, SkipSpaces, SqlStream.IsSpace;
    if names != [] {
      var item, rest := before + names[0] + behind, names[1..];
      Trims(before, names[0], behind);
      if |names| == 1 {
        ReadsUpTo(item, "", "");
        assert item + "" == item && "" + item == item;
      } else {
        SplitReadsList(rest, before, behind);
        var tail := "," + Listed(rest, before, behind);
        assert Listed(names, before, behind) == item + tail;
        ReadsUpTo(item, tail, "");
        assert "" + item == item && tail[1..] == Listed(rest, before, behind);
      }
    } else {
      Nothing();
    }
  }

  lemma Nothing()
    ensures Split("", "") == []
  {
  }

  // Every schedule the application saves is one whose own runs count, always.
  lemma SavedSchedulesAgree(
    scope: string, layout: string, objects: Objects, insertMode: string, compression: string, encryption: string,
    selection: NamesText, source: Option<Source>, available: seq<string>, hash: Hash)
    requires Injective(hash)
    requires var job := Saved(scope, layout, objects, insertMode, compression, encryption);
             var enqueued := Snapshot(job, selection, source);
             enqueued.Some? && Recorded(enqueued.value, available).Some?
    ensures var job := Saved(scope, layout, objects, insertMode, compression, encryption);
            var enqueued := Snapshot(job, selection, source).value;
            Matches(Recorded(enqueued, available).value, Assessed(job, selection, source, hash), hash)
  {
    hide Snapshot, Recorded, Matches, Assessed;
    var job := Saved(scope, layout, objects, insertMode, compression, encryption);
    IdentitiesAgree(job, selection, source, available, hash);
  }

  // A row that was written by other means, with a compression that runs do not know, loses its runs.
  lemma UnknownCompressionIsLost(available: seq<string>, hash: Hash)
    requires Injective(hash)
    ensures var all := Value(true, true);
            var job := Job("selected", "single", Flags(all, all, all, all), "extended", "brotli", "none");
            var enqueued := Snapshot(job, Names(["a"]), None);
            && enqueued.Some? && Recorded(enqueued.value, available).Some?
            && !Matches(Recorded(enqueued.value, available).value, Assessed(job, Names(["a"]), None, hash), hash)
  {
    hide Matches, SelectionFingerprint, Canonical;
    var all := Value(true, true);
    var job := Job("selected", "single", Flags(all, all, all, all), "extended", "brotli", "none");
    CanonicalIsAscending(["a"]);
    assert "a" in Canonical(["a"]);
    IdentitiesAgree(job, Names(["a"]), None, available, hash);
  }

  // When the schedule has changed since, its old runs count exactly if the change does not touch the identity.
  lemma OldRunsAfterChange(earlier: Job, oldSelection: NamesText, later: Job, newSelection: NamesText,
                           source: Option<Source>, available: seq<string>, hash: Hash)
    requires Injective(hash) && KnownCompression(earlier)
    requires var before, after := Snapshot(earlier, oldSelection, source), Snapshot(later, newSelection, source);
             before.Some? && after.Some? && Recorded(before.value, available).Some?
    ensures var before, after :=
            Snapshot(earlier, oldSelection, source).value, Snapshot(later, newSelection, source).value;
            Matches(Recorded(before, available).value, Assessed(later, newSelection, source, hash), hash) <==>
              && before.databaseScope == after.databaseScope
              && (before.databaseScope == "all" || SameNames(before.databaseNames, after.databaseNames))
              && before.backupLayout == after.backupLayout && before.backupObjects == after.backupObjects
              && before.insertMode == after.insertMode && before.compression == after.compression
              && before.backupEncryption == after.backupEncryption
  {
    hide Canonical, SameNames, ObjectsOf, SelectedNames, SelectionFingerprint, Recorded, Matches;
    var before, after := Snapshot(earlier, oldSelection, source).value, Snapshot(later, newSelection, source).value;
    FingerprintMeans(before, after, hash);
    OwnRunMatches(earlier, oldSelection, source, available, hash);
    MatchesOneFingerprint(Recorded(before, available).value, SelectionFingerprint(before, hash),
                          SelectionFingerprint(after, hash), hash);
  }

  lemma OwnRunMatches(job: Job, selection: NamesText, source: Option<Source>, available: seq<string>, hash: Hash)
    requires Injective(hash) && KnownCompression(job)
    requires var enqueued := Snapshot(job, selection, source);
             enqueued.Some? && Recorded(enqueued.value, available).Some?
    ensures var enqueued := Snapshot(job, selection, source).value;
            Matches(Recorded(enqueued, available).value, SelectionFingerprint(enqueued, hash), hash)
  {
    IdentitiesAgree(job, selection, source, available, hash);
  }

  // A row matches one fingerprint at most.
  lemma MatchesOneFingerprint(run: Columns, own: string, other: string, hash: Hash)
    requires Matches(run, own, hash)
    ensures Matches(run, other, hash) <==> own == other
  {
    hide SelectionFingerprint;
  }
}
