/** The incident state machine of protection.service.ts:75-106: assessments of the configured pairs open incidents,
    keep them open and close them. Incident ids are row positions. */
module Protection {
  import opened Wrappers

  const INVALID := "invalid_configuration"

  datatype Kind = Freshness | MissedStart | LongRunning

  datatype Signal = Fresh | Stale | Grace | OnTime | Missed | Normal | Long | Unknown | Paused

  datatype Assessment = Assessment(
    job: string, connection: string, target: string, required: bool, fingerprint: string,
    freshness: Signal, missedStart: Signal, longRunning: Signal)

  datatype Key = Key(job: string, connection: string, target: string, fingerprint: string, kind: Kind)

  datatype Incident = Incident(key: Key, open: bool, openedAt: int, updatedAt: int, resolvedAt: Option<int>)

  datatype Reason = ConfigurationRemoved | ConfigurationChanged | DestinationOptional | ConditionCleared

  // The kind of a closing event is `resolved` for ConditionCleared and `closed` otherwise.
  datatype Event = Opened(id: nat, key: Key, at: int) | Closed(id: nat, key: Key, reason: Reason, at: int)

  datatype State = State(incidents: seq<Incident>, events: seq<Event>)

  function SignalOf(a: Assessment, kind: Kind): Signal {
    match kind case Freshness => a.freshness case MissedStart => a.missedStart case LongRunning => a.longRunning
  }

  function BadOf(kind: Kind): Signal {
    match kind case Freshness => Stale case MissedStart => Missed case LongRunning => Long
  }

  predicate IsBad(a: Assessment, kind: Kind) { SignalOf(a, kind) == BadOf(kind) }

  // No statement about the condition is made.
  predicate IsWithheld(a: Assessment, kind: Kind) { SignalOf(a, kind) == Paused || SignalOf(a, kind) == Unknown }

  predicate About(a: Assessment, k: Key) { a.job == k.job && a.connection == k.connection && a.target == k.target }

  // The three primary keys behind an assessment: a pair is assessed once.
  predicate DistinctPairs(assessments: seq<Assessment>) {
    forall i, j | 0 <= i < j < |assessments| ::
      assessments[i].job != assessments[j].job || assessments[i].connection != assessments[j].connection
      || assessments[i].target != assessments[j].target
  }

  // The unique index on open incidents.
  predicate OneOpenPerKey(rows: seq<Incident>) {
    forall i, j | 0 <= i < j < |rows| && rows[i].open && rows[j].open :: rows[i].key != rows[j].key
  }

  // ---------------------------------------------------------------- the step

  datatype Check = Check(about: Assessment, kind: Kind)

  function KeyOf(c: Check): Key { Key(c.about.job, c.about.connection, c.about.target, c.about.fingerprint, c.kind) }

  function ChecksOf(a: Assessment): (checks: seq<Check>)
    ensures |checks| == 3
  {
    [Check(a, Freshness), Check(a, MissedStart), Check(a, LongRunning)]
  }

  function Checks(assessments: seq<Assessment>): seq<Check> {
    if assessments == [] then []
    else Checks(assessments[..|assessments| - 1]) + ChecksOf(assessments[|assessments| - 1])
  }

  predicate Raises(c: Check) { c.about.required && IsBad(c.about, c.kind) }

  // An incident with this key stays open because of c.
  predicate Supports(c: Check, k: Key) {
    c.about.required && KeyOf(c) == k && (IsBad(c.about, c.kind) || IsWithheld(c.about, c.kind))
  }

  predicate Supported(checks: seq<Check>, k: Key) { exists c :: c in checks && Supports(c, k) }

  // The required pair of the incident currently has no valid configuration.
  predicate Invalidated(assessments: seq<Assessment>, k: Key) {
    exists a :: a in assessments && About(a, k) && a.fingerprint == INVALID && a.required
  }

  predicate Stays(assessments: seq<Assessment>, k: Key) {
    Supported(Checks(assessments), k) || Invalidated(assessments, k)
  }

  predicate IsOpen(rows: seq<Incident>, k: Key) { exists i | 0 <= i < |rows| :: rows[i].open && rows[i].key == k }

  // The keys for which incidents are opened, in order.
  function Openings(rows: seq<Incident>, checks: seq<Check>): seq<Key> {
    if checks == [] then []
    else
      var c := checks[|checks| - 1];
      Openings(rows, checks[..|checks| - 1]) + (if Raises(c) && !IsOpen(rows, KeyOf(c)) then [KeyOf(c)] else [])
  }

  function FreshRow(k: Key, now: int): Incident { Incident(k, true, now, now, None) }

  function FreshRows(keys: seq<Key>, now: int): (rows: seq<Incident>)
    ensures |rows| == |keys| && forall i | 0 <= i < |keys| :: rows[i] == FreshRow(keys[i], now)
  {
    seq(|keys|, i requires 0 <= i < |keys| => FreshRow(keys[i], now))
  }

  function OpeningEvents(keys: seq<Key>, first: nat, now: int): (events: seq<Event>)
    ensures |events| == |keys| && forall i | 0 <= i < |keys| :: events[i] == Opened(first + i, keys[i], now)
  {
    seq(|keys|, i requires 0 <= i < |keys| => Opened(first + i, keys[i], now))
  }

  predicate Closes(row: Incident, assessments: seq<Assessment>) { row.open && !Stays(assessments, row.key) }

  function Settled(row: Incident, assessments: seq<Assessment>, now: int): Incident {
    if Closes(row, assessments) then row.(open := false, updatedAt := now, resolvedAt := Some(now)) else row
  }

  function SettledRows(rows: seq<Incident>, assessments: seq<Assessment>, now: int): (settled: seq<Incident>)
    ensures |settled| == |rows| && forall i | 0 <= i < |rows| :: settled[i] == Settled(rows[i], assessments, now)
  {
    seq(|rows|, i requires 0 <= i < |rows| => Settled(rows[i], assessments, now))
  }

  // The first assessment of the incident's pair, from position i.
  function Current(assessments: seq<Assessment>, k: Key): Option<Assessment> {
    if assessments == [] then None
    else if About(assessments[0], k) then Some(assessments[0])
    else Current(assessments[1..], k)
  }

  function ReasonFor(assessments: seq<Assessment>, k: Key): Reason {
    var current := Current(assessments, k);
    if current.None? then ConfigurationRemoved
    else if current.value.fingerprint != k.fingerprint then ConfigurationChanged
    else if !current.value.required then DestinationOptional
    else ConditionCleared
  }

  function ClosingEvents(rows: seq<Incident>, assessments: seq<Assessment>, now: int): seq<Event> {
    if rows == [] then []
    else
      var id := |rows| - 1;
      ClosingEvents(rows[..id], assessments, now)
        + (if Closes(rows[id], assessments) then [Closed(id, rows[id].key, ReasonFor(assessments, rows[id].key), now)]
           else [])
  }

  function Evaluated(s: State, assessments: seq<Assessment>, now: int): State {
    var keys := Openings(s.incidents, Checks(assessments));
    State(SettledRows(s.incidents, assessments, now) + FreshRows(keys, now),
          s.events + OpeningEvents(keys, |s.incidents|, now) + ClosingEvents(s.incidents, assessments, now))
  }

  // ---------------------------------------------------------------- the method

  class ProtectionService {
    var incidents: seq<Incident>
    var events: seq<Event>

    constructor ()
      ensures incidents == [] && events == []
    {
      incidents, events := [], [];
    }

    function Snapshot(): State
      reads this
    {
      State(incidents, events)
    }

    // open.find(item => its key is k), among the rows that existed at the beginning.
    static method FindOpen(rows: seq<Incident>, k: Key) returns (id: Option<nat>)
      ensures id.Some? ==> id.value < |rows| && rows[id.value].open && rows[id.value].key == k
      ensures id.None? <==> !IsOpen(rows, k)
    {
      for i := 0 to |rows|
        invariant forall j | 0 <= j < i :: !(rows[j].open && rows[j].key == k)
      {
        if rows[i].open && rows[i].key == k { return Some(i); }
      }
      id := None;
    }

    // Both uses of assessments.find, from which the closing of an incident is decided.
    static method FindCurrent(assessments: seq<Assessment>, k: Key) returns (current: Option<Assessment>)
      ensures current == Current(assessments, k)
    {
      var i := 0;
      while i < |assessments|
        invariant 0 <= i <= |assessments| && Current(assessments[i..], k) == Current(assessments, k)
      {
        if About(assessments[i], k) { return Some(assessments[i]); }
        i := i + 1;
      }
      current := None;
    }

    static method FindInvalid(assessments: seq<Assessment>, k: Key) returns (invalid: Option<Assessment>)
      ensures invalid.Some? ==>
                invalid.value in assessments && About(invalid.value, k) && invalid.value.fingerprint == INVALID
      ensures invalid.None? ==> forall a | a in assessments && About(a, k) :: a.fingerprint != INVALID
    {
      for i := 0 to |assessments|
        invariant forall j | 0 <= j < i && About(assessments[j], k) :: assessments[j].fingerprint != INVALID
      {
        if About(assessments[i], k) && assessments[i].fingerprint == INVALID { return Some(assessments[i]); }
      }
      invalid := None;
    }

    // One check: the body of the two nested loops.
    method Examine(open: seq<Incident>, c: Check, active: set<nat>, now: int) returns (kept: set<nat>)
      requires OneOpenPerKey(open)
      requires |open| <= |incidents|
      modifies this
      ensures ExaminedOne(open, c, old(Snapshot()), Snapshot(), active, kept, now)
    {
      kept := active;
      var existing := FindOpen(open, KeyOf(c));
      if !c.about.required { return; }
      if IsWithheld(c.about, c.kind) {
        if existing.Some? { kept := kept + {existing.value}; }
        return;
      }
      if !IsBad(c.about, c.kind) { return; }
      if existing.Some? {
        kept := kept + {existing.value};
        return;
      }
      kept := kept + {|incidents|};
      events := events + [Opened(|incidents|, KeyOf(c), now)];
      incidents := incidents + [FreshRow(KeyOf(c), now)];
    }

    // Closing one row that no check supports.
    method Settle(id: nat, assessments: seq<Assessment>, now: int)
      requires id < |incidents| && DistinctPairs(assessments)
      modifies this
      ensures incidents == if Invalidated(assessments, old(incidents[id]).key) then old(incidents)
                           else
                             var i := old(incidents[id]).(open := false, updatedAt := now, resolvedAt := Some(now));
                             old(incidents)[id := i]
      ensures events == old(events)
                + (if Invalidated(assessments, old(incidents[id]).key) then []
                   else [Closed(id, old(incidents[id]).key, ReasonFor(assessments, old(incidents[id]).key), now)])
    {
      var row := incidents[id];
      var invalid := FindInvalid(assessments, row.key);
      if invalid.Some? { OnlyOneAbout(assessments, invalid.value, row.key); }
      if invalid.Some? && invalid.value.required { return; }
      incidents := incidents[id := row.(open := false, updatedAt := now, resolvedAt := Some(now))];
      var current := FindCurrent(assessments, row.key);
      var reason := if current.None? then ConfigurationRemoved
                    else if current.value.fingerprint != row.key.fingerprint then ConfigurationChanged
                    else if !current.value.required then DestinationOptional
                    else ConditionCleared;
      events := events + [Closed(id, row.key, reason, now)];
    }

    // The nested loops: every kind of every assessment is examined.
    method OpenIncidents(assessments: seq<Assessment>, now: int) returns (active: set<nat>)
      requires OneOpenPerKey(incidents)
      modifies this
      ensures var open, keys := old(incidents), Openings(old(incidents), Checks(assessments));
              && incidents == open + FreshRows(keys, now)
              && events == old(events) + OpeningEvents(keys, |open|, now)
              && forall i | 0 <= i < |open| && open[i].open ::
                 i in active <==> Supported(Checks(assessments), open[i].key)
    {
      hide OneOpenPerKey, Examined, ExaminedOne, Checks, ChecksOf;
      var open := incidents;
      ghost var log := events;
      active := {};
      NoChecks(open, log, now);
      assert assessments[..0] == [];
      for i := 0 to |assessments|
        invariant |open| <= |incidents|
        invariant Examined(Checks(assessments[..i]), open, log, Snapshot(), active, now)
      {
        var checks := ChecksOf(assessments[i]);
        assert Checks(assessments[..i]) + checks[..0] == Checks(assessments[..i]);
        for j := 0 to 3
          invariant |open| <= |incidents|
          invariant Examined(Checks(assessments[..i]) + checks[..j], open, log, Snapshot(), active, now)
        {
          ghost var seen, before, was := Checks(assessments[..i]) + checks[..j], Snapshot(), active;
          active := Examine(open, checks[j], active, now);
          NextExamined(seen, checks[j], open, log, before, Snapshot(), was, active, now);
          assert Checks(assessments[..i]) + checks[..j + 1] == seen + [checks[j]];
        }
        OneMoreAssessment(assessments, i);
        assert checks[..3] == checks;
      }
      assert assessments[..|assessments|] == assessments;
      AllExamined(Checks(assessments), open, log, Snapshot(), active, now);
    }

    // The loop over the incidents that were open at the beginning.
    method CloseIncidents(open: seq<Incident>, active: set<nat>, assessments: seq<Assessment>, now: int)
      requires DistinctPairs(assessments) && open <= incidents
      requires forall i | 0 <= i < |open| && open[i].open ::
                 i in active <==> Supported(Checks(assessments), open[i].key)
      modifies this
      ensures incidents == SettledRows(open, assessments, now) + old(incidents)[|open|..]
      ensures events == old(events) + ClosingEvents(open, assessments, now)
    {
      hide DistinctPairs, Invalidated, Supported, ReasonFor, ClosingEvents, Checks, SettledRows;
      ghost var log, added := events, incidents[|open|..];
      NoRows(assessments, now);
      assert open[..0] == [];
      for id := 0 to |open|
        invariant incidents == SettledRows(open[..id], assessments, now) + open[id..] + added
        invariant events == log + ClosingEvents(open[..id], assessments, now)
      {
        Replacing(SettledRows(open[..id], assessments, now), open, id, added, Settled(open[id], assessments, now));
        OneMoreRow(open, id, assessments, now);
        if open[id].open && id !in active { Settle(id, assessments, now); }
      }
      assert open[..|open|] == open;
    }

    // evaluateIncidents, with the result of assess.
    method EvaluateIncidents(assessments: seq<Assessment>, now: int)
      requires DistinctPairs(assessments) && OneOpenPerKey(incidents)
      modifies this
      ensures Snapshot() == Evaluated(old(Snapshot()), assessments, now)
    {
      hide DistinctPairs, OneOpenPerKey, Supported, Openings, Checks, ClosingEvents;
      var open := incidents;
      var active := OpenIncidents(assessments, now);
      CloseIncidents(open, active, assessments, now);
    }
  }

  // What one check does to the tables and to the set of supported incidents.
  predicate ExaminedOne(open: seq<Incident>, c: Check, before: State, after: State, active: set<nat>, kept: set<nat>,
                        now: int) {
    && after.incidents == before.incidents
       + (if Raises(c) && !IsOpen(open, KeyOf(c)) then [FreshRow(KeyOf(c), now)] else [])
    && after.events == before.events
         + (if Raises(c) && !IsOpen(open, KeyOf(c)) then [Opened(|before.incidents|, KeyOf(c), now)] else [])
    && forall i | 0 <= i < |open| && open[i].open :: i in kept <==> i in active || Supports(c, open[i].key)
  }

  // What a list of checks does.
  predicate Examined(seen: seq<Check>, open: seq<Incident>, log: seq<Event>, s: State, active: set<nat>, now: int) {
    && s.incidents == open + FreshRows(Openings(open, seen), now)
    && s.events == log + OpeningEvents(Openings(open, seen), |open|, now)
    && forall i | 0 <= i < |open| && open[i].open :: i in active <==> Supported(seen, open[i].key)
  }

  lemma NoChecks(open: seq<Incident>, log: seq<Event>, now: int)
    ensures Checks([]) == [] && Examined([], open, log, State(open, log), {}, now)
  {
  }

  lemma NextExamined(seen: seq<Check>, c: Check, open: seq<Incident>, log: seq<Event>, before: State, after: State,
                     active: set<nat>, kept: set<nat>, now: int)
    requires Examined(seen, open, log, before, active, now)
    requires ExaminedOne(open, c, before, after, active, kept, now)
    ensures Examined(seen + [c], open, log, after, kept, now) && |open| <= |after.incidents|
  {
    hide Openings, FreshRows, OpeningEvents, Supported, Supports, Raises, IsOpen;
    OneMoreCheck(open, seen, c, now);
  }

  lemma AllExamined(seen: seq<Check>, open: seq<Incident>, log: seq<Event>, s: State, active: set<nat>, now: int)
    requires Examined(seen, open, log, s, active, now)
    ensures s.incidents == open + FreshRows(Openings(open, seen), now)
    ensures s.events == log + OpeningEvents(Openings(open, seen), |open|, now)
    ensures forall i | 0 <= i < |open| && open[i].open :: i in active <==> Supported(seen, open[i].key)
  {
  }

  lemma Replacing(done: seq<Incident>, open: seq<Incident>, id: nat, added: seq<Incident>, row: Incident)
    requires id < |open| && |done| == id
    ensures var rows := done + open[id..] + added;
            rows[id] == open[id] && rows[id := row] == done + [row] + open[id + 1..] + added
  {
  }

  lemma OneMoreAssessment(assessments: seq<Assessment>, i: nat)
    requires i < |assessments|
    ensures Checks(assessments[..i + 1]) == Checks(assessments[..i]) + ChecksOf(assessments[i])
  {
    assert assessments[..i + 1][..i] == assessments[..i];
  }

  lemma NoRows(assessments: seq<Assessment>, now: int)
    ensures ClosingEvents([], assessments, now) == []
  {
  }

  lemma OneMoreRow(rows: seq<Incident>, id: nat, assessments: seq<Assessment>, now: int)
    requires id < |rows|
    ensures SettledRows(rows[..id + 1], assessments, now)
            == SettledRows(rows[..id], assessments, now) + [Settled(rows[id], assessments, now)]
    ensures ClosingEvents(rows[..id + 1], assessments, now)
              == ClosingEvents(rows[..id], assessments, now)
                   + (if Closes(rows[id], assessments) then
                      [Closed(id, rows[id].key, ReasonFor(assessments, rows[id].key), now)] else [])
  {
    hide Closes, ReasonFor;
    assert rows[..id + 1][..id] == rows[..id];
  }

  lemma OnlyOneAbout(assessments: seq<Assessment>, a: Assessment, k: Key)
    requires DistinctPairs(assessments) && a in assessments && About(a, k)
    ensures forall b | b in assessments && About(b, k) :: b == a
  {
  }

  lemma OneMoreCheck(open: seq<Incident>, seen: seq<Check>, c: Check, now: int)
    ensures var opening := if Raises(c) && !IsOpen(open, KeyOf(c)) then [KeyOf(c)] else [];
            && Openings(open, seen + [c]) == Openings(open, seen) + opening
            && FreshRows(Openings(open, seen + [c]), now)
               == FreshRows(Openings(open, seen), now) + FreshRows(opening, now)
            && OpeningEvents(Openings(open, seen + [c]), |open|, now)
                 == OpeningEvents(Openings(open, seen), |open|, now)
                     + OpeningEvents(opening, |open + FreshRows(Openings(open, seen), now)|, now)
            && FreshRows(opening, now) == (if opening == [] then [] else [FreshRow(KeyOf(c), now)])
            && OpeningEvents(opening, |open + FreshRows(Openings(open, seen), now)|, now)
                 == (if opening == [] then []
                     else [Opened(|open + FreshRows(Openings(open, seen), now)|, KeyOf(c), now)])
    ensures forall k :: Supported(seen + [c], k) <==> Supported(seen, k) || Supports(c, k)
  {
    hide IsOpen, Raises, Supports;
    assert (seen + [c])[..|seen|] == seen;
    forall k ensures Supported(seen + [c], k) <==> Supported(seen, k) || Supports(c, k) {
      assert c in seen + [c];
    }
  }

  // ---------------------------------------------------------------- the next open set

  lemma {:induction false} ChecksAreAll(assessments: seq<Assessment>, c: Check)
    ensures c in Checks(assessments) <==> c.about in assessments
    decreases |assessments|
  {
    if assessments != [] {
      var front, last := assessments[..|assessments| - 1], assessments[|assessments| - 1];
      ChecksAreAll(front, c);
      assert assessments == front + [last];
      assert c in ChecksOf(last) <==> c.about == last by {
        if c.about == last {
          var k := match c.kind case Freshness => 0 case MissedStart => 1 case LongRunning => 2;
          assert c == ChecksOf(last)[k];
        }
      }
    }
  }

  lemma {:induction false} OpeningsAre(rows: seq<Incident>, checks: seq<Check>, k: Key)
    ensures k in Openings(rows, checks) <==> !IsOpen(rows, k) && exists c :: c in checks && Raises(c) && KeyOf(c) == k
    decreases |checks|
  {
    hide IsOpen, Raises;
    if checks != [] {
      var front, last := checks[..|checks| - 1], checks[|checks| - 1];
      OpeningsAre(rows, front, k);
      assert checks == front + [last];
    }
  }

  // A required assessment of exactly this configuration says that the condition holds.
  predicate RequiredAndBad(assessments: seq<Assessment>, k: Key) {
    exists a :: a in assessments && About(a, k) && a.required && a.fingerprint == k.fingerprint && IsBad(a, k.kind)
  }

  predicate RequiredAndWithheld(assessments: seq<Assessment>, k: Key) {
    exists a :: a in assessments && About(a, k) && a.required && a.fingerprint == k.fingerprint && IsWithheld(a, k.kind)
  }

  lemma SupportedMeans(assessments: seq<Assessment>, k: Key)
    ensures Supported(Checks(assessments), k) <==> RequiredAndBad(assessments, k) || RequiredAndWithheld(assessments, k)
    ensures (exists c :: c in Checks(assessments) && Raises(c) && KeyOf(c) == k) <==> RequiredAndBad(assessments, k)
  {
    hide Checks;
    forall c ensures c in Checks(assessments) <==> c.about in assessments { ChecksAreAll(assessments, c); }
    if RequiredAndBad(assessments, k) {
      var a :| a in assessments && About(a, k) && a.required && a.fingerprint == k.fingerprint && IsBad(a, k.kind);
      var c := Check(a, k.kind);
      assert c in Checks(assessments) && Raises(c) && KeyOf(c) == k && Supports(c, k);
    }
    if RequiredAndWithheld(assessments, k) {
      var a :| a in assessments && About(a, k) && a.required && a.fingerprint == k.fingerprint && IsWithheld(a, k.kind);
      var c := Check(a, k.kind);
      assert c in Checks(assessments) && Supports(c, k);
    }
  }

  // Exactly which incidents are open after an evaluation.
  lemma NextOpenSet(s: State, assessments: seq<Assessment>, now: int, k: Key)
    ensures IsOpen(Evaluated(s, assessments, now).incidents, k) <==>
              || RequiredAndBad(assessments, k)
              || (IsOpen(s.incidents, k) && (RequiredAndWithheld(assessments, k) || Invalidated(assessments, k)))
  {
    hide Checks, Openings, Supported, Invalidated, RequiredAndBad, RequiredAndWithheld;
    var rows, keys := s.incidents, Openings(s.incidents, Checks(assessments));
    var settled, added := SettledRows(rows, assessments, now), FreshRows(keys, now);
    SupportedMeans(assessments, k);
    OpeningsAre(rows, Checks(assessments), k);
    JoinedOpen(settled, added, k);
    assert IsOpen(settled, k) <==> IsOpen(rows, k) && Stays(assessments, k) by {
      if IsOpen(rows, k) && Stays(assessments, k) {
        var i: int :| 0 <= i < |rows| && rows[i].open && rows[i].key == k;
        assert settled[i] == rows[i];
      }
    }
    assert IsOpen(added, k) <==> k in keys by {
      if k in keys {
        var i: int :| 0 <= i < |keys| && keys[i] == k;
        assert added[i].open && added[i].key == k;
      }
    }
  }

  // The assessed condition of this kind is bad.
  predicate Alarms(a: Assessment, kind: Kind) {
    || (kind == Freshness && a.freshness == Stale)
    || (kind == MissedStart && a.missedStart == Missed)
    || (kind == LongRunning && a.longRunning == Long)
  }

  // Nothing is known about it, or the schedule is paused.
  predicate Silent(a: Assessment, kind: Kind) {
    || (kind == Freshness && a.freshness in {Paused, Unknown})
    || (kind == MissedStart && a.missedStart in {Paused, Unknown})
    || (kind == LongRunning && a.longRunning in {Paused, Unknown})
  }

  // An incident is open afterwards exactly when the required pair is in alarm under the same configuration; or when
  // it was open and nothing is known of that pair now, or its configuration is invalid.
  lemma OpenWhen(s: State, assessments: seq<Assessment>, now: int, k: Key)
    ensures (exists i :: 0 <= i < |Evaluated(s, assessments, now).incidents|
                && Evaluated(s, assessments, now).incidents[i].open
                && Evaluated(s, assessments, now).incidents[i].key == k)
       <==> || (exists a | a in assessments :: a.required && Alarms(a, k.kind)
                  && Key(a.job, a.connection, a.target, a.fingerprint, k.kind) == k)
            || ((exists i :: 0 <= i < |s.incidents| && s.incidents[i].open && s.incidents[i].key == k)
                && exists a | a in assessments ::
                     && a.required && a.job == k.job && a.connection == k.connection && a.target == k.target
                     && (a.fingerprint == "invalid_configuration"
                         || (a.fingerprint == k.fingerprint && Silent(a, k.kind))))
  {
    hide Evaluated;
    NextOpenSet(s, assessments, now, k);
  }

  lemma JoinedOpen(a: seq<Incident>, b: seq<Incident>, k: Key)
    ensures IsOpen(a + b, k) <==> IsOpen(a, k) || IsOpen(b, k)
  {
    var both := a + b;
    if IsOpen(a, k) {
      var i: int :| 0 <= i < |a| && a[i].open && a[i].key == k;
      assert both[i] == a[i];
    }
    if IsOpen(b, k) {
      var i: int :| 0 <= i < |b| && b[i].open && b[i].key == k;
      assert both[|a| + i] == b[i];
    }
  }

  // ---------------------------------------------------------------- at most one open incident per key

  predicate NoRepeats(keys: seq<Key>) { forall i, j | 0 <= i < j < |keys| :: keys[i] != keys[j] }

  lemma {:induction false} KeysAreDistinct(assessments: seq<Assessment>, c: Check, k: nat)
    requires DistinctPairs(assessments) && k <= |assessments|
    ensures forall i | k <= i < |assessments| && c in Checks(assessments[..k]) :: !About(assessments[i], KeyOf(c))
  {
    ChecksAreAll(assessments[..k], c);
  }

  lemma OtherKey(assessments: seq<Assessment>, d: Check, c: Check, n: nat)
    requires DistinctPairs(assessments) && n < |assessments| && d in Checks(assessments[..n])
             && c.about == assessments[n]
    ensures KeyOf(d) != KeyOf(c)
  {
    hide DistinctPairs, Checks;
    KeysAreDistinct(assessments, d, n);
  }

  lemma SameAbout(a: Assessment, d: Check, c: Check, j: nat)
    requires j < 3 && d in ChecksOf(a)[..j] && c == ChecksOf(a)[j]
    ensures KeyOf(d) != KeyOf(c)
  {
  }

  lemma {:induction false} OpeningsDontRepeat(rows: seq<Incident>, assessments: seq<Assessment>)
    requires DistinctPairs(assessments)
    ensures NoRepeats(Openings(rows, Checks(assessments)))
    decreases |assessments|
  {
    hide IsOpen, Raises;
    if assessments != [] {
      var n := |assessments| - 1;
      var front := assessments[..n];
      OpeningsDontRepeat(rows, front);
      var checks, last := Checks(front), ChecksOf(assessments[n]);
      assert Checks(assessments) == checks + last[..3];
      NewKeys(rows, assessments, 3);
    }
  }

  // The keys of the checks of the last assessment are new.
  lemma {:induction false} NewKeys(rows: seq<Incident>, assessments: seq<Assessment>, j: nat)
    requires DistinctPairs(assessments) && assessments != [] && j <= 3
    requires NoRepeats(Openings(rows, Checks(assessments[..|assessments| - 1])))
    ensures var n := |assessments| - 1;
            NoRepeats(Openings(rows, Checks(assessments[..n]) + ChecksOf(assessments[n])[..j]))
    decreases j
  {
    hide IsOpen, Raises, Checks, DistinctPairs, KeyOf, About, Openings, NoRepeats;
    var n := |assessments| - 1;
    var checks, last := Checks(assessments[..n]), ChecksOf(assessments[n]);
    if j == 0 {
      assert checks + last[..0] == checks;
    } else {
      NewKeys(rows, assessments, j - 1);
      var before, c := checks + last[..j - 1], last[j - 1];
      assert checks + last[..j] == before + [c];
      forall d | d in before ensures KeyOf(d) != KeyOf(c) {
        if d in checks { OtherKey(assessments, d, c, n); } else { SameAbout(assessments[n], d, c, j - 1); }
      }
      OneMoreOpening(rows, before, c);
    }
  }

  lemma OneMoreOpening(rows: seq<Incident>, checks: seq<Check>, c: Check)
    requires NoRepeats(Openings(rows, checks)) && forall d | d in checks :: KeyOf(d) != KeyOf(c)
    ensures NoRepeats(Openings(rows, checks + [c]))
  {
    hide IsOpen, Raises, KeyOf;
    assert (checks + [c])[..|checks|] == checks;
    OpeningsAre(rows, checks, KeyOf(c));
  }

  lemma StaysUnique(s: State, assessments: seq<Assessment>, now: int)
    requires DistinctPairs(assessments) && OneOpenPerKey(s.incidents)
    ensures OneOpenPerKey(Evaluated(s, assessments, now).incidents)
  {
    hide Openings, Checks, Stays, DistinctPairs;
    var rows, keys := s.incidents, Openings(s.incidents, Checks(assessments));
    OpeningsDontRepeat(rows, assessments);
    var after := Evaluated(s, assessments, now).incidents;
    forall i, j | 0 <= i < j < |after| && after[i].open && after[j].open ensures after[i].key != after[j].key {
      if j >= |rows| {
        var k := keys[j - |rows|];
        OpeningsAre(rows, Checks(assessments), k);
        assert k in keys;
        if i >= |rows| { assert keys[i - |rows|] != k; }
      }
    }
  }

  // ---------------------------------------------------------------- runs of evaluations

  datatype Evaluation = Evaluation(assessments: seq<Assessment>, now: int)

  predicate Possible(run: seq<Evaluation>) { forall i | 0 <= i < |run| :: DistinctPairs(run[i].assessments) }

  function RunOf(s: State, run: seq<Evaluation>): State
    decreases |run|
  {
    if run == [] then s else RunOf(Evaluated(s, run[0].assessments, run[0].now), run[1..])
  }

  function OpenCount(rows: seq<Incident>): nat {
    if rows == [] then 0 else OpenCount(rows[..|rows| - 1]) + (if rows[|rows| - 1].open then 1 else 0)
  }

  function Balance(events: seq<Event>): int {
    if events == [] then 0 else Balance(events[..|events| - 1]) + (if events[|events| - 1].Opened? then 1 else -1)
  }

  lemma {:induction false} OpenCountJoins(a: seq<Incident>, b: seq<Incident>)
    ensures OpenCount(a + b) == OpenCount(a) + OpenCount(b)
    decreases |b|
  {
    if b == [] {
      assert a + b == a;
    } else {
      OpenCountJoins(a, b[..|b| - 1]);
      assert (a + b)[..|a + b| - 1] == a + b[..|b| - 1];
    }
  }

  lemma {:induction false} BalanceJoins(a: seq<Event>, b: seq<Event>)
    ensures Balance(a + b) == Balance(a) + Balance(b)
    decreases |b|
  {
    if b == [] {
      assert a + b == a;
    } else {
      BalanceJoins(a, b[..|b| - 1]);
      assert (a + b)[..|a + b| - 1] == a + b[..|b| - 1];
    }
  }

  lemma {:induction false} OpeningsBalance(keys: seq<Key>, first: nat, now: int)
    ensures OpenCount(FreshRows(keys, now)) == |keys| && Balance(OpeningEvents(keys, first, now)) == |keys|
    decreases |keys|
  {
    if keys != [] {
      var front := keys[..|keys| - 1];
      OpeningsBalance(front, first, now);
      assert FreshRows(keys, now)[..|front|] == FreshRows(front, now);
      assert OpeningEvents(keys, first, now)[..|front|] == OpeningEvents(front, first, now);
    }
  }

  lemma {:induction false} ClosingsBalance(rows: seq<Incident>, assessments: seq<Assessment>, now: int)
    ensures OpenCount(SettledRows(rows, assessments, now))
            == OpenCount(rows) + Balance(ClosingEvents(rows, assessments, now))
    decreases |rows|
  {
    hide Stays;
    if rows != [] {
      var id := |rows| - 1;
      ClosingsBalance(rows[..id], assessments, now);
      assert SettledRows(rows, assessments, now)[..id] == SettledRows(rows[..id], assessments, now);
      if Closes(rows[id], assessments) {
        BalanceJoins(ClosingEvents(rows[..id], assessments, now),
                     [Closed(id, rows[id].key, ReasonFor(assessments, rows[id].key), now)]);
      } else {
        assert ClosingEvents(rows, assessments, now) == ClosingEvents(rows[..id], assessments, now);
      }
    }
  }

  // Conservation: one evaluation changes the number of open incidents by what its events say.
  lemma EventsBalance(s: State, assessments: seq<Assessment>, now: int)
    ensures var after := Evaluated(s, assessments, now);
            OpenCount(after.incidents) - OpenCount(s.incidents) == Balance(after.events) - Balance(s.events)
  {
    hide OpenCount, Balance, ClosingEvents, Openings;
    var keys := Openings(s.incidents, Checks(assessments));
    var opening, closing := OpeningEvents(keys, |s.incidents|, now), ClosingEvents(s.incidents, assessments, now);
    OpenCountJoins(SettledRows(s.incidents, assessments, now), FreshRows(keys, now));
    OpeningsBalance(keys, |s.incidents|, now);
    ClosingsBalance(s.incidents, assessments, now);
    BalanceJoins(s.events, opening);
    BalanceJoins(s.events + opening, closing);
  }

  // A row keeps its key, and once it is closed nothing about it changes any more.
  predicate Continues(before: seq<Incident>, after: seq<Incident>) {
    && |before| <= |after|
    && forall i | 0 <= i < |before| ::
         && after[i].key == before[i].key && after[i].openedAt == before[i].openedAt
         && (!before[i].open ==> after[i] == before[i])
  }

  // Over any run from the empty tables: opened events minus closing events are the open incidents, of which there
  // is at most one for each key, and history is never rewritten.
  lemma {:induction false} RunsKeep(s: State, run: seq<Evaluation>)
    requires Possible(run) && OneOpenPerKey(s.incidents) && OpenCount(s.incidents) == Balance(s.events)
    ensures var end := RunOf(s, run);
            && OneOpenPerKey(end.incidents) && OpenCount(end.incidents) == Balance(end.events)
            && Continues(s.incidents, end.incidents) && s.events <= end.events
    decreases |run|
  {
    hide Openings, Checks, Stays, OneOpenPerKey, OpenCount, Balance, ClosingEvents;
    if run != [] {
      var next := Evaluated(s, run[0].assessments, run[0].now);
      assert DistinctPairs(run[0].assessments);
      StaysUnique(s, run[0].assessments, run[0].now);
      EventsBalance(s, run[0].assessments, run[0].now);
      forall i | 0 <= i < |run[1..]| ensures DistinctPairs(run[1..][i].assessments) {
        assert run[1..][i] == run[i + 1];
      }
      RunsKeep(next, run[1..]);
    }
  }

  // ---------------------------------------------------------------- repetition and reasons

  lemma {:induction false} NothingOpens(rows: seq<Incident>, checks: seq<Check>)
    requires forall c | c in checks && Raises(c) :: IsOpen(rows, KeyOf(c))
    ensures Openings(rows, checks) == []
    decreases |checks|
  {
    hide IsOpen, Raises;
    if checks != [] {
      var front := checks[..|checks| - 1];
      NothingOpens(rows, front);
      assert checks[|checks| - 1] in checks;
    }
  }

  lemma {:induction false} NothingCloses(rows: seq<Incident>, assessments: seq<Assessment>, now: int)
    requires forall i | 0 <= i < |rows| && rows[i].open :: Stays(assessments, rows[i].key)
    ensures ClosingEvents(rows, assessments, now) == [] && SettledRows(rows, assessments, now) == rows
    decreases |rows|
  {
    hide Stays;
    if rows != [] { NothingCloses(rows[..|rows| - 1], assessments, now); }
  }

  // Evaluating the same assessments again, at any time, changes nothing and reports nothing.
  lemma SecondEvaluationIsSilent(s: State, assessments: seq<Assessment>, now: int, later: int)
    ensures var after := Evaluated(s, assessments, now); Evaluated(after, assessments, later) == after
  {
    hide Openings, Checks, Supported, Invalidated, RequiredAndBad, RequiredAndWithheld;
    var after := Evaluated(s, assessments, now);
    var rows := after.incidents;
    forall c | c in Checks(assessments) && Raises(c) ensures IsOpen(rows, KeyOf(c)) {
      SupportedMeans(assessments, KeyOf(c));
      NextOpenSet(s, assessments, now, KeyOf(c));
    }
    NothingOpens(rows, Checks(assessments));
    forall i | 0 <= i < |rows| && rows[i].open ensures Stays(assessments, rows[i].key) {
      assert IsOpen(rows, rows[i].key);
      NextOpenSet(s, assessments, now, rows[i].key);
      SupportedMeans(assessments, rows[i].key);
    }
    NothingCloses(rows, assessments, later);
  }

  lemma {:induction false} CurrentIsTheOne(assessments: seq<Assessment>, k: Key)
    ensures var current := Current(assessments, k);
            && (current.None? <==> forall a | a in assessments :: !About(a, k))
            && (current.Some? ==> current.value in assessments && About(current.value, k))
    decreases assessments
  {
    if assessments != [] {
      CurrentIsTheOne(assessments[1..], k);
      assert assessments == [assessments[0]] + assessments[1..];
    }
  }

  // An incident is reported as resolved exactly when the same configuration is still required and its condition is
  // seen not to hold; in every other case that closes it the configuration itself has changed.
  lemma ReasonsAreTrue(row: Incident, assessments: seq<Assessment>)
    requires DistinctPairs(assessments) && Closes(row, assessments)
    ensures var k := row.key;
            && (ReasonFor(assessments, k) == ConditionCleared
                <==> exists a :: a in assessments && About(a, k) && a.required && a.fingerprint == k.fingerprint
                                 && !IsBad(a, k.kind) && !IsWithheld(a, k.kind))
            && (ReasonFor(assessments, k) == ConfigurationRemoved <==> forall a | a in assessments :: !About(a, k))
            && (ReasonFor(assessments, k) == DestinationOptional
                <==> exists a :: a in assessments && About(a, k) && !a.required && a.fingerprint == k.fingerprint)
  {
    hide Checks, Supported, Invalidated, DistinctPairs, IsBad, IsWithheld, RequiredAndBad, RequiredAndWithheld;
    var k := row.key;
    CurrentIsTheOne(assessments, k);
    SupportedMeans(assessments, k);
    var current := Current(assessments, k);
    if current.Some? {
      OnlyOneAbout(assessments, current.value, k);
      if current.value.required && current.value.fingerprint == k.fingerprint {
        NotSupported(assessments, current.value, k);
      }
    }
  }

  lemma NotSupported(assessments: seq<Assessment>, a: Assessment, k: Key)
    requires a in assessments && About(a, k) && a.required && a.fingerprint == k.fingerprint
    ensures IsBad(a, k.kind) ==> RequiredAndBad(assessments, k)
    ensures IsWithheld(a, k.kind) ==> RequiredAndWithheld(assessments, k)
  {
  }
}
