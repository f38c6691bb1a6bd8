/** The database renamer of pitr.utils.ts:111-143: names are searched in a masked copy of the text, and what is found
    is replaced in the original from right to left. */
module SqlRename {
  import opened Wrappers
  import opened SqlParts
  import opened SqlNames
  import Sequences

  // ---------------------------------------------------------------- edits

  datatype Edit = Edit(start: nat, end: nat, replacement: string)

  // text.lastIndexOf(part), looking at `from` first.
  function LastIndexOf(text: string, part: string, from: int): (i: int)
    ensures -1 <= i && (i >= 0 ==> i <= from && OccursAt(text, part, i))
    ensures forall j: nat | i < j <= from :: !OccursAt(text, part, j)
    decreases from
  {
    if from < 0 then -1 else if OccursAt(text, part, from) then from else LastIndexOf(text, part, from - 1)
  }

  function EditOf(m: Match, replacement: string): Option<Edit>
  {
    if m.captured == "" then None
    else
      var at := LastIndexOf(m.text, m.captured, |m.text|);
      if at < 0 then None else Some(Edit(m.index + at, m.index + at + |m.captured|, replacement))
  }

  // addEdits marks exactly the captured text, at the end of the match.
  lemma EditCoversCapture(m: Match, masked: string, replacement: string)
    requires MatchIn(m, masked)
    ensures EditOf(m, replacement).None? <==> m.captured == ""
    ensures m.captured != "" ==>
              var e := EditOf(m, replacement).value;
              && e.end == m.index + |m.text| <= |masked| && e.start < e.end
              && masked[e.start..e.end] == m.captured && e.replacement == replacement
  {
    if m.captured != "" {
      var from := |m.text| - |m.captured|;
      assert OccursAt(m.text, m.captured, from);
      var e := EditOf(m, replacement).value;
      assert masked[e.start..e.end] == masked[m.index..m.index + |m.text|][from..];
    }
  }

  predicate ValidEdit(e: Edit, length: nat) { e.start < e.end <= length }

  predicate ValidEdits(edits: seq<Edit>, length: nat) {
    forall i | 0 <= i < |edits| :: ValidEdit(edits[i], length)
  }

  // edits.sort((left, right) => right.start - left.start), which keeps the order of edits with equal starts.
  predicate Descending(edits: seq<Edit>) {
    forall i, j | 0 <= i < j < |edits| :: edits[i].start >= edits[j].start
  }

  predicate Behind(a: Edit, b: Edit) { a.start > b.start }

  function Sorted(edits: seq<Edit>): seq<Edit> { Sequences.Sorted(Behind, edits) }

  lemma SortedIsPermutation(edits: seq<Edit>)
    ensures Descending(Sorted(edits)) && multiset(Sorted(edits)) == multiset(edits)
  {
    Sequences.SortedOrders(Behind, edits);
    var sorted := Sorted(edits);
    forall i, j | 0 <= i < j < |sorted| ensures sorted[i].start >= sorted[j].start {
      assert !Behind(sorted[j], sorted[i]);
    }
  }

  // Edits that start at the same place stay in the order in which they were collected.
  function StartingAt(edits: seq<Edit>, start: nat): seq<Edit> {
    if edits == [] then []
    else if edits[0].start == start then [edits[0]] + StartingAt(edits[1..], start)
    else StartingAt(edits[1..], start)
  }

  lemma StartingAtCons(e: Edit, rest: seq<Edit>, start: nat)
    ensures StartingAt([e] + rest, start)
              == if e.start == start then [e] + StartingAt(rest, start) else StartingAt(rest, start)
  {
    assert ([e] + rest)[1..] == rest;
  }

  lemma {:induction false} InsertIsFirst(e: Edit, edits: seq<Edit>, start: nat)
    ensures StartingAt(Sequences.Insert(Behind, e, edits), start) == StartingAt([e] + edits, start)
    decreases edits
  {
    hide StartingAt;
    if edits != [] && edits[0].start > e.start {
      var first, rest := edits[0], edits[1..];
      assert edits == [first] + rest;
      InsertIsFirst(e, rest, start);
      StartingAtCons(first, Sequences.Insert(Behind, e, rest), start);
      StartingAtCons(e, rest, start);
      StartingAtCons(e, edits, start);
      StartingAtCons(first, rest, start);
    }
  }

  lemma {:induction false} EqualStartsKeepOrder(edits: seq<Edit>, start: nat)
    ensures StartingAt(Sorted(edits), start) == StartingAt(edits, start)
    decreases edits
  {
    if edits != [] {
      EqualStartsKeepOrder(edits[1..], start);
      InsertIsFirst(edits[0], Sorted(edits[1..]), start);
      StartingAtCons(edits[0], Sorted(edits[1..]), start);
    }
  }

  // ---------------------------------------------------------------- one simultaneous substitution

  // The edits are disjoint and in order, from a position on.
  predicate Ordered(edits: seq<Edit>, from: nat, length: nat) {
    if edits == [] then from <= length
    else from <= edits[0].start < edits[0].end <= length && Ordered(edits[1..], edits[0].end, length)
  }

  // From left to right, reading only the original text.
  function Substitute(contents: string, from: nat, edits: seq<Edit>): string
    requires Ordered(edits, from, |contents|)
    decreases edits
  {
    if edits == [] then contents[from..]
    else contents[from..edits[0].start] + edits[0].replacement + Substitute(contents, edits[0].end, edits[1..])
  }

  // The edits that are carried out, in text order, when the descending list is gone through with everything
  // from `last` on already settled.
  function Chosen(edits: seq<Edit>, last: nat): seq<Edit> {
    if edits == [] then []
    else if edits[0].end > last then Chosen(edits[1..], last)
    else Chosen(edits[1..], edits[0].start) + [edits[0]]
  }

  predicate Overlap(a: Edit, b: Edit) { a.start < b.end && b.start < a.end }

  lemma {:induction false} OrderedSnoc(edits: seq<Edit>, e: Edit, from: nat, length: nat)
    requires Ordered(edits, from, e.start) && e.start < e.end <= length
    ensures Ordered(edits + [e], from, length)
    decreases edits
  {
    if edits != [] {
      OrderedSnoc(edits[1..], e, edits[0].end, length);
      assert (edits + [e])[1..] == edits[1..] + [e];
    }
  }

  lemma {:induction false} OrderedFurther(edits: seq<Edit>, from: nat, length: nat, more: nat)
    requires Ordered(edits, from, length) && length <= more
    ensures Ordered(edits, from, more)
    decreases edits
  {
    if edits != [] { OrderedFurther(edits[1..], edits[0].end, length, more); }
  }

  lemma {:induction false} ChosenAreOrdered(edits: seq<Edit>, last: nat)
    requires ValidEdits(edits, last) || forall i | 0 <= i < |edits| :: edits[i].start < edits[i].end
    ensures Ordered(Chosen(edits, last), 0, last)
    decreases edits
  {
    if edits != [] {
      var e := edits[0];
      assert e.start < e.end;
      var rest := edits[1..];
      forall i | 0 <= i < |rest| ensures rest[i].start < rest[i].end { assert rest[i] == edits[i + 1]; }
      if e.end > last {
        ChosenAreOrdered(rest, last);
      } else {
        ChosenAreOrdered(rest, e.start);
        OrderedSnoc(Chosen(rest, e.start), e, 0, last);
      }
    }
  }

  // Only edits of the list are carried out, and one that is not overlaps one that is.
  lemma {:induction false} ChosenAreMaximal(edits: seq<Edit>, last: nat, e: Edit)
    requires Descending(edits) && (forall i | 0 <= i < |edits| :: edits[i].start < edits[i].end)
    ensures e in Chosen(edits, last) ==> e in edits
    ensures e in edits && e !in Chosen(edits, last) ==>
              e.end > last || exists c :: c in Chosen(edits, last) && Overlap(c, e)
    decreases edits
  {
    if edits != [] {
      var first, rest := edits[0], edits[1..];
      forall i | 0 <= i < |rest| ensures rest[i].start < rest[i].end { assert rest[i] == edits[i + 1]; }
      assert Descending(rest) by {
        forall i, j | 0 <= i < j < |rest| ensures rest[i].start >= rest[j].start {
          assert edits[i + 1].start >= edits[j + 1].start;
        }
      }
      if first.end > last {
        ChosenAreMaximal(rest, last, e);
      } else {
        ChosenAreMaximal(rest, first.start, e);
        assert first in Chosen(edits, last);
        if e in edits && e != first {
          var i: int :| 0 <= i < |edits| && edits[i] == e;
          assert first.start >= e.start;
          if e.end > first.start { assert Overlap(first, e); }
        }
      }
    }
  }

  // Carrying out one more edit behind all others, and then the others, is carrying out all of them.
  lemma {:induction false} SubstituteSnoc(contents: string, from: nat, edits: seq<Edit>, e: Edit)
    requires Ordered(edits, from, e.start) && e.start < e.end <= |contents|
    ensures Ordered(edits + [e], from, |contents|)
    ensures var after := contents[..e.start] + e.replacement + contents[e.end..];
            Ordered(edits, from, |after|) && Substitute(after, from, edits) == Substitute(contents, from, edits + [e])
    decreases edits
  {
    var after := contents[..e.start] + e.replacement + contents[e.end..];
    OrderedSnoc(edits, e, from, |contents|);
    OrderedFurther(edits, from, e.start, |after|);
    if edits == [] {
      assert [e][1..] == [];
      assert after[from..] == contents[from..e.start] + e.replacement + contents[e.end..];
    } else {
      var first := edits[0];
      StartsInside(edits[1..], first.end, e.start);
      SubstituteSnoc(contents, first.end, edits[1..], e);
      assert (edits + [e])[1..] == edits[1..] + [e];
      SameHead(contents, after, from, first.start, e.start);
    }
  }

  lemma SameHead(contents: string, after: string, from: nat, to: nat, end: nat)
    requires from <= to <= end <= |contents| && contents[..end] <= after
    ensures after[from..to] == contents[from..to]
  {
    assert after[..end] == contents[..end];
    assert contents[..end][from..to] == contents[from..to];
    assert after[..end][from..to] == after[from..to];
  }

  lemma {:induction false} StartsInside(edits: seq<Edit>, from: nat, length: nat)
    requires Ordered(edits, from, length)
    ensures from <= length
    decreases edits
  {
    if edits != [] { StartsInside(edits[1..], edits[0].end, length); }
  }

  // The rewriting loop of rewritePitrSqlDatabases.
  method RewriteFromTheRight(contents: string, edits: seq<Edit>) returns (rewritten: string)
    requires ValidEdits(edits, |contents|)
    ensures var chosen := Chosen(Sorted(edits), |contents|);
            Ordered(chosen, 0, |contents|) && rewritten == Substitute(contents, 0, chosen)
  {
    hide Ordered, Substitute, Sorted;
    var sorted := Sorted(edits);
    SortedIsValid(edits, |contents|);
    ghost var chosen := Chosen(sorted, |contents|);
    ChosenAreOrdered(sorted, |contents|);
    rewritten := contents;
    // Before the first edit there is no bound, which is the same as the end of the text.
    var lastStart: nat := |contents|;
    for i := 0 to |sorted|
      invariant lastStart <= |contents| && lastStart <= |rewritten|
      invariant Ordered(Chosen(sorted[i..], lastStart), 0, lastStart)
      invariant Ordered(Chosen(sorted[i..], lastStart), 0, |rewritten|)
      invariant Ordered(chosen, 0, |contents|)
      invariant Substitute(rewritten, 0, Chosen(sorted[i..], lastStart)) == Substitute(contents, 0, chosen)
    {
      var edit := sorted[i];
      assert ValidEdit(edit, |contents|);
      assert sorted[i..][0] == edit && sorted[i..][1..] == sorted[i + 1..];
      if edit.end <= lastStart {
        var rest := Chosen(sorted[i + 1..], edit.start);
        SortedTail(sorted, i + 1, |contents|);
        ChosenAreOrdered(sorted[i + 1..], edit.start);
        SubstituteSnoc(rewritten, 0, rest, edit);
        rewritten := rewritten[..edit.start] + edit.replacement + rewritten[edit.end..];
        lastStart := edit.start;
      }
    }
    NoEdits(rewritten);
  }

  lemma NoEdits(contents: string)
    ensures Ordered([], 0, |contents|) && Substitute(contents, 0, []) == contents
  {
  }

  lemma SortedIsValid(edits: seq<Edit>, length: nat)
    requires ValidEdits(edits, length)
    ensures ValidEdits(Sorted(edits), length)
  {
    SortedIsPermutation(edits);
    var sorted := Sorted(edits);
    forall i | 0 <= i < |sorted| ensures ValidEdit(sorted[i], length) {
      assert sorted[i] in multiset(sorted);
      assert sorted[i] in edits;
    }
  }

  lemma SortedTail(sorted: seq<Edit>, k: nat, length: nat)
    requires ValidEdits(sorted, length) && k <= |sorted|
    ensures forall i | 0 <= i < |sorted[k..]| :: sorted[k..][i].start < sorted[k..][i].end
  {
    forall i | 0 <= i < |sorted[k..]| ensures sorted[k..][i].start < sorted[k..][i].end {
      assert ValidEdit(sorted[k + i], length);
    }
  }

  // ---------------------------------------------------------------- the whole function

  // An entry of the mapping.
  datatype Renaming = Renaming(source: string, destination: string)

  // addEdits, after the edits collected before.
  function EditsOf(matches: seq<Match>, replacement: string): seq<Edit> {
    if matches == [] then []
    else
      var e := EditOf(matches[|matches| - 1], replacement);
      EditsOf(matches[..|matches| - 1], replacement) + (if e.None? then [] else [e.value])
  }

  function PatternEdits(p: Pattern, r: Renaming, masked: string, upper: char -> char): seq<Edit> {
    EditsOf(AllMatches(p, r.source, masked, 0, upper), Quoted(r.destination))
  }

  // The edits of all entries, pattern by pattern.
  function AllEdits(mapping: seq<Renaming>, masked: string, upper: char -> char): seq<Edit> {
    if mapping == [] then []
    else
      var r := mapping[|mapping| - 1];
      AllEdits(mapping[..|mapping| - 1], masked, upper) + PatternEdits(QuotedName, r, masked, upper)
        + PatternEdits(BareName, r, masked, upper) + PatternEdits(Directive, r, masked, upper)
  }

  method AddEdits(p: Pattern, r: Renaming, masked: string, upper: char -> char, before: seq<Edit>)
    returns (edits: seq<Edit>)
    ensures edits == before + PatternEdits(p, r, masked, upper)
  {
    hide AllMatches, EditOf, MatchIn, IsName;
    edits := before;
    var matches := AllMatches(p, r.source, masked, 0, upper);
    for i := 0 to |matches|
      invariant edits == before + EditsOf(matches[..i], Quoted(r.destination))
    {
      assert matches[..i + 1][..i] == matches[..i];
      var edit := EditOf(matches[i], Quoted(r.destination));
      if edit.Some? { edits := edits + [edit.value]; }
    }
    assert matches[..|matches|] == matches;
  }

  // Edit e stands for a match of one entry of the mapping.
  ghost predicate Stands(e: Edit, mapping: seq<Renaming>, masked: string, upper: char -> char) {
    exists r | r in mapping ::
      && e.start < e.end <= |masked| && e.replacement == Quoted(r.destination)
      && IsName(masked[e.start..e.end], r.source, upper)
  }

  lemma {:induction false} EditsOfStand(
    matches: seq<Match>, r: Renaming, mapping: seq<Renaming>, masked: string, upper: char -> char)
    requires r in mapping
    requires forall m | m in matches :: MatchIn(m, masked) && IsName(m.captured, r.source, upper)
    ensures forall e | e in EditsOf(matches, Quoted(r.destination)) :: Stands(e, mapping, masked, upper)
    decreases |matches|
  {
    hide MatchIn, EditOf, Quoted;
    if matches != [] {
      var last := matches[|matches| - 1];
      EditsOfStand(matches[..|matches| - 1], r, mapping, masked, upper);
      EditCoversCapture(last, masked, Quoted(r.destination));
    }
  }

  // Every edit replaces the name of a source, as one of the patterns recognises it, by the quoted destination.
  lemma {:induction false} EditsStand(mapping: seq<Renaming>, masked: string, upper: char -> char)
    ensures forall e | e in AllEdits(mapping, masked, upper) :: Stands(e, mapping, masked, upper)
    ensures ValidEdits(AllEdits(mapping, masked, upper), |masked|)
    decreases |mapping|
  {
    hide AllMatches, MatchIn, IsName, Quoted;
    if mapping != [] {
      var front, r := mapping[..|mapping| - 1], mapping[|mapping| - 1];
      EditsStand(front, masked, upper);
      EditsOfStand(AllMatches(QuotedName, r.source, masked, 0, upper), r, mapping, masked, upper);
      EditsOfStand(AllMatches(BareName, r.source, masked, 0, upper), r, mapping, masked, upper);
      EditsOfStand(AllMatches(Directive, r.source, masked, 0, upper), r, mapping, masked, upper);
      forall e | e in AllEdits(front, masked, upper) ensures Stands(e, mapping, masked, upper) {
        assert Stands(e, front, masked, upper);
      }
    }
    var edits := AllEdits(mapping, masked, upper);
    forall i | 0 <= i < |edits| ensures ValidEdit(edits[i], |masked|) {
      assert edits[i] in edits;
    }
  }

  // The edits that are carried out.
  function Renames(contents: string, mapping: seq<Renaming>, upper: char -> char): seq<Edit> {
    Chosen(Sorted(AllEdits(mapping, CodeMask(contents), upper)), |contents|)
  }

  lemma RenamesAreOrdered(contents: string, mapping: seq<Renaming>, upper: char -> char)
    ensures ValidEdits(AllEdits(mapping, CodeMask(contents), upper), |contents|)
    ensures Ordered(Renames(contents, mapping, upper), 0, |contents|)
  {
    hide Mask, IsCode, Divide, AllEdits, Stands, Ordered, Chosen;
    CodeMaskIsExact(contents);
    EditsStand(mapping, CodeMask(contents), upper);
    SortedIsValid(AllEdits(mapping, CodeMask(contents), upper), |contents|);
    ChosenAreOrdered(Sorted(AllEdits(mapping, CodeMask(contents), upper)), |contents|);
  }

  // What the whole function returns.
  function Rewritten(contents: string, mapping: seq<Renaming>, upper: char -> char): string {
    RenamesAreOrdered(contents, mapping, upper);
    Substitute(contents, 0, Renames(contents, mapping, upper))
  }

  method RewritePitrSqlDatabases(contents: string, mapping: seq<Renaming>, upper: char -> char)
    returns (rewritten: string)
    ensures rewritten == Rewritten(contents, mapping, upper)
    ensures var renames := Renames(contents, mapping, upper);
            Ordered(renames, 0, |contents|) && rewritten == Substitute(contents, 0, renames)
  {
    hide CodeMask, PatternEdits, Chosen, Sorted;
    var masked := CodeMask(contents);
    var edits := [];
    for i := 0 to |mapping|
      invariant edits == AllEdits(mapping[..i], masked, upper)
    {
      assert mapping[..i + 1][..i] == mapping[..i];
      edits := AddEdits(QuotedName, mapping[i], masked, upper, edits);
      edits := AddEdits(BareName, mapping[i], masked, upper, edits);
      edits := AddEdits(Directive, mapping[i], masked, upper, edits);
    }
    assert mapping[..|mapping|] == mapping;
    RenamesAreOrdered(contents, mapping, upper);
    rewritten := RewriteFromTheRight(contents, edits);
  }

  // Which edits are carried out: a set of disjoint ones that cannot be enlarged.
  lemma ChosenEdits(edits: seq<Edit>, length: nat, e: Edit)
    requires ValidEdits(edits, length)
    ensures var chosen := Chosen(Sorted(edits), length);
            && Ordered(chosen, 0, length)
            && (e in chosen ==> e in edits)
            && (e in edits && e !in chosen ==> exists c :: c in chosen && Overlap(c, e))
  {
    hide Ordered, Sorted, Chosen;
    SortedIsValid(edits, length);
    SortedIsPermutation(edits);
    var sorted := Sorted(edits);
    SortedTail(sorted, 0, length);
    assert sorted[0..] == sorted;
    ChosenAreOrdered(sorted, length);
    ChosenAreMaximal(sorted, length, e);
    assert e in edits <==> e in multiset(edits);
    assert e in sorted <==> e in multiset(sorted);
    if e in edits { assert ValidEdit(e, length); }
  }

  // ---------------------------------------------------------------- where everything ends up

  // How far text at position p moves.
  function Moved(edits: seq<Edit>, p: nat): int {
    if edits == [] || edits[0].end > p then 0
    else |edits[0].replacement| - (edits[0].end - edits[0].start) + Moved(edits[1..], p)
  }

  // An edit replaces the text at position p.
  predicate Inside(edits: seq<Edit>, p: nat) {
    edits != [] && (edits[0].start <= p < edits[0].end || Inside(edits[1..], p))
  }

  // Text outside the edits is unchanged, and only moved.
  lemma {:induction false} OutsideIsKept(contents: string, from: nat, edits: seq<Edit>, p: nat)
    requires Ordered(edits, from, |contents|) && from <= p < |contents| && !Inside(edits, p)
    ensures 0 <= p - from + Moved(edits, p) < |Substitute(contents, from, edits)|
    ensures Substitute(contents, from, edits)[p - from + Moved(edits, p)] == contents[p]
    decreases edits
  {
    if edits != [] {
      var e := edits[0];
      var out, rest := Substitute(contents, from, edits), Substitute(contents, e.end, edits[1..]);
      var head := contents[from..e.start] + e.replacement;
      assert out == head + rest;
      if p >= e.end {
        OutsideIsKept(contents, e.end, edits[1..], p);
        var at := p - e.end + Moved(edits[1..], p);
        assert out[|head| + at] == rest[at];
      } else {
        assert out[p - from] == contents[from..e.start][p - from];
      }
    }
  }

  // Every edit puts its replacement, whole and once, where its range has moved to.
  lemma {:induction false} ReplacementsArePut(contents: string, from: nat, edits: seq<Edit>, k: nat)
    requires Ordered(edits, from, |contents|) && k < |edits|
    ensures var out := Substitute(contents, from, edits);
            var at := edits[k].start - from + Moved(edits, edits[k].start);
            0 <= at && at + |edits[k].replacement| <= |out|
                && out[at..at + |edits[k].replacement|] == edits[k].replacement
    decreases edits
  {
    hide Substitute, Ordered;
    var e := edits[0];
    OneStep(contents, from, edits);
    var out, rest := Substitute(contents, from, edits), Substitute(contents, e.end, edits[1..]);
    var head := contents[from..e.start] + e.replacement;
    assert out == head + rest;
    if k == 0 {
      Middle(contents[from..e.start], e.replacement, "", out);
    } else {
      ReplacementsArePut(contents, e.end, edits[1..], k - 1);
      InOrder(edits, from, |contents|, k);
      var at := edits[k].start - e.end + Moved(edits[1..], edits[k].start);
      InRest(head, rest, at, edits[k].replacement);
    }
  }

  lemma InRest(head: string, rest: string, at: nat, part: string)
    requires at + |part| <= |rest| && rest[at..at + |part|] == part
    ensures (head + rest)[|head| + at..|head| + at + |part|] == part
  {
  }

  lemma {:induction false} InOrder(edits: seq<Edit>, from: nat, length: nat, k: nat)
    requires Ordered(edits, from, length) && k < |edits|
    ensures from <= edits[k].start < edits[k].end <= length && (k > 0 ==> edits[0].end <= edits[k].start)
    decreases edits
  {
    if k == 0 {
      StartsInside(edits[1..], edits[0].end, length);
    } else {
      InOrder(edits[1..], edits[0].end, length, k - 1);
    }
  }

  // The edits that undo a substitution: each replacement becomes the text it replaced.
  function Undo(contents: string, from: nat, at: nat, edits: seq<Edit>): seq<Edit>
    requires Ordered(edits, from, |contents|)
    decreases edits
  {
    if edits == [] then []
    else
      var e := edits[0];
      var start := at + (e.start - from);
      [Edit(start, start + |e.replacement|, contents[e.start..e.end])]
        + Undo(contents, e.end, start + |e.replacement|, edits[1..])
  }

  // Renaming back restores the text.
  lemma {:induction false} RoundTrip(contents: string, from: nat, edits: seq<Edit>, done: string)
    requires Ordered(edits, from, |contents|) && forall i | 0 <= i < |edits| :: edits[i].replacement != ""
    ensures var out := done + Substitute(contents, from, edits);
            var undo := Undo(contents, from, |done|, edits);
            Ordered(undo, |done|, |out|) && Substitute(out, |done|, undo) == contents[from..]
    decreases edits
  {
    hide Substitute, Undo, Ordered;
    StartsInside(edits, from, |contents|);
    var out, undo := done + Substitute(contents, from, edits), Undo(contents, from, |done|, edits);
    if edits == [] {
      NothingToUndo(contents, from, done);
    } else {
      var e := edits[0];
      OneStep(contents, from, edits);
      var more := done + contents[from..e.start] + e.replacement;
      assert out == more + Substitute(contents, e.end, edits[1..]);
      forall i | 0 <= i < |edits[1..]| ensures edits[1..][i].replacement != "" { assert edits[1..][i] == edits[i + 1]; }
      RoundTrip(contents, e.end, edits[1..], more);
      UndoCons(contents, from, |done|, edits);
      PrependUndo(done, contents[from..e.start], e.replacement, contents[e.start..e.end], out,
                  Undo(contents, e.end, |more|, edits[1..]));
      assert contents[from..] == contents[from..e.start] + contents[e.start..e.end] + contents[e.end..];
    }
  }

  lemma NothingToUndo(contents: string, from: nat, done: string)
    requires from <= |contents|
    ensures Ordered([], from, |contents|)
    ensures var out := done + Substitute(contents, from, []);
            Ordered(Undo(contents, from, |done|, []), |done|, |out|)
                && Substitute(out, |done|, Undo(contents, from, |done|, [])) == contents[from..]
  {
  }

  lemma OneStep(contents: string, from: nat, edits: seq<Edit>)
    requires Ordered(edits, from, |contents|) && edits != []
    ensures var e := edits[0];
            && from <= e.start < e.end <= |contents| && Ordered(edits[1..], e.end, |contents|)
            && Substitute(contents, from, edits)
               == contents[from..e.start] + e.replacement + Substitute(contents, e.end, edits[1..])
  {
  }

  // Undoing the first edit, in front of undoing the others.
  lemma PrependUndo(done: string, kept: string, put: string, was: string, out: string, rest: seq<Edit>)
    requires put != "" && done + kept + put <= out && Ordered(rest, |done + kept + put|, |out|)
    ensures var undo := [Edit(|done + kept|, |done + kept + put|, was)] + rest;
            && Ordered(undo, |done|, |out|)
            && Substitute(out, |done|, undo) == kept + was + Substitute(out, |done + kept + put|, rest)
  {
    hide Substitute, Ordered;
    PrependEdit(out, |done|, Edit(|done + kept|, |done + kept + put|, was), rest);
    Middle(done, kept, put, out);
  }

  lemma UndoCons(contents: string, from: nat, at: nat, edits: seq<Edit>)
    requires Ordered(edits, from, |contents|) && edits != []
    ensures var e := edits[0];
            var start := at + (e.start - from);
            Undo(contents, from, at, edits)
              == [Edit(start, start + |e.replacement|, contents[e.start..e.end])]
                   + Undo(contents, e.end, start + |e.replacement|, edits[1..])
  {
  }

  lemma Middle(done: string, kept: string, put: string, out: string)
    requires done + kept + put <= out
    ensures out[|done|..|done| + |kept|] == kept
  {
    assert out[..|done + kept + put|] == done + kept + put;
    assert out[..|done + kept + put|][|done|..|done| + |kept|] == kept;
  }

  lemma PrependEdit(contents: string, from: nat, first: Edit, rest: seq<Edit>)
    requires from <= first.start < first.end && Ordered(rest, first.end, |contents|) && first.end <= |contents|
    ensures Ordered([first] + rest, from, |contents|)
    ensures Substitute(contents, from, [first] + rest)
              == contents[from..first.start] + first.replacement + Substitute(contents, first.end, rest)
  {
    assert ([first] + rest)[1..] == rest;
  }

  // ---------------------------------------------------------------- strings and comments

  // When the sources have single blanks, every edit that is carried out lies in code, and replaces the name of a
  // source that stands there in the text itself.
  lemma RenamesAreInCode(contents: string, mapping: seq<Renaming>, upper: char -> char, e: Edit)
    requires forall r | r in mapping :: SingleBlanks(r.source)
    requires e in Renames(contents, mapping, upper)
    ensures e.start < e.end <= |contents| && AllCode(CodeOf(contents), e.start, e.end)
    ensures exists r | r in mapping ::
              e.replacement == Quoted(r.destination) && IsName(contents[e.start..e.end], r.source, upper)
  {
    hide AllEdits, CodeMask, CodeOf, SingleBlanks, IsName, Quoted, Ordered, Chosen, Sorted, AllCode, Masks;
    var masked := CodeMask(contents);
    MaskLength(contents);
    EditsStand(mapping, masked, upper);
    ChosenEdits(AllEdits(mapping, masked, upper), |contents|, e);
    assert Stands(e, mapping, masked, upper);
    var r :| r in mapping && e.replacement == Quoted(r.destination) && IsName(masked[e.start..e.end], r.source, upper);
    CapturedInCode(contents, r.source, masked[e.start..e.end], e.start, upper);
  }

  lemma MaskLength(contents: string)
    ensures |CodeMask(contents)| == |CodeOf(contents)| == |contents|
  {
    hide Mask, IsCode, Divide;
    CodeMaskIsExact(contents);
  }

  lemma {:induction false} InsideOne(edits: seq<Edit>, p: nat) returns (e: Edit)
    requires Inside(edits, p)
    ensures e in edits && e.start <= p < e.end
    decreases edits
  {
    if edits[0].start <= p < edits[0].end { e := edits[0]; } else { e := InsideOne(edits[1..], p); }
  }

  lemma NotRenamed(contents: string, mapping: seq<Renaming>, upper: char -> char, p: nat)
    requires forall r | r in mapping :: SingleBlanks(r.source)
    requires p < |CodeOf(contents)| && !CodeOf(contents)[p]
    ensures !Inside(Renames(contents, mapping, upper), p)
  {
    hide Renames, CodeOf, SingleBlanks, IsName, Quoted, Inside;
    if Inside(Renames(contents, mapping, upper), p) {
      var e := InsideOne(Renames(contents, mapping, upper), p);
      RenamesAreInCode(contents, mapping, upper, e);
    }
  }

  // The character at position p is the same after the substitution, where it has moved to.
  predicate KeptAt(contents: string, edits: seq<Edit>, p: nat) {
    && p < |contents| && Ordered(edits, 0, |contents|)
    && var out, at := Substitute(contents, 0, edits), p + Moved(edits, p);
       0 <= at < |out| && out[at] == contents[p]
  }

  lemma Unchanged(contents: string, edits: seq<Edit>, p: nat)
    requires Ordered(edits, 0, |contents|) && p < |contents| && !Inside(edits, p)
    ensures KeptAt(contents, edits, p)
  {
    hide Ordered, Substitute, Moved, Inside;
    OutsideIsKept(contents, 0, edits, p);
  }

  // What the renamer is for: with such sources no character of a string or comment changes; it only moves by the
  // difference in length of the names replaced before it.
  lemma ProtectedTextIsKept(contents: string, mapping: seq<Renaming>, upper: char -> char, p: nat)
    requires forall r | r in mapping :: SingleBlanks(r.source)
    requires p < |CodeOf(contents)| && !CodeOf(contents)[p]
    ensures KeptAt(contents, Renames(contents, mapping, upper), p)
  {
    hide Renames, CodeOf, CodeMask, SingleBlanks, Ordered, Inside, KeptAt;
    MaskLength(contents);
    RenamesAreOrdered(contents, mapping, upper);
    NotRenamed(contents, mapping, upper, p);
    Unchanged(contents, Renames(contents, mapping, upper), p);
  }

  lemma {:induction false} EditForMatch(matches: seq<Match>, masked: string, replacement: string, m: Match)
    requires forall n | n in matches :: MatchIn(n, masked)
    requires m in matches && m.captured != ""
    ensures exists e | e in EditsOf(matches, replacement) ::
              e.end == m.index + |m.text| && e.end == e.start + |m.captured| && e.replacement == replacement
    decreases |matches|
  {
    hide EditOf;
    var last := matches[|matches| - 1];
    if m == last {
      EditCoversCapture(m, masked, replacement);
      var e := EditOf(m, replacement).value;
      assert masked[e.start..e.end] == m.captured;
      assert e in EditsOf(matches, replacement) && e.end == m.index + |m.text|;
    } else {
      EditForMatch(matches[..|matches| - 1], masked, replacement, m);
    }
  }

  lemma {:induction false} EditsOfEntry(
    mapping: seq<Renaming>, masked: string, upper: char -> char, r: Renaming, p: Pattern)
    requires r in mapping
    ensures forall e | e in PatternEdits(p, r, masked, upper) :: e in AllEdits(mapping, masked, upper)
    decreases |mapping|
  {
    hide PatternEdits;
    if r != mapping[|mapping| - 1] { EditsOfEntry(mapping[..|mapping| - 1], masked, upper, r, p); }
  }

  // No qualified reference to a source is left alone: where the pattern for its quoted or bare name matches in the
  // mask, an edit that replaces this name is carried out, or overlaps one that is.
  lemma ReferencesAreRenamed(
    contents: string, mapping: seq<Renaming>, upper: char -> char, r: Renaming, p: Pattern, at: nat)
    requires r in mapping && p != Directive
    requires at < |CodeMask(contents)| && MatchAt(p, r.source, CodeMask(contents), at, upper).Some?
    ensures exists e: Edit :: e.start <= at < e.end && e.replacement == Quoted(r.destination)
              && (e in Renames(contents, mapping, upper)
                  || exists c :: c in Renames(contents, mapping, upper) && Overlap(c, e))
  {
    hide CodeMask, MatchAt, IsName, MatchIn, Chosen, Sorted, Ordered, AllEdits, EditsOf, Quoted, Overlap;
    var masked := CodeMask(contents);
    var m := NothingIsMissed(p, r.source, masked, 0, at, upper);
    WholeMatches(p, r.source, masked, 0, upper);
    EditForMatch(AllMatches(p, r.source, masked, 0, upper), masked, Quoted(r.destination), m);
    var e :| e in EditsOf(AllMatches(p, r.source, masked, 0, upper), Quoted(r.destination))
      && e.end == m.index + |m.text| && e.end == e.start + |m.captured| && e.replacement == Quoted(r.destination);
    EditsOfEntry(mapping, masked, upper, r, p);
    RenamesAreOrdered(contents, mapping, upper);
    ChosenEdits(AllEdits(mapping, masked, upper), |contents|, e);
  }

  // The patterns for qualified names capture all they match.
  lemma {:induction false} WholeMatches(p: Pattern, source: string, masked: string, i: nat, upper: char -> char)
    requires p != Directive
    ensures forall m | m in AllMatches(p, source, masked, i, upper) :: m.captured == m.text != ""
    decreases |masked| - i
  {
    hide IsName, MatchIn;
    if i < |masked| {
      var m := MatchAt(p, source, masked, i, upper);
      WholeMatches(p, source, masked, if m.None? then i + 1 else i + |m.value.text|, upper);
    }
  }
}
