/** Where the renamer of pitr.utils.ts:111-133 finds the name of a database: its three patterns, in the masked copy of
    the text. */
module SqlNames {
  import opened Wrappers
  import opened SqlParts
  import SqlStream

  // ---------------------------------------------------------------- names and where they are found

  predicate OccursAt(text: string, part: string, i: nat) { i + |part| <= |text| && text[i..i + |part|] == part }

  // value.replace(/`/g, '``')
  function Doubled(name: string): string {
    if name == "" then "" else (if name[0] == '`' then "``" else [name[0]]) + Doubled(name[1..])
  }

  // Every backtick stands twice, and everything else once.
  lemma {:induction false} BacktickDoubled(a: string, c: char, b: string)
    ensures Doubled(a + [c] + b) == Doubled(a) + (if c == '`' then "``" else [c]) + Doubled(b)
    ensures Doubled("") == ""
    decreases a
  {
    var name := a + [c] + b;
    if a == "" {
      assert name[0] == c && name[1..] == b;
    } else {
      assert name[0] == a[0] && name[1..] == a[1..] + [c] + b;
      BacktickDoubled(a[1..], c, b);
    }
  }

  // mysqlQuoteIdentifier
  function Quoted(name: string): string { "`" + Doubled(name) + "`" }

  // Every blank is followed by something that is neither a blank nor the end of a line.
  predicate SingleBlanks(name: string) {
    forall i | 0 <= i < |name| - 1 && name[i] == ' ' :: name[i + 1] != ' ' && !IsLineEnd(name[i + 1])
  }

  lemma {:induction false} DoubledBlanks(name: string)
    ensures SingleBlanks(Doubled(name)) <==> SingleBlanks(name)
    ensures |Doubled(name)| >= |name| && (name != "" ==> Doubled(name)[0] == name[0])
    decreases name
  {
    if name != "" {
      var rest := name[1..];
      DoubledBlanks(rest);
      var first := if name[0] == '`' then "``" else [name[0]];
      assert Doubled(name) == first + Doubled(rest);
      BlanksOfCons(first, Doubled(rest));
      BlanksOfCons([name[0]], rest);
      assert name == [name[0]] + rest;
    }
  }

  // Putting one character, or two backticks, in front.
  lemma BlanksOfCons(first: string, rest: string)
    requires first == "``" || |first| == 1
    ensures SingleBlanks(first + rest) <==>
              SingleBlanks(rest) && (rest == "" || first[0] != ' ' || (rest[0] != ' ' && !IsLineEnd(rest[0])))
  {
    hide IsLineEnd;
    var all, n := first + rest, |first|;
    if SingleBlanks(all) {
      forall i | 0 <= i < |rest| - 1 && rest[i] == ' ' ensures rest[i + 1] != ' ' && !IsLineEnd(rest[i + 1]) {
        assert all[n + i] == ' ' && all[n + i + 1] == rest[i + 1];
      }
      if rest != "" && first[0] == ' ' { assert all[0] == ' ' && all[1] == rest[0]; }
    }
    if SingleBlanks(rest) && (rest == "" || first[0] != ' ' || (rest[0] != ' ' && !IsLineEnd(rest[0]))) {
      forall i | 0 <= i < |all| - 1 && all[i] == ' ' ensures all[i + 1] != ' ' && !IsLineEnd(all[i + 1]) {
        if i >= n { assert rest[i - n] == ' '; }
      }
    }
  }

  lemma QuotedBlanks(name: string)
    ensures SingleBlanks(Quoted(name)) <==> SingleBlanks(name)
  {
    DoubledBlanks(name);
    var inside := Doubled(name);
    assert Quoted(name) == ['`'] + (inside + "`");
    BlanksOfCons(['`'], inside + "`");
    if SingleBlanks(inside + "`") {
      forall i | 0 <= i < |inside| - 1 && inside[i] == ' ' ensures inside[i + 1] != ' ' && !IsLineEnd(inside[i + 1]) {
        assert (inside + "`")[i] == ' ' && (inside + "`")[i + 1] == inside[i + 1];
      }
    }
  }

  // Where all of it is code.
  predicate AllCode(code: seq<bool>, start: nat, end: nat) {
    end <= |code| && forall i | start <= i < end :: code[i]
  }

  // A quoted name with single blanks is only found where the text itself has it, and where all of it is code.
  lemma FoundInCode(parts: seq<Part>, start: nat, quoted: string)
    requires WellFormed(parts) && SingleBlanks(quoted)
    requires quoted != "" && quoted[0] != ' ' && quoted[|quoted| - 1] != ' '
    requires OccursAt(Mask(parts), quoted, start)
    ensures AllCode(IsCode(parts), start, start + |quoted|) && OccursAt(Text(parts), quoted, start)
  {
    hide Mask, Text, IsCode, WellFormed, Masks;
    MaskIsExact(parts);
    var mask, text, code := Mask(parts), Text(parts), IsCode(parts);
    CodeOrBlank(mask, text, code, quoted, start, 0);
    forall p | start <= p < start + |quoted| ensures code[p] && text[p] == quoted[p - start] {
      var i := p - start;
      CodeOrBlank(mask, text, code, quoted, start, i);
      if quoted[i] == ' ' {
        CodeOrBlank(mask, text, code, quoted, start, i - 1);
        CodeOrBlank(mask, text, code, quoted, start, i + 1);
        if !code[p] { LoneIsBeforeLineEnd(parts, p); }
      }
    }
    assert text[start..start + |quoted|] == quoted;
  }

  // What is found in the mask is code, or a blank.
  lemma CodeOrBlank(mask: string, text: string, code: seq<bool>, quoted: string, start: nat, i: nat)
    requires Masks(mask, text, code) && OccursAt(mask, quoted, start) && i < |quoted|
    ensures start + |quoted| <= |mask| == |text| == |code|
    ensures if code[start + i] then text[start + i] == quoted[i] else quoted[i] == ' '
  {
    assert mask[start..start + |quoted|][i] == mask[start + i];
  }

  // The lookahead (?=\s*\.).
  predicate DotFollows(masked: string, i: nat)
    decreases |masked| - i
  {
    i < |masked| && (masked[i] == '.' || (SqlStream.IsSpace(masked[i]) && DotFollows(masked, i + 1)))
  }

  // The pattern for the quoted name matches at this position.
  predicate Qualifies(masked: string, name: string, start: nat) {
    OccursAt(masked, Quoted(name), start) && DotFollows(masked, start + |Quoted(name)|)
  }

  // Whatever the text is, the quoted name is replaced only where all of it is code.
  ghost predicate OnlyInCode(name: string) {
    forall parts, start: nat | WellFormed(parts) && Qualifies(Mask(parts), name, start) ::
      AllCode(IsCode(parts), start, start + |Quoted(name)|)
  }

  // That is so exactly for names in which every blank is a single one and does not end a line.
  lemma OnlyInCodeExactlyWhen(name: string)
    ensures OnlyInCode(name) <==> SingleBlanks(name)
  {
    hide Mask, Text, IsCode, WellFormed, Quoted, SingleBlanks;
    var q := Quoted(name);
    QuotedBlanks(name);
    EndsInBackticks(name);
    if SingleBlanks(name) {
      forall parts, start: nat | WellFormed(parts) && Qualifies(Mask(parts), name, start)
        ensures AllCode(IsCode(parts), start, start + |q|)
      {
        FoundInCode(parts, start, q);
      }
    } else {
      var parts := Covering(name);
    }
  }

  lemma EndsInBackticks(name: string)
    ensures var q := Quoted(name); |q| >= 2 && q[0] == '`' && q[|q| - 1] == '`'
  {
  }

  // A text in which the name, qualified, is matched across a string or comment.
  lemma Covering(name: string) returns (parts: seq<Part>)
    requires !SingleBlanks(Quoted(name))
    ensures WellFormed(parts) && Qualifies(Mask(parts), name, 0) && !AllCode(IsCode(parts), 0, |Quoted(name)|)
  {
    hide Quoted, Mask, Text, IsCode, WellFormed, IsString, IsLineComment, IsBlockComment, IsLineEnd, DotFollows,
         OccursAt;
    var q := Quoted(name);
    var i :| 0 <= i < |q| - 1 && q[i] == ' ' && (q[i + 1] == ' ' || IsLineEnd(q[i + 1]));
    var token, n := if q[i + 1] == ' ' then "''" else "#", if q[i + 1] == ' ' then 2 else 1;
    parts := [Code(q[..i]), Protected(token), Code(q[i + n..] + ".")];
    TokenIsProtected(token, q[i + n..] + ".");
    ThreeParts(q[..i], token, q[i + n..] + ".");
    BlanksAreThere(q, i, n);
    QualifiesInFront(name);
    assert !IsCode(parts)[i];
  }

  lemma TokenIsProtected(token: string, after: string)
    requires token == "''" || (token == "#" && after != "" && IsLineEnd(after[0]))
    ensures IsString(token) || IsLineComment(token, after)
  {
  }

  lemma BlanksAreThere(q: string, i: nat, n: nat)
    requires i + n <= |q| && forall k | i <= k < i + n :: q[k] == ' '
    ensures q[..i] + Blanks(n) + (q[i + n..] + ".") == q + "."
  {
    assert Blanks(n) == q[i..i + n];
  }

  lemma ThreeParts(before: string, token: string, after: string)
    requires token != "" && (IsString(token) || IsBlockComment(token) || IsLineComment(token, after))
    ensures var parts := [Code(before), Protected(token), Code(after)];
            && WellFormed(parts)
            && Mask(parts) == before + Blanks(|token|) + after && Text(parts) == before + token + after
            && |IsCode(parts)| == |before| + |token| + |after| && !IsCode(parts)[|before|]
  {
    hide IsString, IsBlockComment, IsLineComment;
    var parts := [Code(before), Protected(token), Code(after)];
    var two, one := parts[1..], parts[2..];
    assert two == [Protected(token), Code(after)] && two[1..] == one == [Code(after)] && one[1..] == [];
    assert Text(one) == after && Mask(one) == after;
    assert Text(two) == token + after && Mask(two) == Blanks(|token|) + after;
    assert WellFormed(one) by { assert WellFormed(one[1..]); }
    assert WellFormed(two);
    assert IsCode(two)[0] == false;
  }

  // ---------------------------------------------------------------- the three patterns

  // A match of a pattern in the masked text, with the captured group at its end.
  datatype Match = Match(index: nat, text: string, captured: string)

  predicate MatchIn(m: Match, masked: string) {
    && m.index + |m.text| <= |masked| && masked[m.index..m.index + |m.text|] == m.text
    && |m.captured| <= |m.text| && m.text[|m.text| - |m.captured|..] == m.captured
  }

  // [A-Za-z0-9_$]
  predicate IsNameChar(c: char) {
    'A' <= c <= 'Z' || 'a' <= c <= 'z' || '0' <= c <= '9' || c == '_' || c == '$'
  }

  predicate IsBare(name: string) { name != "" && forall i | 0 <= i < |name| :: IsNameChar(name[i]) }

  // What the flag i compares; `upper` gives the capital of every other character.
  function Folded(c: char, upper: char -> char): char {
    if c as int < 128 then (if 'a' <= c <= 'z' then (c as int - 32) as char else c)
    else if upper(c) as int < 128 then c
    else upper(c)
  }

  // Equal up to case.
  predicate Alike(a: string, b: string, upper: char -> char) {
    |a| == |b| && forall i | 0 <= i < |a| :: Folded(a[i], upper) == Folded(b[i], upper)
  }

  predicate LikeAt(text: string, part: string, i: nat, upper: char -> char) {
    i + |part| <= |text| && Alike(text[i..i + |part|], part, upper)
  }

  function SkipSpaces(text: string, i: nat): (k: nat)
    ensures i <= k && (k == i || k <= |text|)
    decreases |text| - i
  {
    if i < |text| && SqlStream.IsSpace(text[i]) then SkipSpaces(text, i + 1) else i
  }

  // \s+ and a word: where they end.
  function SpacedWord(text: string, i: nat, word: string, upper: char -> char): (end: Option<nat>)
    ensures end.Some? ==> i < end.value <= |text|
  {
    var k := SkipSpaces(text, i);
    if k > i && LikeAt(text, word, k, upper) then Some(k + |word|) else None
  }

  // USE|CREATE\s+DATABASE|ALTER\s+DATABASE|DROP\s+DATABASE
  function Keyword(text: string, i: nat, upper: char -> char): (end: Option<nat>)
    ensures end.Some? ==> i < end.value <= |text|
  {
    if LikeAt(text, "USE", i, upper) then Some(i + 3)
    else if LikeAt(text, "CREATE", i, upper) then SpacedWord(text, i + 6, "DATABASE", upper)
    else if LikeAt(text, "ALTER", i, upper) then SpacedWord(text, i + 5, "DATABASE", upper)
    else if LikeAt(text, "DROP", i, upper) then SpacedWord(text, i + 4, "DATABASE", upper)
    else None
  }

  // \s+IF\s+(?:NOT\s+)?EXISTS
  function IfExists(text: string, i: nat, upper: char -> char): (end: Option<nat>)
    ensures end.Some? ==> i < end.value <= |text|
  {
    var k := SpacedWord(text, i, "IF", upper);
    if k.None? then None
    else
      var n := SpacedWord(text, k.value, "NOT", upper);
      var e := if n.Some? then SpacedWord(text, n.value, "EXISTS", upper) else None;
      if e.Some? then e else SpacedWord(text, k.value, "EXISTS", upper)
  }

  // (?=\s|;|$)
  predicate Closed(text: string, i: nat) { i >= |text| || SqlStream.IsSpace(text[i]) || text[i] == ';' }

  // \s+(quoted|bare)(?=\s|;|$): where the name begins and ends.
  function Operand(text: string, i: nat, source: string, upper: char -> char): (name: Option<(nat, nat)>)
    ensures name.Some? ==> i < name.value.0 < name.value.1 <= |text|
    ensures name.Some? ==> IsName(text[name.value.0..name.value.1], source, upper)
  {
    var k := SkipSpaces(text, i);
    if k == i then None
    else if LikeAt(text, Quoted(source), k, upper) && Closed(text, k + |Quoted(source)|) then
      Some((k, k + |Quoted(source)|))
    else if IsBare(source) && LikeAt(text, source, k, upper) && Closed(text, k + |source|) then
      Some((k, k + |source|))
    else None
  }

  // The name as the patterns recognise it.
  predicate IsName(captured: string, source: string, upper: char -> char) {
    captured != "" && (Alike(captured, Quoted(source), upper) || (IsBare(source) && Alike(captured, source, upper)))
  }

  // [A-Za-z0-9_]
  predicate WordAt(text: string, i: int) { 0 <= i < |text| && IsNameChar(text[i]) && text[i] != '$' }

  // \b(?:keyword)(?:if exists)?(operand), preferring to take the words of the option as such.
  function DirectiveAt(text: string, i: nat, source: string, upper: char -> char): (name: Option<(nat, nat)>)
    ensures name.Some? ==> i < name.value.0 < name.value.1 <= |text|
    ensures name.Some? ==> IsName(text[name.value.0..name.value.1], source, upper)
  {
    var k := Keyword(text, i, upper);
    if k.None? || WordAt(text, i - 1) == WordAt(text, i) then None
    else
      var e := IfExists(text, k.value, upper);
      var name := if e.Some? then Operand(text, e.value, source, upper) else None;
      if name.Some? then name else Operand(text, k.value, source, upper)
  }

  datatype Pattern = QuotedName | BareName | Directive

  // What the pattern matches from position i on.
  function MatchAt(p: Pattern, source: string, masked: string, i: nat, upper: char -> char): (m: Option<Match>)
    ensures m.Some? ==>
              && m.value.index == i && m.value.text != "" && MatchIn(m.value, masked)
              && IsName(m.value.captured, source, upper)
    ensures m.Some? && !p.Directive? ==> m.value.captured == m.value.text
  {
    match p
    case QuotedName =>
      if Qualifies(masked, source, i) then
        IsAlikeItself(Quoted(source), upper);
        Some(Match(i, Quoted(source), Quoted(source)))
      else None
    case BareName =>
      if IsBare(source) && OccursAt(masked, source, i) && (i == 0 || !IsNameChar(masked[i - 1]))
         && DotFollows(masked, i + |source|)
      then
        IsAlikeItself(source, upper);
        Some(Match(i, source, source))
      else None
    case Directive =>
      var name := DirectiveAt(masked, i, source, upper);
      if name.None? then None
      else Some(Match(i, masked[i..name.value.1], masked[name.value.0..name.value.1]))
  }

  lemma IsAlikeItself(name: string, upper: char -> char)
    ensures Alike(name, name, upper)
  {
  }

  // masked.matchAll(pattern), from position i on.
  function AllMatches(p: Pattern, source: string, masked: string, i: nat, upper: char -> char): (ms: seq<Match>)
    ensures forall m | m in ms :: MatchIn(m, masked) && IsName(m.captured, source, upper)
    decreases |masked| - i
  {
    if i >= |masked| then []
    else
      var m := MatchAt(p, source, masked, i, upper);
      if m.None? then AllMatches(p, source, masked, i + 1, upper)
      else [m.value] + AllMatches(p, source, masked, i + |m.value.text|, upper)
  }

  predicate Covers(m: Match, at: nat) { m.index <= at < m.index + |m.text| }

  lemma MatchesStep(p: Pattern, source: string, masked: string, i: nat, upper: char -> char)
    requires i < |masked|
    ensures var m, all := MatchAt(p, source, masked, i, upper), AllMatches(p, source, masked, i, upper);
            if m.None? then all == AllMatches(p, source, masked, i + 1, upper)
            else
              && m.value in all && m.value.index == i && m.value.text != ""
              && forall n | n in AllMatches(p, source, masked, i + |m.value.text|, upper) :: n in all
  {
    hide MatchAt, IsName, MatchIn;
  }

  // Wherever the pattern matches, some reported match covers the place.
  lemma {:induction false} NothingIsMissed(
    p: Pattern, source: string, masked: string, i: nat, at: nat, upper: char -> char) returns (m: Match)
    requires i <= at < |masked| && MatchAt(p, source, masked, at, upper).Some?
    ensures m in AllMatches(p, source, masked, i, upper) && Covers(m, at)
    decreases |masked| - i
  {
    hide MatchAt, IsName, MatchIn, AllMatches;
    MatchesStep(p, source, masked, i, upper);
    var first := MatchAt(p, source, masked, i, upper);
    if first.None? {
      m := NothingIsMissed(p, source, masked, i + 1, at, upper);
    } else if at < i + |first.value.text| {
      m := first.value;
    } else {
      m := NothingIsMissed(p, source, masked, i + |first.value.text|, at, upper);
    }
  }

  // ---------------------------------------------------------------- names in code

  // Case makes no difference to blanks and ends of lines.
  lemma FoldKeepsBlanks(a: string, b: string, upper: char -> char)
    requires Alike(a, b, upper)
    ensures forall i | 0 <= i < |a| :: (a[i] == ' ' <==> b[i] == ' ') && (IsLineEnd(a[i]) <==> IsLineEnd(b[i]))
    ensures SingleBlanks(b) ==> SingleBlanks(a)
  {
    forall i | 0 <= i < |a| ensures (a[i] == ' ' <==> b[i] == ' ') && (IsLineEnd(a[i]) <==> IsLineEnd(b[i])) {
      assert Folded(a[i], upper) == Folded(b[i], upper);
    }
  }

  // Whatever a pattern captures for a name with single blanks is that name in the text itself, and code throughout.
  lemma CapturedInCode(contents: string, source: string, captured: string, start: nat, upper: char -> char)
    requires SingleBlanks(source) && IsName(captured, source, upper)
    requires OccursAt(CodeMask(contents), captured, start)
    ensures AllCode(CodeOf(contents), start, start + |captured|) && OccursAt(contents, captured, start)
  {
    hide Mask, IsCode, Text, WellFormed, Divide, Folded, IsLineEnd, Doubled;
    DivideIsExact(contents);
    QuotedBlanks(source);
    if Alike(captured, Quoted(source), upper) {
      FoldKeepsBlanks(captured, Quoted(source), upper);
    } else {
      FoldKeepsBlanks(captured, source, upper);
    }
    FoundInCode(Divide(contents), start, captured);
  }

  // Whatever the text is, the quoted name is found only where all of it is code.
  ghost predicate OnlyInCodeOfTexts(name: string) {
    forall contents, start: nat | Qualifies(CodeMask(contents), name, start) ::
      AllCode(CodeOf(contents), start, start + |Quoted(name)|)
  }

  // For every name with single blanks it is; and among the names in which no string or comment begins, for no others.
  lemma PlainNamesExactly(name: string)
    ensures SingleBlanks(name) ==> OnlyInCodeOfTexts(name)
    ensures Plain(name) ==> (OnlyInCodeOfTexts(name) <==> SingleBlanks(name))
  {
    hide Mask, Text, IsCode, WellFormed, Quoted, SingleBlanks, Plain, Divide, DotFollows;
    var q := Quoted(name);
    QuotedBlanks(name);
    EndsInBackticks(name);
    if SingleBlanks(name) {
      forall contents, start: nat | Qualifies(CodeMask(contents), name, start)
        ensures AllCode(CodeOf(contents), start, start + |q|)
      {
        DivideIsExact(contents);
        FoundInCode(Divide(contents), start, q);
      }
    } else if Plain(name) {
      var contents := CoveringText(name);
    }
  }

  lemma {:induction false} DoubledIsPlain(name: string)
    requires Plain(name)
    ensures Plain(Doubled(name)) && (name != "" ==> Doubled(name)[0] == name[0])
    decreases name
  {
    if name != "" {
      DoubledIsPlain(name[1..]);
      var first, rest := if name[0] == '`' then "``" else [name[0]], Doubled(name[1..]);
      assert Doubled(name) == first + rest;
      forall i | 0 <= i < |first + rest| - 1
        ensures var t := first + rest;
                !(t[i] == '-' && t[i + 1] == '-') && !(t[i] == '/' && t[i + 1] == '*')
      {
        if i >= |first| { assert (first + rest)[i] == rest[i - |first|]; }
      }
    }
  }

  lemma QuotedIsPlain(name: string)
    requires Plain(name)
    ensures Plain(Quoted(name) + ".")
  {
    DoubledIsPlain(name);
  }

  // A text in which the name, qualified, is matched across an empty string or comment.
  lemma CoveringText(name: string) returns (contents: string)
    requires Plain(name) && !SingleBlanks(Quoted(name))
    ensures Qualifies(CodeMask(contents), name, 0) && !AllCode(CodeOf(contents), 0, |Quoted(name)|)
  {
    hide Quoted, Divide, Mask, IsCode, TokenEnd, CodeMask, CodeOf, Plain, IsLineEnd;
    var q := Quoted(name);
    QuotedIsPlain(name);
    var i :| 0 <= i < |q| - 1 && q[i] == ' ' && (q[i + 1] == ' ' || IsLineEnd(q[i + 1]));
    var n := if q[i + 1] == ' ' then 2 else 1;
    var token, after := if n == 2 then "''" else "#", q[i + n..] + ".";
    contents := q[..i] + (token + after);
    BlanksBetween(q, i, n);
    EmptyTokenMasked(q[..i], token, after);
    QualifiesInFront(name);
    assert !CodeOf(contents)[i];
  }

  lemma BlanksBetween(q: string, i: nat, n: nat)
    requires Plain(q + ".") && i + n <= |q| && forall k | i <= k < i + n :: q[k] == ' '
    ensures Plain(q[..i]) && Plain(q[i + n..] + ".") && q[..i] + Blanks(n) + (q[i + n..] + ".") == q + "."
  {
    hide Plain;
    PlainPieces(q + ".", i, i + n);
    assert (q + ".")[..i] == q[..i] && (q + ".")[i + n..] == q[i + n..] + ".";
    BlanksAreThere(q, i, n);
  }

  lemma QualifiesInFront(name: string)
    ensures Qualifies(Quoted(name) + ".", name, 0)
  {
    hide Quoted;
    var q := Quoted(name);
    assert (q + ".")[0..|q|] == q;
  }

  lemma EmptyTokenMasked(before: string, token: string, after: string)
    requires Plain(before) && Plain(after) && after != ""
    requires token == "''" || (token == "#" && IsLineEnd(after[0]))
    ensures var contents := before + (token + after);
            && CodeMask(contents) == before + Blanks(|token|) + after
            && |CodeOf(contents)| == |contents| && !CodeOf(contents)[|before|]
  {
    hide Divide, Mask, IsCode, TokenEnd, CodeMask, CodeOf, Plain, IsLineEnd;
    NotAQuote(after);
    EmptyToken(token, after);
    PlainInFront(before, token + after);
    TokenInFront(token + after, |token|);
    assert (token + after)[|token|..] == after;
    PlainInFront(after, "");
    assert after + "" == after;
    NothingToMask();
  }

  lemma NotAQuote(text: string)
    requires Plain(text) && text != ""
    ensures text[0] != '\''
  {
  }

  lemma NothingToMask()
    ensures CodeMask("") == "" && CodeOf("") == []
  {
  }

  lemma PlainPieces(text: string, i: nat, j: nat)
    requires Plain(text) && i <= j <= |text|
    ensures Plain(text[..i]) && Plain(text[j..])
  {
  }

  lemma EmptyToken(token: string, after: string)
    requires token == "''" || (token == "#" && after != "" && IsLineEnd(after[0]))
    requires after != "" && after[0] != '\''
    ensures TokenEnd(token + after) == Some(|token|) && Opening((token + after)[..|token|]) == 0
  {
    var text := token + after;
    if token == "''" {
      assert text[0] == '\'' && text[1] == '\'' && text[2] == after[0];
      assert StringEnd(text, 1) == Some(2);
    } else {
      assert text[0] == '#' && text[1] == after[0];
      assert LineEnd(text, 1) == 1;
    }
    assert text[..|token|] == token;
  }

  // For example: a name with four blanks is found across a comment, which is then replaced along with it.
  lemma BlankNameCanCoverComment()
    ensures var contents := "`a/**/b`.t";
            Qualifies(CodeMask(contents), "a    b", 0) && !AllCode(CodeOf(contents), 0, |Quoted("a    b")|)
  {
    hide Divide, Mask, IsCode, TokenEnd, CodeMask, CodeOf, Quoted, Plain;
    var before, token, after := "`a", "/**/", "b`.t";
    PlainExample();
    PlainInFront(before, token + after);
    CommentExample();
    TokenInFront(token + after, 4);
    PlainInFront(after, "");
    NothingToMask();
    assert after + "" == after && (token + after)[4..] == after;
    assert before + (token + after) == "`a/**/b`.t";
    QuotedExample();
    var q := "`a    b`";
    assert before + (Blanks(4) + after) == q + ".t";
    assert (q + ".t")[0..|q|] == q;
    assert !CodeOf("`a/**/b`.t")[2];
  }

  lemma PlainExample()
    ensures Plain("`a") && Plain("b`.t")
  {
  }

  lemma CommentExample()
    ensures TokenEnd("/**/" + "b`.t") == Some(4) && Opening(("/**/" + "b`.t")[..4]) == 0
  {
    var text := "/**/" + "b`.t";
    assert text == ['/', '*', '*', '/', 'b', '`', '.', 't'];
    assert text[0] == '/' && text[1] == '*' && text[2] == '*' && text[3] == '/';
    assert text[..2] == "/*" && text[..3] != "/*!";
    assert "/*" <= text && !("/*!" <= text);
    assert text[2..4] == "*/";
    assert CommentEnd(text, 2) == Some(4);
    assert text[..4] == ['/', '*', '*', '/'];
  }

  lemma QuotedExample()
    ensures Quoted("a    b") == "`a    b`"
  {
    assert Doubled("b") == "b";
    assert Doubled(" b") == " b";
    assert Doubled("  b") == "  b";
    assert Doubled("   b") == "   b";
    assert Doubled("    b") == "    b";
    assert Doubled("a    b") == "a    b";
  }
}
