/** Strings, comments and code of an SQL text, as the renamer of pitr.utils.ts:100-109 sees them, and the copy of the
    text in which everything but code is blank. */
module SqlParts {
  import opened Wrappers

  // ---------------------------------------------------------------- the mask

  // Code, a protected part (string or comment), or a comment whose inside is executed.
  datatype Part =
    | Code(text: string)
    | Protected(text: string)
    | Executable(open: string, inner: seq<Part>, close: string)

  function Text(parts: seq<Part>): string {
    if parts == [] then ""
    else
      (match parts[0]
       case Code(text) => text
       case Protected(text) => text
       case Executable(open, inner, close) => open + Text(inner) + close) + Text(parts[1..])
  }

  // ' '.repeat(n)
  function Blanks(n: nat): (b: string)
    ensures |b| == n && forall i | 0 <= i < n :: b[i] == ' '
  {
    seq(n, i => ' ')
  }

  // sqlCodeMask
  function Mask(parts: seq<Part>): string {
    if parts == [] then ""
    else
      (match parts[0]
       case Code(text) => text
       case Protected(text) => Blanks(|text|)
       case Executable(open, inner, close) => Blanks(|open|) + Mask(inner) + Blanks(|close|)) + Mask(parts[1..])
  }

  // Which positions of the text are code.
  function IsCode(parts: seq<Part>): (code: seq<bool>)
    ensures |code| == |Text(parts)|
  {
    if parts == [] then []
    else
      (match parts[0]
       case Code(text) => seq(|text|, i => true)
       case Protected(text) => seq(|text|, i => false)
       case Executable(open, inner, close) => seq(|open|, i => false) + IsCode(inner) + seq(|close|, i => false))
      + IsCode(parts[1..])
  }

  // Every position of the mask is what the text has there if it is code, and blank otherwise.
  predicate Masks(mask: string, text: string, code: seq<bool>) {
    |mask| == |text| == |code| && forall i | 0 <= i < |text| :: mask[i] == if code[i] then text[i] else ' '
  }

  lemma MasksJoin(m1: string, t1: string, c1: seq<bool>, m2: string, t2: string, c2: seq<bool>)
    requires Masks(m1, t1, c1) && Masks(m2, t2, c2)
    ensures Masks(m1 + m2, t1 + t2, c1 + c2)
  {
  }

  lemma {:induction false} MaskIsExact(parts: seq<Part>)
    ensures Masks(Mask(parts), Text(parts), IsCode(parts))
    decreases parts
  {
    hide Masks;
    if parts == [] {
      assert Masks("", "", []) by { NothingMasked(); }
    } else {
      MaskIsExact(parts[1..]);
      var part := [parts[0]];
      match parts[0] {
        case Code(text) => CodeMasked(text);
          MasksJoin(text, text, seq(|text|, i => true), Mask(parts[1..]), Text(parts[1..]), IsCode(parts[1..]));
        case Protected(text) => TextMasked(text);
          MasksJoin(Blanks(|text|), text, seq(|text|, i => false), Mask(parts[1..]), Text(parts[1..]),
                    IsCode(parts[1..]));
        case Executable(open, inner, close) =>
          TextMasked(open);
          TextMasked(close);
          MaskIsExact(inner);
          MasksJoin(Blanks(|open|), open, seq(|open|, i => false), Mask(inner), Text(inner), IsCode(inner));
          MasksJoin(Blanks(|open|) + Mask(inner), open + Text(inner), seq(|open|, i => false) + IsCode(inner),
                    Blanks(|close|), close, seq(|close|, i => false));
          MasksJoin(Blanks(|open|) + Mask(inner) + Blanks(|close|), open + Text(inner) + close,
                    seq(|open|, i => false) + IsCode(inner) + seq(|close|, i => false),
                    Mask(parts[1..]), Text(parts[1..]), IsCode(parts[1..]));
      }
    }
  }

  lemma NothingMasked()
    ensures Masks("", "", [])
  {
  }

  lemma CodeMasked(text: string)
    ensures Masks(text, text, seq(|text|, i => true))
  {
  }

  lemma TextMasked(text: string)
    ensures Masks(Blanks(|text|), text, seq(|text|, i => false))
  {
  }

  // ---------------------------------------------------------------- the form of the parts

  predicate IsLineEnd(c: char) { c == '\r' || c == '\n' }

  predicate IsString(text: string) {
    |text| >= 2 && (text[0] == '\'' || text[0] == '"') && text[|text| - 1] == text[0]
  }

  predicate IsBlockComment(text: string) {
    |text| >= 4 && text[..2] == "/*" && text[|text| - 2..] == "*/"
    && text[2] != '!' && !((text[2] == 'M' || text[2] == 'm') && text[3] == '!')
  }

  // A comment up to the end of its line; `next` is the text behind it.
  predicate IsLineComment(text: string, next: string) {
    && (forall i | 0 <= i < |text| :: !IsLineEnd(text[i]))
    && ((|text| >= 1 && text[0] == '#') || (|text| >= 3 && text[..2] == "--" && (text[2] == ' ' || text[2] == '\t')))
    && (next == "" || IsLineEnd(next[0]))
  }

  predicate Digits(text: string) { |text| <= 6 && forall i | 0 <= i < |text| :: '0' <= text[i] <= '9' }

  predicate IsOpening(open: string) {
    || (|open| >= 3 && open[..3] == "/*!" && Digits(open[3..]))
    || (|open| >= 4 && open[..2] == "/*" && (open[2] == 'M' || open[2] == 'm') && open[3] == '!' && Digits(open[4..]))
  }

  // Every part has the form that the pattern for protected parts gives it.
  predicate WellFormed(parts: seq<Part>)
    decreases parts
  {
    parts == [] ||
    (&& WellFormed(parts[1..])
     && match parts[0]
        case Code(_) => true
        case Protected(text) => IsString(text) || IsBlockComment(text) || IsLineComment(text, Text(parts[1..]))
        case Executable(open, inner, close) => IsOpening(open) && WellFormed(inner) && close == "*/")
  }

  // A position outside code, with code on both sides of it.
  predicate Lone(code: seq<bool>, i: nat) {
    i + 1 < |code| && !code[i] && code[i + 1] && (i == 0 || code[i - 1])
  }

  // The text and the code positions of a list of parts, in front of the rest.
  lemma FirstPart(parts: seq<Part>)
    requires parts != []
    ensures match parts[0]
            case Code(text) =>
              && Text(parts) == text + Text(parts[1..])
              && IsCode(parts) == seq(|text|, i => true) + IsCode(parts[1..])
            case Protected(text) =>
              && Text(parts) == text + Text(parts[1..])
              && IsCode(parts) == seq(|text|, i => false) + IsCode(parts[1..])
            case Executable(open, inner, close) =>
              && Text(parts) == open + Text(inner) + close + Text(parts[1..])
              && IsCode(parts) == seq(|open|, i => false) + IsCode(inner) + seq(|close|, i => false)
                 + IsCode(parts[1..])
  {
  }

  // Where a lone position of a list can lie.
  lemma LoneInRest(head: seq<bool>, rest: seq<bool>, i: nat)
    requires Lone(head + rest, i)
    ensures i >= |head| ==> Lone(rest, i - |head|)
  {
  }

  lemma LoneInMiddle(before: nat, inner: seq<bool>, after: nat, rest: seq<bool>, i: nat)
    requires before >= 2 && after >= 2 && i < before + |inner| + after
    requires Lone(seq(before, k => false) + inner + seq(after, k => false) + rest, i)
    ensures before <= i && i - before + 1 < |inner| && Lone(inner, i - before)
  {
    var code := seq(before, k => false) + inner + seq(after, k => false) + rest;
    assert forall k | 0 <= k < before :: !code[k];
    assert forall k | before + |inner| <= k < before + |inner| + after :: !code[k];
    assert forall k | 0 <= k < |inner| :: code[before + k] == inner[k];
  }

  lemma LoneSomewhere(parts: seq<Part>, i: nat)
    requires Lone(IsCode(parts), i)
    ensures parts != []
  {
  }

  // The only part that leaves a single blank is a bare `#` at the end of its line.
  lemma {:induction false} LoneIsBeforeLineEnd(parts: seq<Part>, i: nat)
    requires WellFormed(parts) && Lone(IsCode(parts), i)
    ensures IsLineEnd(Text(parts)[i + 1])
    decreases parts
  {
    hide IsString, IsBlockComment, IsLineComment, IsLineEnd, Text, IsCode, Lone;
    LoneSomewhere(parts, i);
    FirstPart(parts);
    var rest := parts[1..];
    match parts[0] {
      case Code(text) =>
        LoneInRest(seq(|text|, k => true), IsCode(rest), i);
        NoLoneInCode(|text|, IsCode(rest), i);
        LoneIsBeforeLineEnd(rest, i - |text|);
      case Protected(text) =>
        LoneInRest(seq(|text|, k => false), IsCode(rest), i);
        ShortTokens(text, Text(rest));
        if i >= |text| { LoneIsBeforeLineEnd(rest, i - |text|); } else { LoneIsAll(|text|, IsCode(rest), i); }
      case Executable(open, inner, close) =>
        var head := seq(|open|, k => false) + IsCode(inner) + seq(|close|, k => false);
        if i >= |head| {
          LoneInRest(head, IsCode(rest), i);
          LoneIsBeforeLineEnd(rest, i - |head|);
        } else {
          LoneInMiddle(|open|, IsCode(inner), |close|, IsCode(rest), i);
          LoneIsBeforeLineEnd(inner, i - |open|);
        }
    }
  }

  lemma NoLoneInCode(n: nat, rest: seq<bool>, i: nat)
    requires Lone(seq(n, k => true) + rest, i)
    ensures i >= n
  {
  }

  lemma LoneIsAll(n: nat, rest: seq<bool>, i: nat)
    requires i < n && Lone(seq(n, k => false) + rest, i)
    ensures n == 1 && i == 0 && rest != []
  {
    var code := seq(n, k => false) + rest;
    assert forall k | 0 <= k < n :: !code[k];
  }

  // Strings and comments have at least two characters, except `#`.
  lemma ShortTokens(text: string, next: string)
    requires IsString(text) || IsBlockComment(text) || IsLineComment(text, next)
    ensures |text| >= 1
    ensures |text| == 1 ==> next == "" || IsLineEnd(next[0])
  {
  }

  // ---------------------------------------------------------------- the division of a text

  // The dot of a pattern stands for everything else.
  predicate IsLineTerminator(c: char) { IsLineEnd(c) || c as int == 0x2028 || c as int == 0x2029 }

  // Where the string that the text begins with ends, when everything before position i is inside it. A backslash
  // takes the next character with it and two quotes stand for one, unless the string could then not be closed.
  function StringEnd(text: string, i: nat): (end: Option<nat>)
    requires text != ""
    ensures end.Some? ==> i < end.value <= |text| && text[end.value - 1] == text[0]
    decreases |text| - i
  {
    if i >= |text| then None
    else
      var escaped := i + 1 < |text| && text[i] == '\\' && !IsLineTerminator(text[i + 1]);
      var doubled := i + 1 < |text| && text[i] == text[0] && text[i + 1] == text[0];
      var further := if escaped || doubled then StringEnd(text, i + 2) else None;
      if further.Some? then further
      else if text[i] != text[0] then StringEnd(text, i + 1)
      else Some(i + 1)
  }

  // The end of the first `*/` from position i on.
  function CommentEnd(text: string, i: nat): (end: Option<nat>)
    ensures end.Some? ==> i + 2 <= end.value <= |text| && text[end.value - 2..end.value] == "*/"
    decreases |text| - i
  {
    if i + 2 > |text| then None else if text[i..i + 2] == "*/" then Some(i + 2) else CommentEnd(text, i + 1)
  }

  // The end of the line from position i on.
  function LineEnd(text: string, i: nat): (end: nat)
    requires i <= |text|
    ensures i <= end <= |text| && (end < |text| ==> IsLineEnd(text[end]))
    ensures forall k | i <= k < end :: !IsLineEnd(text[k])
    decreases |text| - i
  {
    if i == |text| || IsLineEnd(text[i]) then i else LineEnd(text, i + 1)
  }

  // The end of at most n digits from position i on.
  function DigitsEnd(text: string, i: nat, n: nat): (end: nat)
    requires i <= |text|
    ensures i <= end <= |text| && end <= i + n && forall k | i <= k < end :: '0' <= text[k] <= '9'
    decreases n
  {
    if n == 0 || i == |text| || !('0' <= text[i] <= '9') then i else DigitsEnd(text, i + 1, n - 1)
  }

  // The length of `/*!` or `/*M!` in front of a text, 0 without them.
  function Opening(text: string): (n: nat)
    ensures n <= |text|
  {
    if "/*!" <= text then 3
    else if |text| >= 4 && text[..2] == "/*" && (text[2] == 'M' || text[2] == 'm') && text[3] == '!' then 4
    else 0
  }

  // SQL_PROTECTED_PARTS at the beginning of the text: the end of what it matches.
  function TokenEnd(text: string): (end: Option<nat>)
    ensures end.Some? ==> 0 < end.value <= |text|
  {
    if text == "" then None
    else if text[0] == '\'' || text[0] == '"' then StringEnd(text, 1)
    else if "/*" <= text then CommentEnd(text, if Opening(text) > 0 then Opening(text) else 2)
    else if text[0] == '#' || "-- " <= text || "--\t" <= text then Some(LineEnd(text, 1))
    else None
  }

  // contents.split(SQL_PROTECTED_PARTS), with code in parts of one character.
  function Divide(text: string): (parts: seq<Part>)
    decreases |text|
  {
    if text == "" then []
    else
      var end := TokenEnd(text);
      if end.None? then [Code([text[0]])] + Divide(text[1..])
      else
        var token := text[..end.value];
        var n := Opening(token);
        if n == 0 || n + 2 > |token| then [Protected(token)] + Divide(text[end.value..])
        else
          var from := DigitsEnd(token, n, 6);
          if from + 2 > |token| then [Protected(token)] + Divide(text[end.value..])
          else
            [Executable(token[..from], Divide(token[from..|token| - 2]), token[|token| - 2..])]
              + Divide(text[end.value..])
  }

  // The mask of a text.
  function CodeMask(text: string): string { Mask(Divide(text)) }

  // Which of its positions are code.
  function CodeOf(text: string): seq<bool> { IsCode(Divide(text)) }

  // A part in front of a list of parts.
  lemma PutInFront(part: Part, parts: seq<Part>)
    ensures ([part] + parts)[0] == part && ([part] + parts)[1..] == parts
  {
  }

  lemma StringForm(text: string)
    requires text != "" && (text[0] == '\'' || text[0] == '"') && StringEnd(text, 1).Some?
    ensures var token := text[..StringEnd(text, 1).value]; Opening(token) == 0 && IsString(token)
  {
    hide StringEnd;
  }

  lemma CommentForm(text: string, end: nat)
    requires "/*" <= text && Opening(text) == 0 && 4 <= end <= |text| && text[end - 2..end] == "*/"
    ensures Opening(text[..end]) == 0 && IsBlockComment(text[..end])
  {
    var token := text[..end];
    assert token[..2] == text[..2];
    assert token[|token| - 2..] == text[end - 2..end];
    assert token[2] == '!' ==> "/*!" <= text;
  }

  lemma OpeningForm(text: string, end: nat)
    requires Opening(text) > 0 && Opening(text) + 2 <= end <= |text| && text[end - 2..end] == "*/"
    ensures var token := text[..end];
            && Opening(token) == Opening(text) && token[|token| - 2..] == "*/"
            && var from := DigitsEnd(token, Opening(token), 6);
               from + 2 <= |token| && IsOpening(token[..from])
  {
    hide DigitsEnd;
    var token, n := text[..end], Opening(text);
    assert token[..n] == text[..n];
    assert "/*!" <= text <==> n == 3;
    assert token[|token| - 2..] == text[end - 2..end];
    var from := DigitsEnd(token, n, 6);
    var star := |token| - 2;
    assert token[star] == '*';
    OpeningDigits(token, n, from);
  }

  lemma OpeningDigits(token: string, n: nat, from: nat)
    requires Opening(token) == n > 0 && n <= from <= |token| && from <= n + 6
    requires forall k | n <= k < from :: '0' <= token[k] <= '9'
    ensures IsOpening(token[..from])
  {
    var open := token[..from];
    assert open[n..] == token[n..from];
    assert open[..n] == token[..n];
    assert open[..2] == token[..2];
  }

  lemma LineForm(text: string)
    requires text != "" && (text[0] == '#' || "-- " <= text || "--\t" <= text)
    ensures var end := LineEnd(text, 1);
            Opening(text[..end]) == 0 && IsLineComment(text[..end], text[end..])
  {
    hide LineEnd;
    var end := LineEnd(text, 1);
    var token := text[..end];
    assert token[0] == text[0] != '/';
    if text[0] != '#' {
      assert text[0] == '-' && text[1] == '-';
      assert end >= 3;
      assert token[..2] == text[..2] == "--";
    }
  }

  lemma TokenForm(text: string)
    requires TokenEnd(text).Some?
    ensures var token, next := text[..TokenEnd(text).value], text[TokenEnd(text).value..];
            if Opening(token) == 0 then IsString(token) || IsBlockComment(token) || IsLineComment(token, next)
            else
              && Opening(token) + 2 <= |token| && token[|token| - 2..] == "*/"
              && var from := DigitsEnd(token, Opening(token), 6);
                 from + 2 <= |token| && IsOpening(token[..from])
  {
    hide StringEnd, CommentEnd, LineEnd, DigitsEnd, Opening, IsString, IsBlockComment, IsLineComment, IsOpening;
    var end := TokenEnd(text).value;
    if text[0] == '\'' || text[0] == '"' {
      StringForm(text);
    } else if "/*" <= text {
      if Opening(text) > 0 { OpeningForm(text, end); } else { CommentForm(text, end); }
    } else {
      LineForm(text);
    }
  }

  lemma CodeJoins(text: string, parts: seq<Part>)
    requires WellFormed(parts)
    ensures Text([Code(text)] + parts) == text + Text(parts) && WellFormed([Code(text)] + parts)
  {
    PutInFront(Code(text), parts);
  }

  lemma ProtectedJoins(token: string, parts: seq<Part>)
    requires WellFormed(parts)
    requires IsString(token) || IsBlockComment(token) || IsLineComment(token, Text(parts))
    ensures Text([Protected(token)] + parts) == token + Text(parts) && WellFormed([Protected(token)] + parts)
  {
    hide IsString, IsBlockComment, IsLineComment;
    PutInFront(Protected(token), parts);
  }

  lemma ExecutableJoins(open: string, inner: seq<Part>, parts: seq<Part>)
    requires IsOpening(open) && WellFormed(inner) && WellFormed(parts)
    ensures Text([Executable(open, inner, "*/")] + parts) == open + Text(inner) + "*/" + Text(parts)
    ensures WellFormed([Executable(open, inner, "*/")] + parts)
  {
    hide IsOpening;
    PutInFront(Executable(open, inner, "*/"), parts);
  }

  // The division loses nothing, and its parts have the form that is expected of them.
  lemma {:induction false} DivideIsExact(text: string)
    ensures Text(Divide(text)) == text && WellFormed(Divide(text))
    decreases |text|
  {
    hide TokenEnd, Opening, DigitsEnd, IsString, IsBlockComment, IsLineComment, IsOpening, Text, WellFormed;
    if text == "" {
      EmptyIsExact();
    } else {
      var end := TokenEnd(text);
      if end.None? {
        DivideIsExact(text[1..]);
        CodeJoins([text[0]], Divide(text[1..]));
      } else {
        TokenForm(text);
        var token, rest := text[..end.value], text[end.value..];
        DivideIsExact(rest);
        if Opening(token) == 0 {
          ProtectedJoins(token, Divide(rest));
        } else {
          var from := DigitsEnd(token, Opening(token), 6);
          var inner := token[from..|token| - 2];
          DivideIsExact(inner);
          ExecutableJoins(token[..from], Divide(inner), Divide(rest));
          assert token == token[..from] + inner + "*/";
        }
      }
    }
  }

  lemma EmptyIsExact()
    ensures Text([]) == "" && WellFormed([])
  {
  }

  // sqlCodeMask: the mask has what the text has at every position of code, and a blank at every other one.
  lemma CodeMaskIsExact(text: string)
    ensures Masks(CodeMask(text), text, CodeOf(text))
  {
    hide Mask, IsCode, Text, Masks;
    DivideIsExact(text);
    MaskIsExact(Divide(text));
  }

  // ---------------------------------------------------------------- plain text

  // No string or comment begins in it.
  predicate Plain(text: string) {
    && (forall i | 0 <= i < |text| :: text[i] != '\'' && text[i] != '"' && text[i] != '#')
    && forall i | 0 <= i < |text| - 1 ::
         !(text[i] == '-' && text[i + 1] == '-') && !(text[i] == '/' && text[i + 1] == '*')
  }

  // A character of code in front of a text.
  lemma CodeInFront(text: string)
    requires text != "" && TokenEnd(text) == None
    ensures CodeMask(text) == [text[0]] + CodeMask(text[1..])
    ensures CodeOf(text) == [true] + CodeOf(text[1..])
  {
    hide TokenEnd, Opening, DigitsEnd, Mask, IsCode;
    CodeHead(text[0], Divide(text[1..]));
  }

  lemma CodeHead(c: char, parts: seq<Part>)
    ensures Mask([Code([c])] + parts) == [c] + Mask(parts) && IsCode([Code([c])] + parts) == [true] + IsCode(parts)
  {
    PutInFront(Code([c]), parts);
  }

  // Plain text is code, whatever follows it, unless it is continued to the beginning of a comment.
  lemma {:induction false} PlainInFront(plain: string, rest: string)
    requires Plain(plain) && (rest == "" || (rest[0] != '-' && rest[0] != '*'))
    ensures CodeMask(plain + rest) == plain + CodeMask(rest)
    ensures CodeOf(plain + rest) == seq(|plain|, i => true) + CodeOf(rest)
    decreases plain
  {
    hide TokenEnd, CodeMask, CodeOf;
    var text := plain + rest;
    if plain == "" {
      assert text == rest;
    } else {
      PlainInFront(plain[1..], rest);
      assert text[1..] == plain[1..] + rest;
      NoToken(plain, rest);
      CodeInFront(text);
      assert plain == [plain[0]] + plain[1..];
    }
  }

  lemma NoToken(plain: string, rest: string)
    requires plain != "" && Plain(plain) && (rest == "" || (rest[0] != '-' && rest[0] != '*'))
    ensures TokenEnd(plain + rest) == None
  {
    var text := plain + rest;
    assert text[0] == plain[0];
    if |text| > 1 { assert text[1] == if |plain| > 1 then plain[1] else rest[0]; }
    assert !("/*" <= text) && !("-- " <= text) && !("--\t" <= text);
  }

  // A string or comment in front of a text.
  lemma TokenInFront(text: string, n: nat)
    requires TokenEnd(text) == Some(n) && n <= |text| && Opening(text[..n]) == 0
    ensures CodeMask(text) == Blanks(n) + CodeMask(text[n..])
    ensures CodeOf(text) == seq(n, i => false) + CodeOf(text[n..])
  {
    hide TokenEnd, Opening, DigitsEnd, Mask, IsCode;
    TokenHead(text[..n], Divide(text[n..]));
  }

  lemma TokenHead(token: string, parts: seq<Part>)
    ensures Mask([Protected(token)] + parts) == Blanks(|token|) + Mask(parts)
    ensures IsCode([Protected(token)] + parts) == seq(|token|, i => false) + IsCode(parts)
  {
    PutInFront(Protected(token), parts);
  }
}
