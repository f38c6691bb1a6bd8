/** Words, strings and comments as SQL spells them, and what the two scanners make of them: the stream scanner of
    backup.service.ts:1348-1374 and the mask of pitr.utils.ts:100-109. */
module SqlLexemes {
  import opened Wrappers
  import SqlStream
  import SqlParts

  // ---------------------------------------------------------------- spelling

  // A piece of the inside of a string: a character that stands for itself, one behind a backslash, or the quote, twice.
  datatype Item = Itself(c: char) | Escaped(c: char) | Twice

  function Piece(item: Item, quote: char): string {
    match item case Itself(c) => [c] case Escaped(c) => ['\\', c] case Twice => [quote, quote]
  }

  function Inside(items: seq<Item>, quote: char): string {
    if items == [] then "" else Piece(items[0], quote) + Inside(items[1..], quote)
  }

  predicate Spellable(items: seq<Item>, quote: char) {
    forall i | 0 <= i < |items| && items[i].Itself? :: items[i].c != quote && items[i].c != '\\'
  }

  // A string: the quote, the inside, the quote.
  function Literal(quote: char, items: seq<Item>): string { [quote] + Inside(items, quote) + [quote] }

  predicate NotThere(text: string, c: char) { forall i | 0 <= i < |text| :: text[i] != c }

  predicate NoBlockEnd(body: string) { forall i | 0 <= i < |body| - 1 :: !(body[i] == '*' && body[i + 1] == '/') }

  // ---------------------------------------------------------------- the stream scanner

  lemma {:induction false} ThroughString(s: string, i: nat, items: seq<Item>, quote: char, tail: string, b: nat)
    requires i <= |s| && s[i..] == Inside(items, quote) + tail && Spellable(items, quote) && quote != '\\'
    ensures SqlStream.CutFrom(s, i, SqlStream.Quoted(quote), b)
       <==> SqlStream.CutFrom(s, i + |Inside(items, quote)|, SqlStream.Quoted(quote), b)
    decreases items
  {
    hide SqlStream.CutFrom, Inside, Piece;
    if items == [] {
      NothingInside(quote);
    } else {
      var n := |Piece(items[0], quote)|;
      InsideHead(items, quote, tail);
      Suffix(s, i, n);
      PieceStep(s, i, items[0], quote);
      UnfoldOnce(s, i, SqlStream.Quoted(quote), b);
      ThroughString(s, i + n, items[1..], quote, tail, b);
    }
  }

  // The scanner passes one piece of a string at a time.
  lemma PieceStep(s: string, i: nat, item: Item, quote: char)
    requires quote != '\\' && (item.Itself? ==> item.c != quote && item.c != '\\')
    requires i + |Piece(item, quote)| <= |s| && s[i..i + |Piece(item, quote)|] == Piece(item, quote)
    ensures i < |s| && SqlStream.Step(s, i, SqlStream.Quoted(quote))
                       == (i + |Piece(item, quote)|, SqlStream.Quoted(quote))
  {
    var piece := s[i..i + |Piece(item, quote)|];
    assert s[i] == piece[0] && (|piece| == 2 ==> s[i + 1] == piece[1]);
  }

  // Behind a prefix that leads back to code, the cuts are those of the rest.
  lemma Onwards(s: string, n: nat, rest: string, b: nat)
    requires n <= |s| && s[n..] == rest
    ensures SqlStream.CutFrom(s, n, SqlStream.Code, b) <==> b > n && SqlStream.IsCut(rest, b - n)
  {
    if b > n {
      SqlStream.Forgets(s, n, 0, SqlStream.Code, b - n);
    } else if SqlStream.CutFrom(s, n, SqlStream.Code, b) {
      SqlStream.CutEndsInTerminator(s, n, SqlStream.Code, b);
    }
  }

  // No terminator lies in a string, however its quotes are escaped, and the scan goes on behind it.
  lemma StringHasNoCut(quote: char, items: seq<Item>, rest: string, b: nat)
    requires quote in {'\'', '"', '`'} && Spellable(items, quote) && (rest == "" || rest[0] != quote)
    ensures var n := |Literal(quote, items)|;
            SqlStream.IsCut(Literal(quote, items) + rest, b) <==> b > n && SqlStream.IsCut(rest, b - n)
  {
    hide SqlStream.CutFrom, SqlStream.IsSpace;
    var s, n := Literal(quote, items) + rest, |Literal(quote, items)|;
    assert s[1..] == Inside(items, quote) + ([quote] + rest);
    UnfoldOnce(s, 0, SqlStream.Code, b);
    ThroughString(s, 1, items, quote, [quote] + rest, b);
    assert s[n..] == rest && s[n - 1] == quote;
    UnfoldOnce(s, n - 1, SqlStream.Quoted(quote), b);
    Onwards(s, n, rest, b);
  }

  lemma UnfoldOnce(s: string, i: nat, mode: SqlStream.Mode, b: nat)
    requires i < |s|
    ensures SqlStream.CutFrom(s, i, mode, b) <==>
              || (mode == SqlStream.Code && s[i] == ';' && b == i + 1)
              || SqlStream.CutFrom(s, SqlStream.Step(s, i, mode).0, SqlStream.Step(s, i, mode).1, b)
  {
  }

  // A string that is never closed hides everything.
  lemma OpenStringHasNoCut(quote: char, items: seq<Item>, b: nat)
    requires quote in {'\'', '"', '`'} && Spellable(items, quote)
    ensures !SqlStream.IsCut([quote] + Inside(items, quote), b)
  {
    hide SqlStream.CutFrom, SqlStream.IsSpace;
    var s := [quote] + Inside(items, quote);
    assert s[1..] == Inside(items, quote) + "";
    UnfoldOnce(s, 0, SqlStream.Code, b);
    ThroughString(s, 1, items, quote, "", b);
    SqlStream.NothingPassed(s, |s|, SqlStream.Quoted(quote), b);
  }

  lemma {:induction false} ThroughLine(s: string, i: nat, line: string, tail: string, b: nat)
    requires i <= |s| && s[i..] == line + tail && NotThere(line, '\n')
    ensures SqlStream.CutFrom(s, i, SqlStream.Line, b) <==> SqlStream.CutFrom(s, i + |line|, SqlStream.Line, b)
    decreases line
  {
    if line != "" {
      assert s[i] == s[i..][0] == line[0];
      assert s[i + 1..] == s[i..][1..] == line[1..] + tail;
      ThroughLine(s, i + 1, line[1..], tail, b);
    }
  }

  // What begins a comment up to the end of the line; the blank behind the dashes belongs to the line.
  predicate OpensLine(start: string, line: string) {
    start == "#" || (start == "--" && (line == "" || line[0] in {' ', '\t', '\r'}))
  }

  lemma LineHasNoCut(start: string, line: string, rest: string, b: nat)
    requires OpensLine(start, line) && NotThere(line, '\n')
    ensures var n := |start + line + "\n"|;
            SqlStream.IsCut(start + line + "\n" + rest, b) <==> b > n && SqlStream.IsCut(rest, b - n)
  {
    hide SqlStream.CutFrom;
    var s, n := start + line + "\n" + rest, |start + line + "\n"|;
    var k := |start|;
    assert s[..k] == start && s[k..] == line + ("\n" + rest) && s[k] == (line + "\n")[0];
    assert SqlStream.Step(s, 0, SqlStream.Code) == (k, SqlStream.Line);
    UnfoldOnce(s, 0, SqlStream.Code, b);
    ThroughLine(s, k, line, "\n" + rest, b);
    UnfoldOnce(s, n - 1, SqlStream.Line, b);
    assert s[n - 1] == '\n' && s[n..] == rest;
    Onwards(s, n, rest, b);
  }

  lemma LastLineHasNoCut(start: string, line: string, b: nat)
    requires OpensLine(start, line) && NotThere(line, '\n') && (start == "--" ==> line != "")
    ensures !SqlStream.IsCut(start + line, b)
  {
    hide SqlStream.CutFrom;
    var s, k := start + line, |start|;
    assert s[..k] == start && s[k..] == line + "";
    assert SqlStream.Step(s, 0, SqlStream.Code) == (k, SqlStream.Line);
    UnfoldOnce(s, 0, SqlStream.Code, b);
    ThroughLine(s, k, line, "", b);
    SqlStream.NothingPassed(s, |s|, SqlStream.Line, b);
  }

  lemma {:induction false} ThroughBlock(s: string, i: nat, body: string, tail: string, b: nat)
    requires i <= |s| && s[i..] == body + tail && NoBlockEnd(body) && (tail == "" || tail[0] != '/')
    ensures SqlStream.CutFrom(s, i, SqlStream.Block, b) <==> SqlStream.CutFrom(s, i + |body|, SqlStream.Block, b)
    decreases body
  {
    if body != "" {
      assert s[i] == s[i..][0] == body[0];
      if i + 1 < |s| { assert s[i + 1] == s[i..][1] == (body + tail)[1]; }
      assert s[i + 1..] == s[i..][1..] == body[1..] + tail;
      ThroughBlock(s, i + 1, body[1..], tail, b);
    }
  }

  lemma BlockHasNoCut(body: string, rest: string, b: nat)
    requires NoBlockEnd(body)
    ensures var n := |"/*" + body + "*/"|;
            SqlStream.IsCut("/*" + body + "*/" + rest, b) <==> b > n && SqlStream.IsCut(rest, b - n)
  {
    hide SqlStream.CutFrom, SqlStream.IsSpace;
    var s, n := "/*" + body + "*/" + rest, |"/*" + body + "*/"|;
    assert s[0] == '/' && s[1] == '*' && s[2..] == body + ("*/" + rest);
    UnfoldOnce(s, 0, SqlStream.Code, b);
    ThroughBlock(s, 2, body, "*/" + rest, b);
    UnfoldOnce(s, n - 2, SqlStream.Block, b);
    assert s[n - 2] == '*' && s[n - 1] == '/' && s[n..] == rest;
    Onwards(s, n, rest, b);
  }

  lemma OpenBlockHasNoCut(body: string, b: nat)
    requires NoBlockEnd(body)
    ensures !SqlStream.IsCut("/*" + body, b)
  {
    hide SqlStream.CutFrom, SqlStream.IsSpace;
    var s := "/*" + body;
    assert s[0] == '/' && s[1] == '*' && s[2..] == body + "";
    UnfoldOnce(s, 0, SqlStream.Code, b);
    ThroughBlock(s, 2, body, "", b);
    SqlStream.NothingPassed(s, |s|, SqlStream.Block, b);
  }

  // Neither a string nor a comment begins at position i.
  predicate NothingOpens(s: string, i: nat)
    requires i < |s|
  {
    && s[i] !in {'\'', '"', '`', '#'}
    && !(s[i] == '/' && i + 1 < |s| && s[i + 1] == '*')
    && !(s[i] == '-' && i + 2 < |s| && s[i + 1] == '-' && SqlStream.IsSpace(s[i + 2]))
  }

  lemma {:induction false} ThroughWords(s: string, i: nat, n: nat, b: nat)
    requires i <= n <= |s| && forall k | i <= k < n :: NothingOpens(s, k)
    ensures SqlStream.CutFrom(s, i, SqlStream.Code, b)
       <==> (i < b <= n && s[b - 1] == ';') || SqlStream.CutFrom(s, n, SqlStream.Code, b)
    decreases n - i
  {
    hide SqlStream.IsSpace;
    if i < n {
      assert NothingOpens(s, i);
      assert SqlStream.Step(s, i, SqlStream.Code) == (i + 1, SqlStream.Code);
      ThroughWords(s, i + 1, n, b);
    }
  }

  // Elsewhere every `;` is a terminator, and nothing else is.
  lemma WordsAreCutAtSemicolons(words: string, rest: string, b: nat)
    requires forall k | 0 <= k < |words| :: NothingOpens(words + rest, k)
    ensures SqlStream.IsCut(words + rest, b) <==>
              || (0 < b <= |words| && words[b - 1] == ';')
              || (b > |words| && SqlStream.IsCut(rest, b - |words|))
  {
    hide SqlStream.CutFrom, NothingOpens;
    var s := words + rest;
    ThroughWords(s, 0, |words|, b);
    assert s[|words|..] == rest;
    Onwards(s, |words|, rest, b);
  }

  // ---------------------------------------------------------------- whole texts

  datatype Lexeme =
    | Words(text: string)
    | Text(quote: char, items: seq<Item>)
    | Remark(start: string, line: string)
    | Block(body: string)

  function Spelling(l: Lexeme): string {
    match l
    case Words(text) => text
    case Text(quote, items) => Literal(quote, items)
    case Remark(start, line) => start + line + "\n"
    case Block(body) => "/*" + body + "*/"
  }

  function SpellAll(ls: seq<Lexeme>): string { if ls == [] then "" else Spelling(ls[0]) + SpellAll(ls[1..]) }

  // Every lexeme is what it seems to be, also in front of what follows it.
  predicate Readable(ls: seq<Lexeme>) {
    ls == [] ||
    (&& Readable(ls[1..])
     && var rest := SpellAll(ls[1..]);
        match ls[0]
        case Words(text) => forall k | 0 <= k < |text| :: NothingOpens(text + rest, k)
        case Text(quote, items) =>
          quote in {'\'', '"', '`'} && Spellable(items, quote) && (rest == "" || rest[0] != quote)
        case Remark(start, line) => OpensLine(start, line) && NotThere(line, '\n')
        case Block(body) => NoBlockEnd(body))
  }

  // b lies just behind a `;` among the words.
  predicate BehindSemicolon(ls: seq<Lexeme>, b: nat) {
    ls != [] &&
    (|| (ls[0].Words? && 0 < b <= |ls[0].text| && ls[0].text[b - 1] == ';')
     || (b > |Spelling(ls[0])| && BehindSemicolon(ls[1..], b - |Spelling(ls[0])|)))
  }

  // The terminators of a text are the semicolons among its words.
  lemma {:induction false} CutsAreSemicolonsAmongWords(ls: seq<Lexeme>, b: nat)
    requires Readable(ls)
    ensures SqlStream.IsCut(SpellAll(ls), b) <==> BehindSemicolon(ls, b)
    decreases ls
  {
    hide SqlStream.CutFrom, NothingOpens, Spellable, Literal, NoBlockEnd, NotThere, OpensLine;
    if ls == [] {
      SqlStream.NothingPassed("", 0, SqlStream.Code, b);
    } else {
      var rest, n := SpellAll(ls[1..]), |Spelling(ls[0])|;
      if b > n { CutsAreSemicolonsAmongWords(ls[1..], b - n); }
      match ls[0]
      case Words(text) => WordsAreCutAtSemicolons(text, rest, b);
      case Text(quote, items) => StringHasNoCut(quote, items, rest, b);
      case Remark(start, line) => LineHasNoCut(start, line, rest, b);
      case Block(body) => BlockHasNoCut(body, rest, b);
    }
  }

  // ---------------------------------------------------------------- the mask of the renamer

  // One piece of the inside of a string is passed over.
  lemma StringStep(text: string, i: nat, item: Item, end: nat)
    requires text != "" && text[0] != '\\' && !SqlParts.IsLineTerminator(text[0])
    requires item.Itself? ==> item.c != text[0] && item.c != '\\'
    requires 0 < i && i + |Piece(item, text[0])| <= |text|
    requires text[i..i + |Piece(item, text[0])|] == Piece(item, text[0])
    requires SqlParts.StringEnd(text, i + |Piece(item, text[0])|) == Some(end)
    ensures SqlParts.StringEnd(text, i) == Some(end)
  {
    hide SqlParts.IsLineTerminator;
    var n := |Piece(item, text[0])|;
    assert text[i] == text[i..i + n][0] && (n == 2 ==> text[i + 1] == text[i..i + n][1]);
    if item.Escaped? && SqlParts.IsLineTerminator(item.c) { TerminatorInString(text, i + 1); }
  }

  lemma TerminatorInString(text: string, i: nat)
    requires 0 < i < |text| && SqlParts.IsLineTerminator(text[i])
    requires text[0] != '\\' && !SqlParts.IsLineTerminator(text[0])
    ensures SqlParts.StringEnd(text, i) == SqlParts.StringEnd(text, i + 1)
  {
  }

  lemma {:induction false} StringEndsAt(text: string, i: nat, items: seq<Item>, rest: string)
    requires text != "" && 0 < i <= |text| && text[0] != '\\' && !SqlParts.IsLineTerminator(text[0])
    requires text[i..] == Inside(items, text[0]) + ([text[0]] + rest)
    requires Spellable(items, text[0]) && (rest == "" || rest[0] != text[0])
    ensures SqlParts.StringEnd(text, i) == Some(i + |Inside(items, text[0])| + 1)
    decreases items
  {
    hide SqlParts.IsLineTerminator, SqlParts.StringEnd, Inside, Piece;
    var quote := text[0];
    if items == [] {
      NothingInside(quote);
      StringCloses(text, i, rest);
    } else {
      var n := |Piece(items[0], quote)|;
      InsideHead(items, quote, [quote] + rest);
      Suffix(text, i, n);
      StringEndsAt(text, i + n, items[1..], rest);
      StringStep(text, i, items[0], i + |Inside(items, quote)| + 1);
    }
  }

  lemma StringCloses(text: string, i: nat, rest: string)
    requires text != "" && text[0] != '\\' && 0 < i <= |text| && text[i..] == [text[0]] + rest
    requires rest == "" || rest[0] != text[0]
    ensures SqlParts.StringEnd(text, i) == Some(i + 1)
  {
    assert text[i] == text[i..][0] && (i + 1 < |text| ==> text[i + 1] == text[i..][1] == rest[0]);
  }

  lemma Suffix(text: string, i: nat, n: nat)
    requires i + n <= |text|
    ensures text[i + n..] == text[i..][n..] && text[i..i + n] == text[i..][..n]
  {
  }

  lemma NothingInside(quote: char)
    ensures Inside([], quote) == ""
  {
  }

  // The first piece of the inside of a string.
  lemma InsideHead(items: seq<Item>, quote: char, tail: string)
    requires items != []
    ensures var n, text := |Piece(items[0], quote)|, Inside(items, quote) + tail;
            && |Inside(items, quote)| == n + |Inside(items[1..], quote)|
            && text[n..] == Inside(items[1..], quote) + tail && text[..n] == Piece(items[0], quote)
  {
    hide Piece, Inside;
    InsideUnfolds(items, quote);
    Front(Piece(items[0], quote), Inside(items[1..], quote), tail);
  }

  lemma InsideUnfolds(items: seq<Item>, quote: char)
    requires items != []
    ensures Inside(items, quote) == Piece(items[0], quote) + Inside(items[1..], quote)
  {
  }

  lemma Front(head: string, middle: string, tail: string)
    ensures var text := head + middle + tail; text[|head|..] == middle + tail && text[..|head|] == head
  {
  }

  // A string becomes blanks, however its quotes are escaped.
  lemma StringIsMasked(quote: char, items: seq<Item>, rest: string)
    requires quote in {'\'', '"'} && Spellable(items, quote) && (rest == "" || rest[0] != quote)
    ensures var n := |Literal(quote, items)|;
            && SqlParts.CodeMask(Literal(quote, items) + rest) == SqlParts.Blanks(n) + SqlParts.CodeMask(rest)
            && SqlParts.CodeOf(Literal(quote, items) + rest) == seq(n, i => false) + SqlParts.CodeOf(rest)
  {
    hide SqlParts.CodeMask, SqlParts.CodeOf, SqlParts.StringEnd, Inside;
    var text, n := Literal(quote, items) + rest, |Literal(quote, items)|;
    assert text[1..] == Inside(items, quote) + ([quote] + rest);
    StringEndsAt(text, 1, items, rest);
    assert SqlParts.TokenEnd(text) == Some(n);
    assert text[..n][0] == quote;
    SqlParts.TokenInFront(text, n);
    assert text[n..] == rest;
  }

  lemma {:induction false} LineEndsAt(text: string, i: nat, n: nat)
    requires i <= n <= |text| && (forall k | i <= k < n :: text[k] !in {'\r', '\n'})
    requires n < |text| ==> text[n] in {'\r', '\n'}
    ensures SqlParts.LineEnd(text, i) == n
    decreases n - i
  {
    if i < n { LineEndsAt(text, i + 1, n); }
  }

  // So does the rest of a line behind `#`, or behind two dashes and a blank.
  lemma LineIsMasked(start: string, line: string, rest: string)
    requires start == "#" || (start == "--" && line != "" && line[0] in {' ', '\t'})
    requires NotThere(line, '\r') && NotThere(line, '\n') && (rest == "" || rest[0] in {'\r', '\n'})
    ensures var n := |start + line|;
            && SqlParts.CodeMask(start + line + rest) == SqlParts.Blanks(n) + SqlParts.CodeMask(rest)
            && SqlParts.CodeOf(start + line + rest) == seq(n, i => false) + SqlParts.CodeOf(rest)
  {
    hide SqlParts.CodeMask, SqlParts.CodeOf, SqlParts.LineEnd;
    var text, n := start + line + rest, |start + line|;
    assert text[..n] == start + line && text[n..] == rest;
    LineEndsAt(text, 1, n);
    if start == "--" {
      assert text[0] == '-' && text[1] == '-' && text[2] == line[0];
      assert text[..3] == "-- " || text[..3] == "--\t";
    }
    assert SqlParts.TokenEnd(text) == Some(n);
    SqlParts.TokenInFront(text, n);
  }

  lemma {:induction false} BlockEndsAt(text: string, i: nat, end: nat)
    requires i <= end && end + 2 <= |text| && text[end] == '*' && text[end + 1] == '/'
    requires forall k | i <= k < end :: !(text[k] == '*' && text[k + 1] == '/')
    ensures SqlParts.CommentEnd(text, i) == Some(end + 2)
    decreases end - i
  {
    assert text[i..i + 2] == [text[i], text[i + 1]];
    if i < end { BlockEndsAt(text, i + 1, end); }
  }

  lemma FirstBlockEnd(before: string, body: string, rest: string)
    requires NoBlockEnd(body)
    ensures var text, end := before + body + "*/" + rest, |before + body|;
            && end + 2 <= |text| && text[end] == '*' && text[end + 1] == '/'
            && forall k | |before| <= k < end :: !(text[k] == '*' && text[k + 1] == '/')
  {
    var text, end := before + body + "*/" + rest, |before + body|;
    forall k | |before| <= k < end ensures !(text[k] == '*' && text[k + 1] == '/') {
      assert text[k] == body[k - |before|];
      assert k + 1 < end ==> text[k + 1] == body[k + 1 - |before|];
    }
  }

  // And a comment, unless it is one whose inside is executed.
  lemma BlockIsMasked(body: string, rest: string)
    requires NoBlockEnd(body) && !("!" <= body) && !("M!" <= body) && !("m!" <= body)
    ensures var comment := "/*" + body + "*/";
            && SqlParts.CodeMask(comment + rest) == SqlParts.Blanks(|comment|) + SqlParts.CodeMask(rest)
            && SqlParts.CodeOf(comment + rest) == seq(|comment|, i => false) + SqlParts.CodeOf(rest)
  {
    hide SqlParts.CodeMask, SqlParts.CodeOf, SqlParts.CommentEnd;
    var comment := "/*" + body + "*/";
    var text, n := comment + rest, |comment|;
    assert text[..2] == "/*" && text[2..] == body + "*/" + rest;
    assert text[..n] == comment && text[n..] == rest && comment[..2] == "/*";
    NotOpening(body, rest);
    NotOpening(body, "");
    assert comment + "" == comment;
    FirstBlockEnd("/*", body, rest);
    BlockEndsAt(text, 2, n - 2);
    assert SqlParts.TokenEnd(text) == Some(n);
    SqlParts.TokenInFront(text, n);
  }

  lemma NotOpening(body: string, rest: string)
    requires !("!" <= body) && !("M!" <= body) && !("m!" <= body)
    ensures SqlParts.Opening("/*" + body + "*/" + rest) == 0
  {
    var text := "/*" + body + "*/" + rest;
    assert text[2] == (body + "*/")[0] && text[3] == (body + "*/")[1];
    assert body != "" ==> body[..1] == [body[0]];
    assert |body| >= 2 ==> body[..2] == [body[0], body[1]];
  }

  // The inside of a comment that MySQL or MariaDB executes, behind at most six digits, is masked like any text.
  lemma ExecutedIsSearched(open: string, digits: string, inner: string, rest: string)
    requires open in {"/*!", "/*M!", "/*m!"} && |digits| <= 6 && NoBlockEnd(inner)
    requires forall i | 0 <= i < |digits| :: '0' <= digits[i] <= '9'
    requires |digits| < 6 && inner != "" ==> !('0' <= inner[0] <= '9')
    ensures var n := |open + digits|;
            && SqlParts.CodeMask(open + digits + inner + "*/" + rest)
               == SqlParts.Blanks(n) + SqlParts.CodeMask(inner) + SqlParts.Blanks(2) + SqlParts.CodeMask(rest)
            && SqlParts.CodeOf(open + digits + inner + "*/" + rest)
               == seq(n, i => false) + SqlParts.CodeOf(inner) + seq(2, i => false) + SqlParts.CodeOf(rest)
  {
    hide SqlParts.CodeMask, SqlParts.CodeOf, SqlParts.TokenEnd, SqlParts.DigitsEnd, SqlParts.Opening;
    var token := open + digits + inner + "*/";
    var n, from := |token|, |open + digits|;
    ExecutedToken(open, digits, inner, rest);
    ExecutedInFront(token + rest, n, from);
    assert (token + rest)[from..n - 2] == inner && (token + rest)[n..] == rest;
  }

  lemma ExecutedToken(open: string, digits: string, inner: string, rest: string)
    requires open in {"/*!", "/*M!", "/*m!"} && |digits| <= 6 && NoBlockEnd(inner)
    requires forall i | 0 <= i < |digits| :: '0' <= digits[i] <= '9'
    requires |digits| < 6 && inner != "" ==> !('0' <= inner[0] <= '9')
    ensures var token := open + digits + inner + "*/";
            && SqlParts.TokenEnd(token + rest) == Some(|token|) && (token + rest)[..|token|] == token
            && SqlParts.Opening(token) == |open|
            && SqlParts.DigitsEnd(token, |open|, 6) == |open + digits|
  {
    hide SqlParts.CommentEnd, SqlParts.DigitsEnd, SqlParts.Opening, SqlParts.TokenEnd, NoBlockEnd;
    Regroup(open, digits, inner, "*/");
    DigitsHaveNoEnd(digits, inner);
    OpenedToken(open, digits + inner, rest);
    DigitsInside(open, digits, inner + "*/");
  }

  lemma Regroup(a: string, b: string, c: string, d: string)
    ensures a + (b + c) + d == a + b + c + d == a + b + (c + d)
  {
  }

  lemma OpenedToken(open: string, body: string, rest: string)
    requires open in {"/*!", "/*M!", "/*m!"} && NoBlockEnd(body)
    ensures var token := open + body + "*/";
            && SqlParts.TokenEnd(token + rest) == Some(|token|) && (token + rest)[..|token|] == token
            && SqlParts.Opening(token) == |open|
  {
    hide SqlParts.CommentEnd, SqlParts.Opening, SqlParts.TokenEnd, NoBlockEnd;
    var token := open + body + "*/";
    Regroup(open, body, "*/", rest);
    Regroup(open, body, "*/", "");
    Opens(open, body + "*/" + rest);
    Opens(open, body + "*/");
    assert open + (body + "*/" + rest) == token + rest;
    FirstBlockEnd(open, body, rest);
    BlockEndsAt(token + rest, |open|, |token| - 2);
    CommentToken(token + rest, |token|);
  }

  lemma Opens(open: string, rest: string)
    requires open in {"/*!", "/*M!", "/*m!"}
    ensures SqlParts.Opening(open + rest) == |open| && "/*" <= open + rest
  {
    var text := open + rest;
    assert text[0] == '/' && text[1] == '*' && text[2] == open[2] && (|open| == 4 ==> text[3] == '!');
    assert text[..2] == open[..2] == "/*";
    if open == "/*!" {
      assert text[..3] == "/*!";
    } else {
      assert text[..3][2] != '!';
    }
  }

  lemma CommentToken(text: string, end: nat)
    requires "/*" <= text && SqlParts.Opening(text) > 0
    requires SqlParts.CommentEnd(text, SqlParts.Opening(text)) == Some(end)
    ensures SqlParts.TokenEnd(text) == Some(end)
  {
  }

  lemma DigitsInside(open: string, digits: string, rest: string)
    requires |digits| <= 6 && forall i | 0 <= i < |digits| :: '0' <= digits[i] <= '9'
    requires rest != "" && (|digits| < 6 ==> !('0' <= rest[0] <= '9'))
    ensures SqlParts.DigitsEnd(open + digits + rest, |open|, 6) == |open + digits|
  {
    var text, k := open + digits + rest, |open|;
    assert forall i | 0 <= i < |digits| :: text[k + i] == digits[i];
    assert text[k + |digits|] == rest[0];
    forall i | k <= i < k + |digits| ensures '0' <= text[i] <= '9' { assert text[i] == digits[i - k]; }
    DigitsEndAt(text, k, k + |digits|, 6);
  }

  lemma DigitsHaveNoEnd(digits: string, inner: string)
    requires forall i | 0 <= i < |digits| :: '0' <= digits[i] <= '9'
    requires NoBlockEnd(inner)
    ensures NoBlockEnd(digits + inner)
  {
    var body := digits + inner;
    forall i | 0 <= i < |body| - 1 ensures !(body[i] == '*' && body[i + 1] == '/') {
      if i >= |digits| { assert body[i] == inner[i - |digits|] && body[i + 1] == inner[i + 1 - |digits|]; }
    }
  }

  lemma {:induction false} DigitsEndAt(text: string, i: nat, end: nat, n: nat)
    requires i <= end <= |text| && end <= i + n
    requires forall k | i <= k < end :: '0' <= text[k] <= '9'
    requires end == |text| || end == i + n || !('0' <= text[end] <= '9')
    ensures SqlParts.DigitsEnd(text, i, n) == end
    decreases n
  {
    if i < end { DigitsEndAt(text, i + 1, end, n - 1); }
  }

  // An executed comment in front of a text.
  lemma ExecutedInFront(text: string, n: nat, from: nat)
    requires SqlParts.TokenEnd(text) == Some(n) && n <= |text|
    requires var token := text[..n];
             && SqlParts.Opening(token) > 0 && SqlParts.Opening(token) + 2 <= n
             && from == SqlParts.DigitsEnd(token, SqlParts.Opening(token), 6) && from + 2 <= n
    ensures SqlParts.CodeMask(text)
              == SqlParts.Blanks(from) + SqlParts.CodeMask(text[from..n - 2]) + SqlParts.Blanks(2)
                 + SqlParts.CodeMask(text[n..])
    ensures SqlParts.CodeOf(text)
              == seq(from, i => false) + SqlParts.CodeOf(text[from..n - 2]) + seq(2, i => false)
                 + SqlParts.CodeOf(text[n..])
  {
    hide SqlParts.TokenEnd, SqlParts.Opening, SqlParts.DigitsEnd, SqlParts.Mask, SqlParts.IsCode;
    var token := text[..n];
    assert token[from..n - 2] == text[from..n - 2];
    ExecutedHead(token[..from], SqlParts.Divide(token[from..n - 2]), token[n - 2..], SqlParts.Divide(text[n..]));
  }

  lemma ExecutedHead(open: string, inner: seq<SqlParts.Part>, close: string, parts: seq<SqlParts.Part>)
    ensures var all := [SqlParts.Executable(open, inner, close)] + parts;
            && SqlParts.Mask(all)
               == SqlParts.Blanks(|open|) + SqlParts.Mask(inner) + SqlParts.Blanks(|close|) + SqlParts.Mask(parts)
            && SqlParts.IsCode(all)
               == seq(|open|, i => false) + SqlParts.IsCode(inner) + seq(|close|, i => false) + SqlParts.IsCode(parts)
  {
    SqlParts.PutInFront(SqlParts.Executable(open, inner, close), parts);
  }
}
