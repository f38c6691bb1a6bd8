/** The streaming scanner of backup.service.ts:1333-1394: SQL arrives in chunks, and every chunk is handled up to
    the last statement terminator that is certain to lie outside strings and comments. */
module SqlStream {
  import opened Wrappers
  import opened Sequences

  const LIMIT := 8 * 1024 * 1024

  datatype Mode = Code | Quoted(quote: char) | Line | Block

  predicate IsQuote(c: char) { c == '\'' || c == '"' || c == '`' }

  // What \s matches.
  predicate IsSpace(c: char) {
    var u := c as int;
    9 <= u <= 13 || u == 0x20 || u == 0xa0 || u == 0x1680 || 0x2000 <= u <= 0x200a || u == 0x2028 || u == 0x2029
    || u == 0x202f || u == 0x205f || u == 0x3000 || u == 0xfeff
  }

  // Position i of s holds c.
  predicate Has(s: string, i: nat, c: char) { i < |s| && s[i] == c }

  predicate StartsDashComment(s: string, i: nat) {
    Has(s, i, '-') && Has(s, i + 1, '-') && i + 2 < |s| && IsSpace(s[i + 2])
  }

  // One token: how far the scanner moves, and in which mode it goes on.
  function Step(s: string, i: nat, mode: Mode): (next: (nat, Mode))
    requires i < |s|
    ensures i < next.0 <= i + 2
  {
    match mode
    case Line => (i + 1, if s[i] == '\n' then Code else Line)
    case Block => if s[i] == '*' && Has(s, i + 1, '/') then (i + 2, Code) else (i + 1, Block)
    case Quoted(q) =>
      if s[i] == '\\' then (i + 2, mode)
      else if s[i] != q then (i + 1, mode)
      else if Has(s, i + 1, q) then (i + 2, mode)
      else (i + 1, Code)
    case Code =>
      if IsQuote(s[i]) then (i + 1, Quoted(s[i]))
      else if StartsDashComment(s, i) then (i + 2, Line)
      else if s[i] == '#' then (i + 1, Line)
      else if s[i] == '/' && Has(s, i + 1, '*') then (i + 2, Block)
      else (i + 1, Code)
  }

  // Scanning s from position i in the given mode passes a top-level `;` that ends at b.
  predicate CutFrom(s: string, i: nat, mode: Mode, b: nat)
    decreases |s| - i
  {
    i < |s| && ((mode == Code && s[i] == ';' && b == i + 1) || CutFrom(s, Step(s, i, mode).0, Step(s, i, mode).1, b))
  }

  // b is just behind a top-level terminator of s.
  predicate IsCut(s: string, b: nat) { CutFrom(s, 0, Code, b) }

  lemma {:induction false} CutEndsInTerminator(s: string, i: nat, mode: Mode, b: nat)
    requires CutFrom(s, i, mode, b)
    ensures i < b <= |s| && s[b - 1] == ';'
    decreases |s| - i
  {
    if !(mode == Code && s[i] == ';' && b == i + 1) {
      CutEndsInTerminator(s, Step(s, i, mode).0, Step(s, i, mode).1, b);
    }
  }

  // ---------------------------------------------------------------- missing lookahead and restarting

  // A scan that has only seen a prefix may read a token differently at its very end, where the lookahead is
  // missing, but it finds the same terminators.
  lemma {:induction false} PrefixStable(p: string, w: string, i: nat, mode: Mode, b: nat)
    requires p <= w && b <= |p|
    ensures CutFrom(p, i, mode, b) <==> CutFrom(w, i, mode, b)
    decreases |w| - i
  {
    if i >= |p| {
      if CutFrom(w, i, mode, b) { CutEndsInTerminator(w, i, mode, b); }
    } else if Step(p, i, mode) == Step(w, i, mode) {
      PrefixStable(p, w, Step(w, i, mode).0, Step(w, i, mode).1, b);
    } else {
      Lookahead(p, w, i, mode, b);
    }
  }

  lemma {:induction false} Lookahead(p: string, w: string, i: nat, mode: Mode, b: nat)
    requires p <= w && b <= |p| && i < |p| && Step(p, i, mode) != Step(w, i, mode)
    ensures !CutFrom(p, i, mode, b) && !CutFrom(w, i, mode, b)
  {
    var short, long := Step(p, i, mode), Step(w, i, mode);
    assert i + 2 >= |p| && !(mode == Code && p[i] == ';') && (i + 2 == |p| ==> p[i + 1] == '-');
    if CutFrom(p, short.0, short.1, b) { CutEndsInTerminator(p, short.0, short.1, b); }
    if CutFrom(w, long.0, long.1, b) { CutEndsInTerminator(w, long.0, long.1, b); }
  }

  // The scanner never looks back.
  lemma {:induction false} Forgets(s: string, k: nat, i: nat, mode: Mode, b: nat)
    requires k <= |s|
    ensures CutFrom(s, k + i, mode, k + b) <==> CutFrom(s[k..], i, mode, b)
    decreases |s| - i
  {
    if k + i < |s| {
      var next := Step(s[k..], i, mode);
      assert Step(s, k + i, mode) == (k + next.0, next.1);
      Forgets(s, k, next.0, next.1, b);
    }
  }

  lemma {:induction false} OnwardsFromCut(s: string, i: nat, mode: Mode, b: nat, c: nat)
    requires CutFrom(s, i, mode, b) && b < c
    ensures CutFrom(s, i, mode, c) <==> CutFrom(s, b, Code, c)
    decreases |s| - i
  {
    if mode == Code && s[i] == ';' && b == i + 1 {
    } else {
      CutEndsInTerminator(s, i, mode, b);
      OnwardsFromCut(s, Step(s, i, mode).0, Step(s, i, mode).1, b, c);
    }
  }

  // Behind a terminator the scan can start afresh.
  lemma Restarts(s: string, b: nat, c: nat)
    requires b == 0 || IsCut(s, b)
    ensures b <= |s|
    ensures c > 0 ==> (IsCut(s, b + c) <==> IsCut(s[b..], c))
  {
    if b == 0 {
      assert s[0..] == s;
    } else {
      CutEndsInTerminator(s, 0, Code, b);
      if c > 0 {
        OnwardsFromCut(s, 0, Code, b, b + c);
        Forgets(s, b, 0, Code, c);
      }
    }
  }

  // ---------------------------------------------------------------- the last terminator

  predicate IsLastCut(s: string, b: nat) {
    (b == 0 || IsCut(s, b)) && forall c | b < c <= |s| :: !IsCut(s, c)
  }

  function LastCut(s: string): (b: nat)
    ensures b <= |s| && IsLastCut(s, b)
  {
    LastCutUpTo(s, |s|)
  }

  function LastCutUpTo(s: string, n: nat): (b: nat)
    requires n <= |s| && forall c | n < c <= |s| :: !IsCut(s, c)
    ensures b <= |s| && IsLastCut(s, b)
  {
    if n == 0 || IsCut(s, n) then n else LastCutUpTo(s, n - 1)
  }

  // The three variables of the scanner, of which at most one is set.
  function ModeOf(quote: string, lineComment: bool, blockComment: bool): Mode {
    if lineComment then Line else if blockComment then Block else if quote != [] then Quoted(quote[0]) else Code
  }

  lemma NothingPassed(s: string, i: nat, mode: Mode, b: nat)
    requires i >= |s|
    ensures !CutFrom(s, i, mode, b)
  {
  }

  method LastSqlStatementBoundary(contents: string) returns (boundary: nat)
    ensures boundary == LastCut(contents)
  {
    hide IsSpace;
    var quote: string, lineComment, blockComment := [], false, false;
    boundary := 0;
    var index := 0;
    while index < |contents|
      invariant boundary <= |contents| && boundary <= index
      invariant boundary == 0 || IsCut(contents, boundary)
      invariant !(lineComment && blockComment) && (quote != [] ==> !lineComment && !blockComment)
      invariant forall b | b > boundary ::
                  IsCut(contents, b) <==> CutFrom(contents, index, ModeOf(quote, lineComment, blockComment), b)
      decreases |contents| - index
    {
      ghost var mode, at, before := ModeOf(quote, lineComment, blockComment), index, boundary;
      var current := contents[index];
      if lineComment {
        if current == '\n' { lineComment := false; }
      } else if blockComment {
        if current == '*' && Has(contents, index + 1, '/') { blockComment := false; index := index + 1; }
      } else if quote != [] {
        if current == '\\' {
          index := index + 1;
        } else if current == quote[0] {
          if Has(contents, index + 1, quote[0]) { index := index + 1; } else { quote := []; }
        }
      } else if IsQuote(current) {
        quote := [current];
      } else if StartsDashComment(contents, index) || current == '#' {
        lineComment := true;
        if current == '-' { index := index + 1; }
      } else if current == '/' && Has(contents, index + 1, '*') {
        blockComment := true;
        index := index + 1;
      } else if current == ';' {
        assert CutFrom(contents, index, Code, index + 1);
        boundary := index + 1;
      }
      index := index + 1;
      assert Step(contents, at, mode) == (index, ModeOf(quote, lineComment, blockComment));
      assert forall b | b > boundary ::
               CutFrom(contents, at, mode, b) <==>
                   CutFrom(contents, index, ModeOf(quote, lineComment, blockComment), b);
    }
    forall b | boundary < b <= |contents| ensures !IsCut(contents, b) {
      NothingPassed(contents, index, ModeOf(quote, lineComment, blockComment), b);
    }
    assert IsLastCut(contents, boundary);
    if boundary < LastCut(contents) {
      assert false;
    }
  }

  // ---------------------------------------------------------------- streams

  datatype StreamError = TooLong | Invalid

  // What is waiting for the rest of its statement after s has arrived.
  function Unfinished(s: string): string { s[LastCut(s)..] }

  // At some chunk the unfinished statement exceeds the limit.
  predicate Overlong(chunks: seq<string>, size: string -> nat) {
    exists k | 1 <= k <= |chunks| :: size(Unfinished(Concat(chunks[..k]))) > 8 * 1024 * 1024
  }

  // The scan of carry + chunk finds the last terminator of everything read so far, although it has forgotten
  // all that was already handled.
  lemma CarryIsEnough(read: string, chunk: string)
    ensures var at := LastCut(read);
            && Unfinished(read) + chunk == (read + chunk)[at..]
            && LastCut(read + chunk) == at + LastCut(Unfinished(read) + chunk)
  {
    hide CutFrom, LastCut;
    var at, now := LastCut(read), read + chunk;
    var rest := now[at..];
    assert rest == Unfinished(read) + chunk;
    if at > 0 { PrefixStable(read, now, 0, Code, at); }
    var b, c := LastCut(rest), LastCut(now);
    Restarts(now, at, b);
    assert now[at..] == rest;
    assert at + b == 0 || IsCut(now, at + b);
    if c < at + b { assert false; }
    if at + b < c {
      Restarts(now, at, c - at);
      assert false;
    }
  }

  // Piece k has something in it and ends behind a top-level terminator of the whole.
  predicate EndsAtCut(pieces: seq<string>, whole: string, k: nat)
    requires k < |pieces|
  {
    pieces[k] != "" && IsCut(whole, |Concat(pieces[..k + 1])|)
  }

  // The pieces are the beginning of the whole, and each of them ends at a cut.
  predicate CutsWell(pieces: seq<string>, whole: string) {
    Concat(pieces) <= whole && forall k | 0 <= k < |pieces| :: EndsAtCut(pieces, whole, k)
  }

  // A function of text that may be computed piece by piece, cut at top-level terminators.
  ghost predicate Distributes(f: string -> string) {
    forall s: string, b: nat | b <= |s| && IsCut(s, b) :: f(s) == f(s[..b]) + f(s[b..])
  }

  ghost predicate DistributesOver(valid: string -> bool) {
    valid("") && forall s: string, b: nat | b <= |s| && IsCut(s, b) :: valid(s) == (valid(s[..b]) && valid(s[b..]))
  }

  function Mapped(f: string -> string, pieces: seq<string>): string {
    if pieces == [] then "" else Mapped(f, pieces[..|pieces| - 1]) + f(pieces[|pieces| - 1])
  }

  function AllValid(valid: string -> bool, pieces: seq<string>): bool {
    forall k | 0 <= k < |pieces| :: valid(pieces[k])
  }

  lemma MappedPush(f: string -> string, parts: seq<string>, last: string)
    ensures Mapped(f, parts + [last]) == Mapped(f, parts) + f(last)
  {
    assert (parts + [last])[..|parts|] == parts;
  }

  // Terminators of a prefix stay terminators.
  lemma StaysCut(pieces: seq<string>, read: string, whole: string)
    requires CutsWell(pieces, read) && read <= whole
    ensures CutsWell(pieces, whole)
  {
    hide IsCut, Concat;
    assert Concat(pieces) <= whole;
    forall k | 0 <= k < |pieces| ensures EndsAtCut(pieces, whole, k) {
      CutStays(pieces, k, read, whole);
    }
  }

  lemma CutStays(pieces: seq<string>, k: nat, read: string, whole: string)
    requires CutsWell(pieces, read) && read <= whole && k < |pieces|
    ensures EndsAtCut(pieces, whole, k)
  {
    hide CutFrom;
    assert EndsAtCut(pieces, read, k);
    ConcatPrefix(pieces, k + 1);
    PrefixStable(read, whole, 0, Code, |Concat(pieces[..k + 1])|);
  }

  lemma OneMorePiece(pieces: seq<string>, piece: string, whole: string)
    requires CutsWell(pieces, whole) && piece != "" && Concat(pieces) + piece <= whole
    requires IsCut(whole, |Concat(pieces) + piece|)
    ensures CutsWell(pieces + [piece], whole)
  {
    hide IsCut, Concat;
    ConcatPush(pieces, piece);
    var more := pieces + [piece];
    assert more[..|more|] == more && Concat(more) <= whole;
    forall k | 0 <= k < |more| ensures EndsAtCut(more, whole, k) {
      if k < |pieces| {
        assert EndsAtCut(pieces, whole, k);
        assert more[..k + 1] == pieces[..k + 1];
        assert more[k] == pieces[k];
      } else {
        assert more[..k + 1] == more;
      }
    }
    assert Concat(more) == Concat(pieces) + piece <= whole;
  }

  // All that was read is handled up to its last terminator.
  predicate HandledWell(pieces: seq<string>, read: string) {
    CutsWell(pieces, read) && Concat(pieces) == read[..LastCut(read)]
  }

  lemma NothingHandled()
    ensures HandledWell([], "") && LastCut("") == 0
  {
  }

  // One chunk: the piece up to the last terminator of carry and chunk continues a good cut.
  lemma NextPiece(pieces: seq<string>, read: string, chunk: string)
    requires HandledWell(pieces, read)
    ensures var now, combined := read + chunk, Unfinished(read) + chunk;
            var b := LastCut(combined);
            var more := if b == 0 then pieces else pieces + [combined[..b]];
            && combined[b..] == Unfinished(now)
            && HandledWell(more, now)
  {
    hide LastCut, CutFrom;
    var now, combined := read + chunk, Unfinished(read) + chunk;
    CarryIsEnough(read, chunk);
    StaysCut(pieces, read, now);
    var at, b := LastCut(read), LastCut(combined);
    assert now[..at] == read[..at];
    assert now[..at + b] == now[..at] + combined[..b];
    if b > 0 {
      ConcatPush(pieces, combined[..b]);
      assert |Concat(pieces) + combined[..b]| == at + b;
      OneMorePiece(pieces, combined[..b], now);
    }
  }

  // A good cut may be handled piece by piece.
  lemma {:induction false} PieceByPiece(f: string -> string, pieces: seq<string>, whole: string)
    requires Distributes(f) && CutsWell(pieces, whole)
    ensures f(whole) == Mapped(f, pieces) + f(whole[|Concat(pieces)|..])
    decreases |pieces|
  {
    hide CutFrom;
    if pieces == [] {
      assert whole[0..] == whole;
    } else {
      var front, last := pieces[..|pieces| - 1], pieces[|pieces| - 1];
      FrontCutsWell(pieces, whole);
      PieceByPiece(f, front, whole);
      LastPiece(pieces, whole);
    }
  }

  lemma {:induction false} ValidPieceByPiece(valid: string -> bool, pieces: seq<string>, whole: string)
    requires DistributesOver(valid) && CutsWell(pieces, whole)
    ensures valid(whole) == (AllValid(valid, pieces) && valid(whole[|Concat(pieces)|..]))
    decreases |pieces|
  {
    hide CutFrom;
    if pieces == [] {
      assert whole[0..] == whole;
    } else {
      var front, last := pieces[..|pieces| - 1], pieces[|pieces| - 1];
      FrontCutsWell(pieces, whole);
      ValidPieceByPiece(valid, front, whole);
      LastPiece(pieces, whole);
      assert AllValid(valid, pieces) == (AllValid(valid, front) && valid(last));
    }
  }

  lemma FrontCutsWell(pieces: seq<string>, whole: string)
    requires CutsWell(pieces, whole) && pieces != []
    ensures CutsWell(pieces[..|pieces| - 1], whole)
  {
    hide CutFrom;
    var front := pieces[..|pieces| - 1];
    forall k | 0 <= k < |front| ensures EndsAtCut(front, whole, k) {
      assert EndsAtCut(pieces, whole, k);
      assert front[..k + 1] == pieces[..k + 1];
      assert front[k] == pieces[k];
    }
  }

  // What is left in front of the last piece starts with it, cut at a terminator.
  lemma LastPiece(pieces: seq<string>, whole: string)
    requires CutsWell(pieces, whole) && pieces != []
    ensures var last := pieces[|pieces| - 1];
            var rest := whole[|Concat(pieces[..|pieces| - 1])|..];
            && |last| <= |rest| && rest[..|last|] == last && rest[|last|..] == whole[|Concat(pieces)|..]
            && IsCut(rest, |last|)
  {
    hide CutFrom, Concat;
    var front, last := pieces[..|pieces| - 1], pieces[|pieces| - 1];
    var head := Concat(front);
    assert pieces[..|pieces|] == pieces && EndsAtCut(pieces, whole, |pieces| - 1);
    ConcatOneMore(pieces, |front|);
    Split(head, last, whole);
    if front != [] {
      assert EndsAtCut(pieces, whole, |front| - 1) && pieces[..|front|] == front;
    } else {
      assert Concat(front) == "" by { Empty(); }
    }
    Restarts(whole, |head|, |last|);
  }

  lemma Split(head: string, last: string, whole: string)
    requires head + last <= whole
    ensures whole[|head|..][..|last|] == last && whole[|head|..][|last|..] == whole[|head + last|..]
  {
    assert whole[..|head + last|] == head + last;
    assert whole[|head|..][..|last|] == whole[..|head + last|][|head|..];
  }

  lemma Empty()
    ensures Concat<char>([]) == ""
  {
  }

  // ---------------------------------------------------------------- the two streams

  lemma OverlongSoFar(chunks: seq<string>, size: string -> nat, k: nat)
    requires 1 <= k <= |chunks| && size(Unfinished(Concat(chunks[..k]))) > LIMIT
    ensures Overlong(chunks, size)
  {
  }

  lemma NotOverlong(chunks: seq<string>, size: string -> nat)
    requires forall k | 1 <= k <= |chunks| :: size(Unfinished(Concat(chunks[..k]))) <= LIMIT
    ensures !Overlong(chunks, size)
  {
  }

  lemma AllHandled(pieces: seq<string>, read: string, tail: string)
    requires HandledWell(pieces, read)
    ensures CutsWell(pieces, read + tail) && Unfinished(read) + tail == (read + tail)[|Concat(pieces)|..]
  {
    hide IsCut;
    StaysCut(pieces, read, read + tail);
  }

  lemma MappedNothing(f: string -> string)
    ensures Mapped(f, []) == ""
  {
  }

  // rewritePitrSqlFile: `tail` is what the decoder still holds at the end of the input.
  method RewritePitrSqlFile(chunks: seq<string>, tail: string, rewrite: string -> string, size: string -> nat)
    returns (r: Result<string, StreamError>, ghost pieces: seq<string>)
    ensures r.Err? <==> Overlong(chunks, size)
    ensures r.Ok? ==>
              var whole := Concat(chunks) + tail;
              && CutsWell(pieces, whole)
              && r.value == Mapped(rewrite, pieces) + rewrite(whole[|Concat(pieces)|..])
              && (Distributes(rewrite) ==> r.value == rewrite(whole))
  {
    hide LastCut, IsCut, HandledWell, Distributes, CutsWell, Mapped, Overlong;
    var carry, output := "", "";
    pieces := [];
    NothingHandled();
    assert Mapped(rewrite, []) == "" by { MappedNothing(rewrite); }
    assert Concat(chunks[..0]) == "";
    for i := 0 to |chunks|
      invariant carry == Unfinished(Concat(chunks[..i]))
      invariant HandledWell(pieces, Concat(chunks[..i]))
      invariant output == Mapped(rewrite, pieces)
      invariant forall k | 1 <= k <= i :: size(Unfinished(Concat(chunks[..k]))) <= LIMIT
    {
      NextPiece(pieces, Concat(chunks[..i]), chunks[i]);
      ConcatOneMore(chunks, i);
      var combined := carry + chunks[i];
      var boundary := LastSqlStatementBoundary(combined);
      carry := combined[boundary..];
      if size(carry) > LIMIT {
        OverlongSoFar(chunks, size, i + 1);
        return Err(TooLong), pieces;
      }
      if boundary != 0 {
        MappedPush(rewrite, pieces, combined[..boundary]);
        output := output + rewrite(combined[..boundary]);
        pieces := pieces + [combined[..boundary]];
      }
    }
    assert chunks[..|chunks|] == chunks;
    AllHandled(pieces, Concat(chunks), tail);
    NotOverlong(chunks, size);
    if Distributes(rewrite) { PieceByPiece(rewrite, pieces, Concat(chunks) + tail); }
    r := Ok(output + rewrite(carry + tail));
  }

  // validatePitrSqlFile, where the exception of the validator becomes a verdict.
  method ValidatePitrSqlFile(chunks: seq<string>, valid: string -> bool, size: string -> nat)
    returns (r: Result<(), StreamError>)
    ensures DistributesOver(valid) ==> (r.Ok? <==> !Overlong(chunks, size) && valid(Concat(chunks)))
    ensures r == Err(TooLong) ==> Overlong(chunks, size)
  {
    hide LastCut, IsCut, HandledWell, DistributesOver, CutsWell, Overlong, CutFrom, Step;
    var carry := "";
    ghost var pieces: seq<string> := [];
    NothingHandled();
    assert Concat(chunks[..0]) == "";
    for i := 0 to |chunks|
      invariant carry == Unfinished(Concat(chunks[..i]))
      invariant HandledWell(pieces, Concat(chunks[..i]))
      invariant AllValid(valid, pieces)
      invariant forall k | 1 <= k <= i :: size(Unfinished(Concat(chunks[..k]))) <= LIMIT
    {
      NextPiece(pieces, Concat(chunks[..i]), chunks[i]);
      ConcatOneMore(chunks, i);
      var combined := carry + chunks[i];
      var boundary := LastSqlStatementBoundary(combined);
      if boundary != 0 {
        pieces := pieces + [combined[..boundary]];
        if !valid(combined[..boundary]) {
          InvalidPiece(valid, pieces, chunks, i + 1);
          return Err(Invalid);
        }
      }
      carry := combined[boundary..];
      if size(carry) > LIMIT {
        OverlongSoFar(chunks, size, i + 1);
        return Err(TooLong);
      }
    }
    assert chunks[..|chunks|] == chunks;
    AllHandled(pieces, Concat(chunks), "");
    assert Concat(chunks) + "" == Concat(chunks) && carry + "" == carry;
    NotOverlong(chunks, size);
    if DistributesOver(valid) {
      ValidPieceByPiece(valid, pieces, Concat(chunks));
      EmptyIsValid(valid);
    }
    if carry != "" && !valid(carry) { return Err(Invalid); }
    r := Ok(());
  }

  lemma EmptyIsValid(valid: string -> bool)
    requires DistributesOver(valid)
    ensures valid("")
  {
  }

  lemma InvalidPiece(valid: string -> bool, pieces: seq<string>, chunks: seq<string>, k: nat)
    requires k <= |chunks| && HandledWell(pieces, Concat(chunks[..k])) && pieces != [] && !valid(pieces[|pieces| - 1])
    ensures DistributesOver(valid) ==> !valid(Concat(chunks))
  {
    hide CutFrom;
    ConcatPrefix(chunks, k);
    StaysCut(pieces, Concat(chunks[..k]), Concat(chunks));
    if DistributesOver(valid) { ValidPieceByPiece(valid, pieces, Concat(chunks)); }
  }
}
