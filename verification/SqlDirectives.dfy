/** The statements in which the renamer of pitr.utils.ts:111-143 has to find the name of a database, spelled out: each
    of them comes out with the new name. */
module SqlDirectives {
  import opened Wrappers
  import opened SqlParts
  import opened SqlNames
  import opened SqlRename
  import SqlStream
  import Sequences

  // ---------------------------------------------------------------- the statements

  predicate SameLetter(c: char, d: char) {
    c == d || ('a' <= c <= 'z' && d as int == c as int - 32) || ('a' <= d <= 'z' && c as int == d as int - 32)
  }

  // Equal up to the case of Latin letters.
  predicate SameLetters(a: string, b: string) { |a| == |b| && forall i | 0 <= i < |a| :: SameLetter(a[i], b[i]) }

  predicate Spaces(text: string) { forall i | 0 <= i < |text| :: SqlStream.IsSpace(text[i]) }

  predicate Gap(text: string) { text != "" && Spaces(text) }

  // USE, CREATE DATABASE, ALTER DATABASE or DROP DATABASE; `second` is what stands behind the verb.
  predicate IsVerb(verb: string, gap: string, second: string) {
    || (SameLetters(verb, "USE") && gap == "" && second == "")
    || ((SameLetters(verb, "CREATE") || SameLetters(verb, "ALTER") || SameLetters(verb, "DROP"))
        && Gap(gap) && SameLetters(second, "DATABASE"))
  }

  datatype Condition =
    | Always
    | IfThere(word: string, a: string, there: string, b: string)
    | IfNotThere(word: string, a: string, negation: string, b: string, there: string, d: string)

  // IF EXISTS or IF NOT EXISTS, each word with the gap behind it.
  predicate IsCondition(c: Condition) {
    match c
    case Always => true
    case IfThere(word, a, there, b) => SameLetters(word, "IF") && Gap(a) && SameLetters(there, "EXISTS") && Gap(b)
    case IfNotThere(word, a, negation, b, there, d) =>
      && SameLetters(word, "IF") && Gap(a) && SameLetters(negation, "NOT") && Gap(b)
      && SameLetters(there, "EXISTS") && Gap(d)
  }

  function ConditionText(c: Condition): string {
    match c
    case Always => ""
    case IfThere(word, a, there, b) => word + a + there + b
    case IfNotThere(word, a, negation, b, there, d) => word + a + negation + b + there + d
  }

  // Latin letters, digits, underscores and dollar signs only.
  predicate NeedsNoQuotes(name: string) {
    name != "" && forall i | 0 <= i < |name| ::
      'A' <= name[i] <= 'Z' || 'a' <= name[i] <= 'z' || '0' <= name[i] <= '9' || name[i] == '_' || name[i] == '$'
  }

  // The quoted name, or the bare one where it needs no quotes.
  predicate Names(name: string, source: string) {
    SameLetters(name, Quoted(source)) || (NeedsNoQuotes(source) && SameLetters(name, source))
  }

  // ---------------------------------------------------------------- reading them

  lemma SameIsAlike(a: string, b: string, upper: char -> char)
    requires SameLetters(a, b)
    ensures Alike(a, b, upper)
  {
    forall i | 0 <= i < |a| ensures Folded(a[i], upper) == Folded(b[i], upper) { assert SameLetter(a[i], b[i]); }
  }

  // The part of a text from position i on begins like this.
  predicate At(text: string, i: nat, part: string) { i + |part| <= |text| && text[i..i + |part|] == part }

  lemma AtJoins(text: string, i: nat, a: string, b: string)
    requires At(text, i, a + b)
    ensures At(text, i, a) && At(text, i + |a|, b)
  {
    assert text[i..i + |a + b|][..|a|] == a && text[i..i + |a + b|][|a|..] == b;
  }

  lemma CharsAt(text: string, i: nat, part: string)
    requires At(text, i, part)
    ensures forall k | 0 <= k < |part| :: text[i + k] == part[k]
  {
    forall k | 0 <= k < |part| ensures text[i + k] == part[k] { assert text[i..i + |part|][k] == part[k]; }
  }

  lemma {:induction false} SkipsGap(text: string, i: nat, gap: string)
    requires At(text, i, gap) && Spaces(gap)
    requires i + |gap| < |text| ==> !SqlStream.IsSpace(text[i + |gap|])
    ensures SkipSpaces(text, i) == i + |gap|
    decreases gap
  {
    CharsAt(text, i, gap);
    if gap != "" {
      assert text[i] == gap[0];
      assert text[i + 1..i + |gap|] == text[i..i + |gap|][1..] == gap[1..];
      SkipsGap(text, i + 1, gap[1..]);
    }
  }

  predicate Letters(word: string) { word != "" && forall i | 0 <= i < |word| :: 'A' <= word[i] <= 'Z' }

  // A word, whatever its case, in place of what it should be.
  lemma ReadsWord(text: string, i: nat, w: string, word: string, upper: char -> char)
    requires At(text, i, w) && SameLetters(w, word) && Letters(word)
    ensures LikeAt(text, word, i, upper) && i < |text| && !SqlStream.IsSpace(text[i]) && IsNameChar(text[i])
            && text[i] != '$'
    ensures SameLetter(text[i], word[0])
  {
    CharsAt(text, i, w);
    assert text[i + 0] == w[0];
    SameIsAlike(w, word, upper);
  }

  lemma FirstLike(text: string, part: string, i: nat, upper: char -> char)
    requires part != ""
    ensures LikeAt(text, part, i, upper) ==> i < |text| && Folded(text[i], upper) == Folded(part[0], upper)
  {
    if LikeAt(text, part, i, upper) { assert text[i..i + |part|][0] == text[i]; }
  }

  lemma OtherWord(text: string, i: nat, other: string, upper: char -> char, c: char)
    requires Letters(other) && i < |text| && 'A' <= c <= 'Z' && SameLetter(text[i], c) && c != other[0]
    ensures !LikeAt(text, other, i, upper)
  {
    FirstLike(text, other, i, upper);
  }

  lemma ReadsSpacedWord(text: string, i: nat, gap: string, w: string, word: string, upper: char -> char)
    requires At(text, i, gap + w) && Gap(gap) && SameLetters(w, word) && Letters(word)
    ensures SpacedWord(text, i, word, upper) == Some(i + |gap| + |w|)
  {
    AtJoins(text, i, gap, w);
    ReadsWord(text, i + |gap|, w, word, upper);
    SkipsGap(text, i, gap);
  }

  lemma OtherSpacedWord(text: string, i: nat, gap: string, other: string, upper: char -> char, c: char)
    requires At(text, i, gap) && Gap(gap) && i + |gap| < |text| && 'A' <= c <= 'Z' && SameLetter(text[i + |gap|], c)
    requires Letters(other) && c != other[0]
    ensures SpacedWord(text, i, other, upper) == None
  {
    assert !SqlStream.IsSpace(text[i + |gap|]);
    SkipsGap(text, i, gap);
    OtherWord(text, i + |gap|, other, upper, c);
  }

  lemma ReadsVerb(text: string, i: nat, verb: string, gap: string, second: string, upper: char -> char)
    requires At(text, i, verb + (gap + second)) && IsVerb(verb, gap, second)
    ensures Keyword(text, i, upper) == Some(i + |verb + gap + second|)
    ensures i < |text| && IsNameChar(text[i]) && text[i] != '$'
  {
    hide LikeAt, SpacedWord, SameLetters, Gap, Letters;
    AtJoins(text, i, verb, gap + second);
    if SameLetters(verb, "USE") && gap == "" && second == "" {
      assert Letters("USE") by { LettersOf(); }
      SameLength(verb, "USE");
      ReadsWord(text, i, verb, "USE", upper);
    } else {
      LettersOf();
      SameLength(second, "DATABASE");
      ReadsSpacedWord(text, i + |verb|, gap, second, "DATABASE", upper);
      var word := if SameLetters(verb, "CREATE") then "CREATE"
          else if SameLetters(verb, "ALTER") then "ALTER" else "DROP";
      SameLength(verb, word);
      ReadsWord(text, i, verb, word, upper);
      OtherWord(text, i, "USE", upper, word[0]);
      if word != "CREATE" { OtherWord(text, i, "CREATE", upper, word[0]); }
      if word == "DROP" { OtherWord(text, i, "ALTER", upper, word[0]); }
    }
  }

  lemma SameLength(a: string, b: string)
    requires SameLetters(a, b)
    ensures |a| == |b|
  {
  }

  lemma LettersOf()
    ensures Letters("USE") && Letters("CREATE") && Letters("ALTER") && Letters("DROP") && Letters("DATABASE")
    ensures Letters("IF") && Letters("NOT") && Letters("EXISTS")
  {
  }

  // The option is read up to its last word; the gap behind that one is left to the name.
  lemma ReadsCondition(text: string, i: nat, gap: string, c: Condition, upper: char -> char) returns (last: string)
    requires Gap(gap) && IsCondition(c) && c != Always && At(text, i, gap + ConditionText(c))
    ensures Gap(last) && |last| <= |gap + ConditionText(c)|
    ensures IfExists(text, i, upper) == Some(i + |gap + ConditionText(c)| - |last|)
    ensures At(text, i + |gap + ConditionText(c)| - |last|, last)
  {
    hide SpacedWord, SameLetters, Gap;
    match c
    case IfThere(word, a, there, b) =>
      last := b;
      assert gap + ConditionText(c) == (gap + word) + ((a + there) + b);
      ReadsIfExists(text, i, gap, word, a, there, b, upper);
    case IfNotThere(word, a, negation, b, there, d) =>
      last := d;
      assert gap + ConditionText(c) == (gap + word) + ((a + negation) + ((b + there) + d));
      ReadsIfNotExists(text, i, gap, word, a, negation, b, there, d, upper);
  }

  lemma ReadsIfExists(
    text: string, i: nat, gap: string, word: string, a: string, there: string, last: string, upper: char -> char)
    requires Gap(gap) && SameLetters(word, "IF") && Gap(a) && SameLetters(there, "EXISTS")
    requires At(text, i, (gap + word) + ((a + there) + last))
    ensures IfExists(text, i, upper) == Some(i + |gap| + |word| + |a| + |there|)
    ensures At(text, i + |gap| + |word| + |a| + |there|, last)
  {
    hide SpacedWord, SameLetters, Gap, Letters, LikeAt, At;
    LettersOf();
    AtJoins(text, i, gap + word, (a + there) + last);
    var k := i + |gap| + |word|;
    AtJoins(text, k, a + there, last);
    ReadsSpacedWord(text, i, gap, word, "IF", upper);
    ReadsSpacedWord(text, k, a, there, "EXISTS", upper);
    AtJoins(text, k, a, there);
    ReadsWord(text, k + |a|, there, "EXISTS", upper);
    OtherSpacedWord(text, k, a, "NOT", upper, 'E');
  }

  lemma ReadsIfNotExists(
    text: string, i: nat, gap: string, word: string, a: string, negation: string, b: string, there: string,
    last: string, upper: char -> char)
    requires Gap(gap) && SameLetters(word, "IF") && Gap(a) && SameLetters(negation, "NOT")
    requires Gap(b) && SameLetters(there, "EXISTS")
    requires At(text, i, (gap + word) + ((a + negation) + ((b + there) + last)))
    ensures IfExists(text, i, upper) == Some(i + |gap| + |word| + |a| + |negation| + |b| + |there|)
    ensures At(text, i + |gap| + |word| + |a| + |negation| + |b| + |there|, last)
  {
    hide SpacedWord, SameLetters, Gap, Letters, LikeAt, At;
    LettersOf();
    AtJoins(text, i, gap + word, (a + negation) + ((b + there) + last));
    var k := i + |gap| + |word|;
    AtJoins(text, k, a + negation, (b + there) + last);
    AtJoins(text, k + |a + negation|, b + there, last);
    ReadsSpacedWord(text, i, gap, word, "IF", upper);
    ReadsSpacedWord(text, k, a, negation, "NOT", upper);
    ReadsSpacedWord(text, k + |a + negation|, b, there, "EXISTS", upper);
  }

  lemma NameBegins(name: string, source: string)
    requires Names(name, source)
    ensures name != "" && (name[0] == '`' || IsNameChar(name[0])) && !SqlStream.IsSpace(name[0])
    ensures name[0] == '`' <==> SameLetters(name, Quoted(source))
  {
    EndsInBackticks(source);
    assert SameLetters(name, Quoted(source)) ==> SameLetter(name[0], '`');
    assert IsBare(source) && SameLetters(name, source) ==> SameLetter(name[0], source[0]) && IsNameChar(source[0]);
  }

  lemma ReadsName(text: string, i: nat, gap: string, name: string, source: string, upper: char -> char)
    requires Gap(gap) && Names(name, source) && At(text, i, gap + name) && Closed(text, i + |gap + name|)
    ensures Operand(text, i, source, upper) == Some((i + |gap|, i + |gap + name|))
  {
    hide Quoted, Closed, IsName, SameLetters, Alike;
    AtJoins(text, i, gap, name);
    CharsAt(text, i + |gap|, name);
    NameBegins(name, source);
    assert text[i + |gap| + 0] == name[0];
    SkipsGap(text, i, gap);
    if SameLetters(name, Quoted(source)) {
      SameLength(name, Quoted(source));
      SameIsAlike(name, Quoted(source), upper);
    } else {
      SameLength(name, source);
      SameIsAlike(name, source, upper);
      NotQuoted(text, i + |gap|, source, upper);
    }
  }

  lemma NotQuoted(text: string, i: nat, source: string, upper: char -> char)
    requires i < |text| && IsNameChar(text[i])
    ensures !LikeAt(text, Quoted(source), i, upper)
  {
    hide Quoted;
    EndsInBackticks(source);
    FirstLike(text, Quoted(source), i, upper);
  }

  // A statement as far as the name, and what is behind the name.
  datatype Statement = Statement(
    verb: string, gap: string, second: string, space: string, condition: Condition, name: string)

  predicate IsStatement(d: Statement, source: string) {
    IsVerb(d.verb, d.gap, d.second) && Gap(d.space) && IsCondition(d.condition) && Names(d.name, source)
  }

  function Front(d: Statement): string { d.verb + (d.gap + d.second) + (d.space + ConditionText(d.condition)) }

  predicate NoMoreWords(text: string, i: nat, upper: char -> char) {
    SpacedWord(text, i, "NOT", upper) == None && SpacedWord(text, i, "EXISTS", upper) == None
  }

  // A name in the place of the words IF EXISTS is not taken for them.
  lemma NoCondition(text: string, i: nat, gap: string, name: string, source: string, upper: char -> char)
    requires Gap(gap) && Names(name, source) && At(text, i, gap + name) && Closed(text, i + |gap + name|)
    requires SameLetters(name, "IF") ==>
               NoMoreWords(text, i + |gap + name|, upper)
    ensures IfExists(text, i, upper) == None
  {
    hide Quoted, IsName, LikeAt, Names;
    AtJoins(text, i, gap, name);
    CharsAt(text, i + |gap|, name);
    NameBegins(name, source);
    assert text[i + |gap| + 0] == name[0];
    SkipsGap(text, i, gap);
    var k := i + |gap|;
    LikeIf(text, k, upper);
    if LikeAt(text, "IF", k, upper) {
      BareChars(name, source);
      if |name| > 2 {
        assert text[k + 2] == name[2];
        InsideWord(text, k + 2, upper);
      } else if |name| == 2 {
        assert text[k + 1] == name[1];
        assert SameLetters(name, "IF");
      }
    }
  }

  lemma LikeIf(text: string, k: nat, upper: char -> char)
    ensures LikeAt(text, "IF", k, upper) ==>
              k + 1 < |text| && SameLetter(text[k], 'I') && SameLetter(text[k + 1], 'F') && text[k] != '`'
              && !Closed(text, k + 1)
  {
    if LikeAt(text, "IF", k, upper) {
      LikeChars(text, "IF", k, upper);
      assert Folded(text[k + 0], upper) == 'I' && Folded(text[k + 1], upper) == 'F';
    }
  }

  lemma BareChars(name: string, source: string)
    requires Names(name, source) && name[0] != '`'
    ensures forall j | 0 <= j < |name| :: IsNameChar(name[j]) && !SqlStream.IsSpace(name[j])
  {
    hide Quoted;
    NameBegins(name, source);
    forall j | 0 <= j < |name| ensures IsNameChar(name[j]) { assert SameLetter(name[j], source[j]); }
  }

  lemma InsideWord(text: string, k: nat, upper: char -> char)
    requires k < |text| && !SqlStream.IsSpace(text[k])
    ensures NoMoreWords(text, k, upper)
  {
  }

  lemma ReadsDirective(text: string, i: nat, d: Statement, source: string, upper: char -> char)
    requires IsStatement(d, source) && At(text, i, Front(d) + d.name) && Closed(text, i + |Front(d) + d.name|)
    requires !WordAt(text, i - 1)
    requires d.condition == Always && SameLetters(d.name, "IF") ==>
               NoMoreWords(text, i + |Front(d) + d.name|, upper)
    ensures DirectiveAt(text, i, source, upper) == Some((i + |Front(d)|, i + |Front(d) + d.name|))
  {
    hide IsVerb, Gap, IsCondition, Names, Keyword, Operand, IfExists, Closed, NoMoreWords, SameLetters, IsName, At;
    var words, behind := d.verb + (d.gap + d.second), d.space + ConditionText(d.condition);
    assert Front(d) + d.name == words + (behind + d.name);
    AtJoins(text, i, words, behind + d.name);
    ReadsVerb(text, i, d.verb, d.gap, d.second, upper);
    assert |words| == |d.verb + d.gap + d.second|;
    var k := i + |words|;
    if d.condition == Always {
      assert behind == d.space;
      NoCondition(text, k, d.space, d.name, source, upper);
      ReadsName(text, k, d.space, d.name, source, upper);
    } else {
      ReadsConditionAndName(text, k, d.space, d.condition, d.name, source, upper);
    }
  }

  lemma ReadsConditionAndName(
    text: string, k: nat, space: string, c: Condition, name: string, source: string, upper: char -> char)
    requires Gap(space) && IsCondition(c) && c != Always && Names(name, source)
    requires At(text, k, space + ConditionText(c) + name) && Closed(text, k + |space + ConditionText(c) + name|)
    ensures IfExists(text, k, upper).Some?
    ensures Operand(text, IfExists(text, k, upper).value, source, upper)
         == Some((k + |space + ConditionText(c)|, k + |space + ConditionText(c) + name|))
  {
    hide Gap, IsCondition, ConditionText, Names, Operand, IfExists, Closed, SameLetters, IsName, At;
    var behind := space + ConditionText(c);
    AtJoins(text, k, behind, name);
    var last := ReadsCondition(text, k, space, c, upper);
    var e := k + |behind| - |last|;
    AtBoth(text, e, last, name);
    ReadsName(text, e, last, name, source, upper);
  }

  lemma AtBoth(text: string, i: nat, a: string, b: string)
    requires At(text, i, a) && At(text, i + |a|, b)
    ensures At(text, i, a + b)
  {
    assert text[i..i + |a + b|] == text[i..i + |a|] + text[i + |a|..i + |a| + |b|];
  }

  // ---------------------------------------------------------------- what else is in a match

  lemma {:induction false} SkippedAreSpaces(text: string, i: nat)
    ensures forall k | i <= k < SkipSpaces(text, i) :: k < |text| && SqlStream.IsSpace(text[k])
    decreases |text| - i
  {
    if i < |text| && SqlStream.IsSpace(text[i]) { SkippedAreSpaces(text, i + 1); }
  }

  // Upper or lower case of c cannot be mistaken for any other kind of character.
  lemma LikeChars(text: string, part: string, i: nat, upper: char -> char)
    requires LikeAt(text, part, i, upper)
    ensures forall k | 0 <= k < |part| :: Folded(text[i + k], upper) == Folded(part[k], upper)
  {
    forall k | 0 <= k < |part| ensures Folded(text[i + k], upper) == Folded(part[k], upper) {
      assert text[i..i + |part|][k] == text[i + k];
    }
  }

  // No semicolon between two positions.
  predicate NoneIn(text: string, i: nat, j: nat) { j <= |text| && forall k | i <= k < j :: text[k] != ';' }

  predicate NoSemicolon(word: string) { forall k | 0 <= k < |word| :: word[k] != ';' }

  lemma WordHasNone(text: string, word: string, i: nat, upper: char -> char)
    requires LikeAt(text, word, i, upper) && NoSemicolon(word)
    ensures NoneIn(text, i, i + |word|)
  {
    LikeChars(text, word, i, upper);
    forall k | i <= k < i + |word| ensures text[k] != ';' {
      assert Folded(text[i + (k - i)], upper) == Folded(word[k - i], upper);
    }
  }

  lemma SpacedWordHasNone(text: string, i: nat, word: string, upper: char -> char)
    requires Letters(word)
    ensures SpacedWord(text, i, word, upper).Some? ==> NoneIn(text, i, SpacedWord(text, i, word, upper).value)
  {
    SkippedAreSpaces(text, i);
    var k := SkipSpaces(text, i);
    if LikeAt(text, word, k, upper) { WordHasNone(text, word, k, upper); }
  }

  lemma VerbHasNone(text: string, i: nat, upper: char -> char)
    ensures var k := Keyword(text, i, upper);
            k.Some? ==> i < |text| && NoneIn(text, i, k.value) && IsNameChar(text[i]) && !SqlStream.IsSpace(text[i])
  {
    hide LikeAt, SpacedWord, Letters;
    LettersOf();
    if LikeAt(text, "USE", i, upper) {
      VerbWordHasNone(text, "USE", i, upper);
    } else if LikeAt(text, "CREATE", i, upper) {
      VerbWordHasNone(text, "CREATE", i, upper);
    } else if LikeAt(text, "ALTER", i, upper) {
      VerbWordHasNone(text, "ALTER", i, upper);
    } else if LikeAt(text, "DROP", i, upper) {
      VerbWordHasNone(text, "DROP", i, upper);
    }
  }

  lemma VerbWordHasNone(text: string, word: string, i: nat, upper: char -> char)
    requires LikeAt(text, word, i, upper) && Letters(word)
    ensures i < |text| && NoneIn(text, i, i + |word|) && IsNameChar(text[i]) && !SqlStream.IsSpace(text[i])
    ensures var e := SpacedWord(text, i + |word|, "DATABASE", upper); e.Some? ==> NoneIn(text, i, e.value)
  {
    WordHasNone(text, word, i, upper);
    FirstLike(text, word, i, upper);
    LettersOf();
    SpacedWordHasNone(text, i + |word|, "DATABASE", upper);
  }

  lemma ConditionHasNone(text: string, i: nat, upper: char -> char)
    ensures IfExists(text, i, upper).Some? ==> NoneIn(text, i, IfExists(text, i, upper).value)
  {
    hide SpacedWord, Letters;
    LettersOf();
    SpacedWordHasNone(text, i, "IF", upper);
    var k := SpacedWord(text, i, "IF", upper);
    if k.Some? {
      SpacedWordHasNone(text, k.value, "NOT", upper);
      SpacedWordHasNone(text, k.value, "EXISTS", upper);
      var n := SpacedWord(text, k.value, "NOT", upper);
      if n.Some? { SpacedWordHasNone(text, n.value, "EXISTS", upper); }
    }
  }

  lemma {:induction false} BareIsNotDoubled(source: string)
    requires forall i | 0 <= i < |source| :: source[i] != '`'
    ensures Doubled(source) == source
    decreases source
  {
    if source != "" {
      BareIsNotDoubled(source[1..]);
      assert source == [source[0]] + source[1..];
    }
  }

  // The name that a directive captures stands behind white space.
  lemma OperandBehindSpace(text: string, i: nat, source: string, upper: char -> char)
    ensures var name := Operand(text, i, source, upper);
            name.Some? ==>
              && SqlStream.IsSpace(text[name.value.0 - 1])
              && (NoSemicolon(source) ==> NoneIn(text, i, name.value.1))
  {
    hide IsName, Quoted;
    SkippedAreSpaces(text, i);
    var k := SkipSpaces(text, i);
    if NoSemicolon(source) {
      QuotedHasNone(source);
      if LikeAt(text, Quoted(source), k, upper) { WordHasNone(text, Quoted(source), k, upper); }
      if LikeAt(text, source, k, upper) { WordHasNone(text, source, k, upper); }
    }
  }

  lemma {:induction false} QuotedHasNone(source: string)
    requires NoSemicolon(source)
    ensures NoSemicolon(Doubled(source)) && NoSemicolon(Quoted(source))
    decreases source
  {
    if source != "" { QuotedHasNone(source[1..]); }
  }

  lemma QuotedBare(source: string)
    requires IsBare(source)
    ensures Quoted(source) == "`" + source + "`"
    ensures forall k | 0 <= k < |Quoted(source)| :: IsNameChar(Quoted(source)[k]) || Quoted(source)[k] == '`'
  {
    BareIsNotDoubled(source);
  }

  // A directive begins with a letter, has white space in front of the name, and no semicolon in it unless there is one
  // in the source.
  lemma DirectiveForm(text: string, i: nat, source: string, upper: char -> char)
    ensures var name := DirectiveAt(text, i, source, upper);
            name.Some? ==>
              && i < |text| && IsNameChar(text[i]) && !SqlStream.IsSpace(text[i])
              && SqlStream.IsSpace(text[name.value.0 - 1])
              && (NoSemicolon(source) ==> NoneIn(text, i, name.value.1))
  {
    hide Keyword, IfExists, Operand, IsName;
    VerbHasNone(text, i, upper);
    var k := Keyword(text, i, upper);
    if k.Some? {
      OperandBehindSpace(text, k.value, source, upper);
      ConditionHasNone(text, k.value, upper);
      var e := IfExists(text, k.value, upper);
      if e.Some? { OperandBehindSpace(text, e.value, source, upper); }
    }
  }

  // ---------------------------------------------------------------- matches

  lemma {:induction false} MatchesAre(p: Pattern, source: string, masked: string, i: nat, upper: char -> char)
    ensures forall m | m in AllMatches(p, source, masked, i, upper) ::
              MatchAt(p, source, masked, m.index, upper) == Some(m)
    decreases |masked| - i
  {
    hide MatchAt, MatchIn, IsName;
    if i < |masked| {
      var m := MatchAt(p, source, masked, i, upper);
      MatchesAre(p, source, masked, if m.None? then i + 1 else i + |m.value.text|, upper);
    }
  }

  lemma {:induction false} NoMatches(p: Pattern, source: string, masked: string, i: nat, upper: char -> char)
    requires forall j: nat | i <= j < |masked| :: MatchAt(p, source, masked, j, upper).None?
    ensures AllMatches(p, source, masked, i, upper) == []
    decreases |masked| - i
  {
    hide MatchAt, MatchIn, IsName;
    if i < |masked| { NoMatches(p, source, masked, i + 1, upper); }
  }

  // ---------------------------------------------------------------- a statement among others

  // Behind a semicolon or at the very beginning, white space aside.
  predicate BeginsStatement(before: string) {
    before == "" || before[|before| - 1] == ';'
    || (SqlStream.IsSpace(before[|before| - 1]) && BeginsStatement(before[..|before| - 1]))
  }

  lemma {:induction false} SemicolonBetween(before: string, j: nat)
    requires BeginsStatement(before) && j < |before| && !SqlStream.IsSpace(before[j])
    ensures exists p :: j <= p < |before| && before[p] == ';'
    decreases |before|
  {
    var n := |before| - 1;
    if before[n] == ';' {
      assert before[n] == ';';
    } else {
      SemicolonBetween(before[..n], j);
      var p :| j <= p < n && before[..n][p] == ';';
      assert before[p] == ';';
    }
  }

  // Wherever such a statement begins in the code of a text, an edit that gives its name the new form is carried out,
  // or overlaps one that is.
  lemma StatementIsRenamed(
    contents: string, mapping: seq<Renaming>, upper: char -> char, r: Renaming, before: string, d: Statement,
    after: string)
    requires r in mapping && IsStatement(d, r.source) && NoSemicolon(r.source)
    requires CodeMask(contents) == before + (Front(d) + d.name) + after && BeginsStatement(before)
    requires after == "" || SqlStream.IsSpace(after[0]) || after[0] == ';'
    requires d.condition == Always ==> !SameLetters(d.name, "IF")
    ensures exists e: Edit ::
              && e.start == |before + Front(d)| && e.end == e.start + |d.name|
              && e.replacement == Quoted(r.destination)
              && (e in Renames(contents, mapping, upper)
                  || exists c :: c in Renames(contents, mapping, upper) && Overlap(c, e))
  {
    hide CodeMask, MatchAt, IsName, MatchIn, Chosen, Sorted, Ordered, AllEdits, EditsOf, Quoted, Overlap, IsStatement,
         Front, Renames, AllMatches, BeginsStatement, NoSemicolon;
    var masked, i := CodeMask(contents), |before|;
    var m := DirectiveIsMatched(masked, before, d, after, r.source, upper);
    var matches := AllMatches(Pattern.Directive, r.source, masked, 0, upper);
    EditForMatch(matches, masked, Quoted(r.destination), m);
    var e :| e in EditsOf(matches, Quoted(r.destination))
      && e.end == m.index + |m.text| && e.end == e.start + |m.captured| && e.replacement == Quoted(r.destination);
    EditsOfEntry(mapping, masked, upper, r, Pattern.Directive);
    RenamesAreOrdered(contents, mapping, upper);
    RenamesFrom(contents, mapping, upper, e);
  }

  lemma RenamesFrom(contents: string, mapping: seq<Renaming>, upper: char -> char, e: Edit)
    requires e in AllEdits(mapping, CodeMask(contents), upper)
    ensures e in Renames(contents, mapping, upper)
            || exists c :: c in Renames(contents, mapping, upper) && Overlap(c, e)
  {
    hide CodeMask, AllEdits, Chosen, Sorted, Ordered, Overlap;
    RenamesAreOrdered(contents, mapping, upper);
    ChosenEdits(AllEdits(mapping, CodeMask(contents), upper), |contents|, e);
  }

  lemma DirectiveIsMatched(
    masked: string, before: string, d: Statement, after: string, source: string, upper: char -> char) returns (m: Match)
    requires IsStatement(d, source) && NoSemicolon(source)
    requires masked == before + (Front(d) + d.name) + after && BeginsStatement(before)
    requires after == "" || SqlStream.IsSpace(after[0]) || after[0] == ';'
    requires d.condition == Always ==> !SameLetters(d.name, "IF")
    ensures m in AllMatches(Pattern.Directive, source, masked, 0, upper) && MatchIn(m, masked)
    ensures m.index == |before| && m.text == Front(d) + d.name && m.captured == d.name && d.name != ""
  {
    hide IsStatement, Front, AllMatches, DirectiveAt, BeginsStatement, IsName, NoSemicolon, SameLetters;
    var i, end := |before|, |before| + |Front(d) + d.name|;
    assert masked[i..end] == Front(d) + d.name;
    assert Closed(masked, end);
    NotInWord(before, masked);
    ReadsDirective(masked, i, d, source, upper);
    var here := MatchAt(Pattern.Directive, source, masked, i, upper);
    assert masked[i + |Front(d)|..end] == (Front(d) + d.name)[|Front(d)|..] == d.name;
    m := NothingIsMissed(Pattern.Directive, source, masked, 0, i, upper);
    MatchesAre(Pattern.Directive, source, masked, 0, upper);
    if m.index < i {
      MatchBegins(m, source, masked, upper);
      assert masked[m.index] == before[m.index];
      SemicolonBetween(before, m.index);
      var p :| m.index <= p < i && before[p] == ';';
      assert masked[p] == ';';
      MatchHasNone(m, source, masked, upper, p);
    }
  }

  lemma MatchBegins(m: Match, source: string, masked: string, upper: char -> char)
    requires MatchAt(Pattern.Directive, source, masked, m.index, upper) == Some(m)
    ensures m.index < |masked| && !SqlStream.IsSpace(masked[m.index])
  {
    hide DirectiveAt, IsName;
    DirectiveForm(masked, m.index, source, upper);
  }

  lemma MatchHasNone(m: Match, source: string, masked: string, upper: char -> char, p: nat)
    requires MatchAt(Pattern.Directive, source, masked, m.index, upper) == Some(m) && NoSemicolon(source)
    requires m.index <= p < m.index + |m.text|
    ensures masked[p] != ';'
  {
    hide DirectiveAt, IsName;
    DirectiveForm(masked, m.index, source, upper);
  }

  lemma NotInWord(before: string, masked: string)
    requires before <= masked && BeginsStatement(before)
    ensures !WordAt(masked, |before| - 1)
  {
    if before != "" { assert masked[|before| - 1] == before[|before| - 1]; }
  }

  // ---------------------------------------------------------------- a statement on its own

  // Neither a dot nor a backtick.
  predicate Wordy(text: string) { forall i | 0 <= i < |text| :: text[i] != '.' && text[i] != '`' }

  lemma WordyParts(a: string, b: string)
    requires Wordy(a) && Wordy(b)
    ensures Wordy(a + b)
  {
  }

  lemma WordIsWordy(w: string, word: string)
    requires SameLetters(w, word) && Letters(word)
    ensures Wordy(w)
  {
    forall i | 0 <= i < |w| ensures w[i] != '.' && w[i] != '`' { assert SameLetter(w[i], word[i]); }
  }

  lemma SpacesAreWordy(text: string)
    requires Spaces(text)
    ensures Wordy(text)
  {
  }

  lemma FrontIsWordy(d: Statement, source: string)
    requires IsStatement(d, source)
    ensures Wordy(Front(d))
  {
    hide SameLetters, Wordy, Letters, Names;
    LettersOf();
    SpacesAreWordy(d.space);
    VerbIsWordy(d.verb, d.gap, d.second);
    ConditionIsWordy(d.condition);
    WordyParts(d.gap, d.second);
    WordyParts(d.verb, d.gap + d.second);
    WordyParts(d.space, ConditionText(d.condition));
    WordyParts(d.verb + (d.gap + d.second), d.space + ConditionText(d.condition));
  }

  lemma VerbIsWordy(verb: string, gap: string, second: string)
    requires IsVerb(verb, gap, second)
    ensures Wordy(verb) && Wordy(gap) && Wordy(second)
  {
    hide SameLetters, Letters;
    LettersOf();
    if SameLetters(verb, "USE") {
      WordIsWordy(verb, "USE");
    } else {
      WordIsWordy(verb, if SameLetters(verb, "CREATE") then "CREATE"
                  else if SameLetters(verb, "ALTER") then "ALTER" else "DROP");
    }
    if second != "" {
      WordIsWordy(second, "DATABASE");
      SpacesAreWordy(gap);
    }
  }

  lemma ConditionIsWordy(c: Condition)
    requires IsCondition(c)
    ensures Wordy(ConditionText(c))
  {
    hide SameLetters, Letters;
    LettersOf();
    match c
    case Always =>
    case IfThere(word, a, there, b) =>
      WordIsWordy(word, "IF");
      WordIsWordy(there, "EXISTS");
    case IfNotThere(word, a, negation, b, there, d) =>
      WordIsWordy(word, "IF");
      WordIsWordy(negation, "NOT");
      WordIsWordy(there, "EXISTS");
  }

  // The dot that the lookahead has found.
  lemma {:induction false} DotIsThere(masked: string, i: nat)
    requires DotFollows(masked, i)
    ensures exists p :: i <= p < |masked| && masked[p] == '.' && forall k | i <= k < p :: SqlStream.IsSpace(masked[k])
    decreases |masked| - i
  {
    if masked[i] == '.' {
      assert masked[i] == '.';
    } else {
      DotIsThere(masked, i + 1);
      var p :| i + 1 <= p < |masked| && masked[p] == '.' && forall k | i + 1 <= k < p :: SqlStream.IsSpace(masked[k]);
      assert forall k | i <= k < p :: SqlStream.IsSpace(masked[k]);
    }
  }

  // A bare name has no backtick; and one that could be bare has neither a dot nor white space, quoted or not.
  lemma NameForm(name: string, source: string)
    requires Names(name, source)
    ensures name != ""
    ensures IsBare(source) ==> forall k | 0 <= k < |name| :: name[k] != '.' && !SqlStream.IsSpace(name[k])
    ensures if SameLetters(name, Quoted(source)) then |name| == |Quoted(source)|
            else forall k | 0 <= k < |name| :: name[k] != '`'
  {
    hide Quoted;
    NameBegins(name, source);
    if IsBare(source) {
      QuotedBare(source);
      var n := if SameLetters(name, Quoted(source)) then Quoted(source) else source;
      forall k | 0 <= k < |name| ensures name[k] != '.' && !SqlStream.IsSpace(name[k]) {
        assert SameLetter(name[k], n[k]);
      }
    }
    if !SameLetters(name, Quoted(source)) {
      forall k | 0 <= k < |name| ensures name[k] != '`' { assert SameLetter(name[k], source[k]); }
    }
  }

  // Names that are followed by a dot are not found in front + name + tail, where the dots, if any, are in the name.
  lemma NoQuotedMatch(front: string, name: string, tail: string, source: string, j: nat, upper: char -> char)
    requires Wordy(front) && Names(name, source) && Wordy(tail)
    ensures MatchAt(Pattern.QuotedName, source, front + name + tail, j, upper).None?
  {
    hide Quoted, IsName, DotFollows;
    var text, q, a := front + name + tail, Quoted(source), |front|;
    NameForm(name, source);
    EndsInBackticks(source);
    assert forall k | a + |name| <= k < |text| :: text[k] == tail[k - a - |name|];
    assert forall k | 0 <= k < a :: text[k] == front[k];
    assert forall k | a <= k < a + |name| :: text[k] == name[k - a];
    if Qualifies(text, source, j) {
      assert text[j..j + |q|][0] == text[j] && text[j..j + |q|][|q| - 1] == text[j + |q| - 1];
      DotIsThere(text, j + |q|);
    }
  }

  lemma NoBareMatch(front: string, name: string, tail: string, source: string, j: nat, upper: char -> char)
    requires Wordy(front) && Names(name, source) && Wordy(tail)
    ensures MatchAt(Pattern.BareName, source, front + name + tail, j, upper).None?
  {
    hide Quoted, IsName, DotFollows;
    var text, a := front + name + tail, |front|;
    NameForm(name, source);
    assert forall k | a + |name| <= k < |text| :: text[k] == tail[k - a - |name|];
    assert forall k | 0 <= k < a :: text[k] == front[k];
    assert forall k | a <= k < a + |name| :: text[k] == name[k - a];
    if IsBare(source) && DotFollows(text, j + |source|) { DotIsThere(text, j + |source|); }
  }

  predicate Empty(tail: string) { forall i | 0 <= i < |tail| :: SqlStream.IsSpace(tail[i]) || tail[i] == ';' }

  lemma NoVerb(text: string, j: nat, upper: char -> char)
    requires j < |text| && (SqlStream.IsSpace(text[j]) || text[j] == ';')
    ensures Keyword(text, j, upper) == None
  {
    FirstLike(text, "USE", j, upper);
    FirstLike(text, "CREATE", j, upper);
    FirstLike(text, "ALTER", j, upper);
    FirstLike(text, "DROP", j, upper);
  }

  lemma NothingLike(text: string, i: nat, upper: char -> char)
    requires i <= |text| && forall k | i <= k < |text| :: SqlStream.IsSpace(text[k]) || text[k] == ';'
    ensures NoMoreWords(text, i, upper)
  {
    var k := SkipSpaces(text, i);
    FirstLike(text, "NOT", k, upper);
    FirstLike(text, "EXISTS", k, upper);
  }

  // In the statement alone the directive is found, once.
  lemma OneDirective(d: Statement, source: string, tail: string, upper: char -> char)
    requires IsStatement(d, source) && Empty(tail)
    ensures AllMatches(Pattern.Directive, source, Front(d) + d.name + tail, 0, upper)
         == [Match(0, Front(d) + d.name, d.name)]
  {
    hide IsStatement, Front, DirectiveAt, IsName, SameLetters;
    var text, end := Front(d) + d.name + tail, |Front(d) + d.name|;
    assert text[0..end] == Front(d) + d.name;
    assert forall k | end <= k < |text| :: text[k] == tail[k - end];
    NothingLike(text, end, upper);
    ReadsDirective(text, 0, d, source, upper);
    assert text[|Front(d)|..end] == d.name;
    forall j: nat | end <= j < |text| ensures MatchAt(Pattern.Directive, source, text, j, upper).None? {
      NoDirective(source, text, j, upper);
    }
    NoMatches(Pattern.Directive, source, text, end, upper);
    HeadMatch(source, text, upper);
  }

  lemma NoDirective(source: string, text: string, j: nat, upper: char -> char)
    requires j < |text| && (SqlStream.IsSpace(text[j]) || text[j] == ';')
    ensures MatchAt(Pattern.Directive, source, text, j, upper).None?
  {
    hide Keyword;
    NoVerb(text, j, upper);
  }

  lemma HeadMatch(source: string, text: string, upper: char -> char)
    requires text != "" && MatchAt(Pattern.Directive, source, text, 0, upper).Some?
    ensures var m := MatchAt(Pattern.Directive, source, text, 0, upper).value;
            AllMatches(Pattern.Directive, source, text, 0, upper)
            == [m] + AllMatches(Pattern.Directive, source, text, |m.text|, upper)
  {
    hide MatchAt, MatchIn, IsName;
  }

  // An only edit is carried out.
  lemma OnlyEdit(contents: string, mapping: seq<Renaming>, upper: char -> char, e: Edit)
    requires AllEdits(mapping, CodeMask(contents), upper) == [e] && e.start < e.end <= |contents|
    ensures Rewritten(contents, mapping, upper) == contents[..e.start] + e.replacement + contents[e.end..]
  {
    hide CodeMask, AllEdits;
    assert Sequences.Sorted(Behind, [e]) == [e] by {
      assert Sequences.Sorted(Behind, []) == [];
      assert [e][1..] == [];
    }
    assert Chosen([], e.start) == [] && [e][1..] == [];
    assert Chosen([e], |contents|) == [e];
    assert Renames(contents, mapping, upper) == [e];
    assert Substitute(contents, e.end, []) == contents[e.end..];
  }

  lemma EditsOfOne(m: Match, replacement: string, masked: string)
    requires MatchIn(m, masked) && m.captured != ""
    ensures EditsOf([m], replacement)
         == [Edit(m.index + |m.text| - |m.captured|, m.index + |m.text|, replacement)]
    ensures m.index + |m.text| <= |masked|
  {
    EditCoversCapture(m, masked, replacement);
    var e := EditOf(m, replacement).value;
    assert |masked[e.start..e.end]| == |m.captured|;
    assert [m][..0] == [];
  }

  lemma PlainMask(contents: string)
    requires Plain(contents)
    ensures CodeMask(contents) == contents
  {
    hide CodeMask, Plain;
    PlainInFront(contents, "");
    NothingToMask();
    assert contents + "" == contents;
  }

  lemma EditsOfPatterns(r: Renaming, masked: string, upper: char -> char)
    ensures AllEdits([r], masked, upper)
         == PatternEdits(QuotedName, r, masked, upper) + PatternEdits(BareName, r, masked, upper)
            + PatternEdits(Pattern.Directive, r, masked, upper)
  {
    hide PatternEdits;
    assert [r][..0] == [];
  }

  // USE, CREATE DATABASE, ALTER DATABASE and DROP DATABASE, in any case, with any white space, with or without
  // IF EXISTS or IF NOT EXISTS, and with the name quoted or bare, come out with the new name and otherwise unchanged.
  lemma WholeStatement(d: Statement, source: string, destination: string, tail: string, upper: char -> char)
    requires IsStatement(d, source) && Empty(tail) && Plain(Front(d) + d.name + tail)
    ensures Rewritten(Front(d) + d.name + tail, [Renaming(source, destination)], upper)
         == Front(d) + Quoted(destination) + tail
  {
    hide IsStatement, Front, MatchAt, AllMatches, IsName, CodeMask, Quoted, Rewritten, AllEdits, Plain, Names;
    var contents, r := Front(d) + d.name + tail, Renaming(source, destination);
    PlainMask(contents);
    StatementName(d, source);
    FrontIsWordy(d, source);
    TailIsWordy(tail);
    forall j: nat | 0 <= j < |contents| ensures MatchAt(QuotedName, source, contents, j, upper).None? {
      NoQuotedMatch(Front(d), d.name, tail, source, j, upper);
    }
    NoMatches(QuotedName, source, contents, 0, upper);
    forall j: nat | 0 <= j < |contents| ensures MatchAt(BareName, source, contents, j, upper).None? {
      NoBareMatch(Front(d), d.name, tail, source, j, upper);
    }
    NoMatches(BareName, source, contents, 0, upper);
    OneDirective(d, source, tail, upper);
    var m := Match(0, Front(d) + d.name, d.name);
    assert m in AllMatches(Pattern.Directive, source, contents, 0, upper);
    EditsOfOne(m, Quoted(destination), contents);
    EditsOfPatterns(r, contents, upper);
    var e := Edit(|Front(d)|, |Front(d) + d.name|, Quoted(destination));
    assert AllEdits([r], contents, upper) == [e];
    OnlyEdit(contents, [r], upper, e);
    assert contents[..e.start] == Front(d) && contents[e.end..] == tail;
  }

  lemma StatementName(d: Statement, source: string)
    requires IsStatement(d, source)
    ensures Names(d.name, source) && d.name != ""
  {
    NameBegins(d.name, source);
  }

  lemma TailIsWordy(tail: string)
    requires Empty(tail)
    ensures Wordy(tail)
  {
  }

  // ---------------------------------------------------------------- a qualified name

  // What the patterns for qualified names take: the quoted name, or the bare one.
  predicate IsReference(name: string, source: string) {
    name == Quoted(source) || (NeedsNoQuotes(source) && name == source)
  }

  lemma {:induction false} DotBehind(masked: string, i: nat, space: string)
    requires Spaces(space) && At(masked, i, space + ".")
    ensures DotFollows(masked, i)
    decreases space
  {
    CharsAt(masked, i, space + ".");
    assert masked[i + 0] == (space + ".")[0];
    if space != "" {
      assert masked[i + 1..i + 1 + |space[1..] + "."|] == masked[i..i + |space + "."|][1..] == space[1..] + ".";
      DotBehind(masked, i + 1, space[1..]);
    }
  }

  lemma ReadsReference(text: string, i: nat, name: string, space: string, source: string, upper: char -> char)
    requires IsReference(name, source) && Spaces(space) && At(text, i, name + (space + "."))
    requires name == Quoted(source) || i == 0 || !IsNameChar(text[i - 1])
    ensures var p := if name == Quoted(source) then QuotedName else BareName;
            MatchAt(p, source, text, i, upper) == Some(Match(i, name, name))
    ensures i < |text|
  {
    hide Quoted, IsName, DotFollows;
    EndsInBackticks(source);
    AtJoins(text, i, name, space + ".");
    DotBehind(text, i + |name|, space);
  }

  // Wherever a source stands in the code of a text, quoted or bare, in front of a dot and white space aside, an edit
  // that gives it the new form is carried out, or overlaps one that is.
  lemma ReferenceIsRenamed(
    contents: string, mapping: seq<Renaming>, upper: char -> char, r: Renaming, before: string, name: string,
    space: string, after: string)
    requires r in mapping && IsReference(name, r.source) && Spaces(space)
    requires CodeMask(contents) == before + (name + (space + ".")) + after
    requires name == Quoted(r.source) || before == "" || !IsNameChar(before[|before| - 1])
    ensures exists e: Edit :: e.start <= |before| < e.end && e.replacement == Quoted(r.destination)
              && (e in Renames(contents, mapping, upper)
                  || exists c :: c in Renames(contents, mapping, upper) && Overlap(c, e))
  {
    hide CodeMask, MatchAt, Quoted, Renames, Overlap;
    var masked := CodeMask(contents);
    assert masked[|before|..|before| + |name + (space + ".")|] == name + (space + ".");
    assert before != "" ==> masked[|before| - 1] == before[|before| - 1];
    ReadsReference(masked, |before|, name, space, r.source, upper);
    var p := if name == Quoted(r.source) then QuotedName else BareName;
    ReferencesAreRenamed(contents, mapping, upper, r, p, |before|);
  }

  // What may stand behind the dot here: neither a dot, a backtick nor white space.
  predicate Tight(rest: string) { Wordy(rest) && forall i | 0 <= i < |rest| :: !SqlStream.IsSpace(rest[i]) }

  // The text of a reference, and what is known of its characters.
  lemma ReferenceChars(name: string, space: string, rest: string, source: string)
    requires IsReference(name, source) && Spaces(space) && Tight(rest)
    ensures var text, n, d := name + (space + ".") + rest, |name|, |name| + |space|;
            && 0 < n <= d < |text| && text[..n] == name && text[n..] == space + "." + rest && text[d] == '.'
            && (forall k | n <= k < d :: SqlStream.IsSpace(text[k]) && text[k] != '`' && !IsNameChar(text[k]))
            && (forall k | d < k < |text| :: !SqlStream.IsSpace(text[k]) && text[k] != '.' && text[k] != '`')
            && (IsBare(source) ==>
                  forall k | 0 <= k < n :: text[k] == name[k] != '.' && !SqlStream.IsSpace(text[k]))
            && (if name == Quoted(source) then text[0] == text[n - 1] == '`'
                else forall k | 0 <= k < n :: text[k] != '`')
  {
    hide Quoted;
    var text, n, d := name + (space + ".") + rest, |name|, |name| + |space|;
    EndsInBackticks(source);
    SameAsItself(name);
    NameForm(name, source);
    forall k | n <= k < d ensures text[k] == space[k - n] {}
    forall k | d < k < |text| ensures text[k] == rest[k - d - 1] {}
  }

  lemma SameAsItself(a: string)
    ensures SameLetters(a, a)
  {
  }

  lemma OccursChars(text: string, part: string, j: nat)
    ensures OccursAt(text, part, j) ==> forall k | j <= k < j + |part| :: text[k] == part[k - j]
  {
    if OccursAt(text, part, j) {
      forall k | j <= k < j + |part| ensures text[k] == part[k - j] { assert text[j..j + |part|][k - j] == text[k]; }
    }
  }

  // Behind the reference no name is in front of a dot.
  lemma NoMoreQuoted(name: string, space: string, rest: string, source: string, j: nat, upper: char -> char)
    requires IsReference(name, source) && Spaces(space) && Tight(rest)
    requires if name == Quoted(source) then j >= |name| else true
    ensures MatchAt(QuotedName, source, name + (space + ".") + rest, j, upper).None?
  {
    hide Quoted, IsName, DotFollows, IsReference;
    var text, q := name + (space + ".") + rest, Quoted(source);
    ReferenceChars(name, space, rest, source);
    EndsInBackticks(source);
    BareOrQuoted(name, source);
    OccursChars(text, q, j);
  }

  lemma BareOrQuoted(name: string, source: string)
    requires IsReference(name, source)
    ensures name != Quoted(source) ==> IsBare(source) && name == source
  {
    hide Quoted;
  }

  lemma NoMoreBare(name: string, space: string, rest: string, source: string, j: nat, upper: char -> char)
    requires IsReference(name, source) && Spaces(space) && Tight(rest)
    requires if name == Quoted(source) then true else j >= |name|
    ensures MatchAt(BareName, source, name + (space + ".") + rest, j, upper).None?
  {
    hide Quoted, IsName, DotFollows, IsReference;
    var text := name + (space + ".") + rest;
    ReferenceChars(name, space, rest, source);
    BareOrQuoted(name, source);
    OccursChars(text, source, j);
    if IsBare(source) && OccursAt(text, source, j) && DotFollows(text, j + |source|) {
      DotIsThere(text, j + |source|);
      BareInReference(name, space, rest, source, j);
    }
  }

  // A bare name cannot end just in front of the dot without being the reference itself.
  lemma BareInReference(name: string, space: string, rest: string, source: string, j: nat)
    requires IsReference(name, source) && IsBare(source) && Spaces(space) && Tight(rest)
    requires var text := name + (space + ".") + rest;
             && j + |source| <= |text| && (forall k | j <= k < j + |source| :: IsNameChar(text[k]))
             && exists p :: j + |source| <= p < |text| && text[p] == '.'
                  && forall k | j + |source| <= k < p :: SqlStream.IsSpace(text[k])
    ensures name != Quoted(source) && j < |name|
  {
    hide Quoted, IsReference;
    var text, n, d := name + (space + ".") + rest, |name|, |name| + |space|;
    ReferenceChars(name, space, rest, source);
    assert IsNameChar(text[j]);
    assert j < n;
  }

  lemma NoDirectiveThere(name: string, space: string, rest: string, source: string, j: nat, upper: char -> char)
    requires IsReference(name, source) && Spaces(space) && Tight(rest)
    ensures MatchAt(Pattern.Directive, source, name + (space + ".") + rest, j, upper).None?
  {
    hide Quoted, DirectiveAt, IsReference;
    var text, n := name + (space + ".") + rest, |name|;
    ReferenceChars(name, space, rest, source);
    EndsInBackticks(source);
    BareOrQuoted(name, source);
    DirectiveForm(text, j, source, upper);
    var found := DirectiveAt(text, j, source, upper);
    if found.Some? {
      CapturedEnds(text, found.value.0, found.value.1, source, upper);
    }
  }

  // A captured name begins with a backtick or a character of names, and a quoted one ends with a backtick.
  lemma CapturedEnds(text: string, a: nat, e: nat, source: string, upper: char -> char)
    requires a < e <= |text| && IsName(text[a..e], source, upper)
    ensures (text[a] == '`' || IsNameChar(text[a])) && !SqlStream.IsSpace(text[a])
    ensures IsBare(source) || (e == a + |Quoted(source)| && text[e - 1] == '`')
  {
    hide Quoted;
    EndsInBackticks(source);
    var captured := text[a..e];
    assert captured[0] == text[a] && captured[|captured| - 1] == text[e - 1];
    if Alike(captured, Quoted(source), upper) {
      assert Folded(captured[0], upper) == Folded('`', upper);
      assert Folded(captured[|captured| - 1], upper) == Folded('`', upper);
    } else {
      assert Folded(captured[0], upper) == Folded(source[0], upper);
    }
  }

  // A reference on its own comes out with the new name and otherwise unchanged.
  lemma WholeReference(
    name: string, space: string, rest: string, source: string, destination: string, upper: char -> char)
    requires IsReference(name, source) && Spaces(space) && Tight(rest) && Plain(name + (space + ".") + rest)
    ensures Rewritten(name + (space + ".") + rest, [Renaming(source, destination)], upper)
         == Quoted(destination) + (space + ".") + rest
  {
    hide MatchAt, AllMatches, IsName, CodeMask, Quoted, Rewritten, AllEdits, Plain, IsReference, Spaces, Tight, EditsOf;
    var contents, r := name + (space + ".") + rest, Renaming(source, destination);
    var p := if name == Quoted(source) then QuotedName else BareName;
    var other := if name == Quoted(source) then BareName else QuotedName;
    PlainMask(contents);
    ReferenceChars(name, space, rest, source);
    assert contents[0..|name + (space + ".")|] == name + (space + ".");
    ReadsReference(contents, 0, name, space, source, upper);
    forall j: nat | |name| <= j < |contents| ensures MatchAt(p, source, contents, j, upper).None? {
      if name == Quoted(source) {
        NoMoreQuoted(name, space, rest, source, j, upper);
      } else {
        NoMoreBare(name, space, rest, source, j, upper);
      }
    }
    NoMatches(p, source, contents, |name|, upper);
    forall j: nat | 0 <= j < |contents| ensures MatchAt(other, source, contents, j, upper).None? {
      if name == Quoted(source) {
        NoMoreBare(name, space, rest, source, j, upper);
      } else {
        NoMoreQuoted(name, space, rest, source, j, upper);
      }
    }
    NoMatches(other, source, contents, 0, upper);
    forall j: nat | 0 <= j < |contents| ensures MatchAt(Pattern.Directive, source, contents, j, upper).None? {
      NoDirectiveThere(name, space, rest, source, j, upper);
    }
    NoMatches(Pattern.Directive, source, contents, 0, upper);
    var m := Match(0, name, name);
    OnlyMatch(p, source, contents, m, upper);
    EditsOfOne(m, Quoted(destination), contents);
    NoEditsOf(Quoted(destination));
    EditsOfPatterns(r, contents, upper);
    var e := Edit(0, |name|, Quoted(destination));
    assert AllEdits([r], contents, upper) == [e];
    OnlyEdit(contents, [r], upper, e);
    assert contents[|name|..] == (space + ".") + rest;
  }

  lemma NoEditsOf(replacement: string)
    ensures EditsOf([], replacement) == []
  {
  }

  lemma OnlyMatch(p: Pattern, source: string, masked: string, m: Match, upper: char -> char)
    requires masked != "" && MatchAt(p, source, masked, 0, upper) == Some(m)
    requires AllMatches(p, source, masked, |m.text|, upper) == []
    ensures AllMatches(p, source, masked, 0, upper) == [m] && MatchIn(m, masked)
  {
    hide MatchAt, IsName;
  }
}
