/**
  What the reader's errors say: every problem it reports is there, at the very
  position it is reported at; lines and columns count from one; and nesting is
  refused beyond 64 (src/config/internal/jsonc.ts).
 */
module JsoncDiagnosis {
  import opened JsoncText
  import opened JsoncSpec

  // ---- characters ----------------------------------------------------------

  /** One of the characters `cs` stands at `p`. */
  predicate In(s: Source, p: int, cs: set<char>) { 0 <= p < |s.text| && s.text[p] < 0xD800 && s.text[p] as char in cs }

  predicate DigitAt(s: Source, p: int) { 0 <= p < |s.text| && '0' as int <= s.text[p] <= '9' as int }

  predicate LetterAt(s: Source, p: int) {
    0 <= p < |s.text| && ('A' as int <= s.text[p] <= 'Z' as int || 'a' as int <= s.text[p] <= 'z' as int)
  }

  const TRUE_WORD: Text := ['t' as int, 'r' as int, 'u' as int, 'e' as int]
  const FALSE_WORD: Text := ['f' as int, 'a' as int, 'l' as int, 's' as int, 'e' as int]
  const NULL_WORD: Text := ['n' as int, 'u' as int, 'l' as int, 'l' as int]
  const NAN_WORD: Text := ['N' as int, 'a' as int, 'N' as int]
  const INFINITY_WORD: Text :=
    ['I' as int, 'n' as int, 'f' as int, 'i' as int, 'n' as int, 'i' as int, 't' as int, 'y' as int]

  predicate StandsAt(s: Source, p: nat, word: Text) { p + |word| <= |s.text| && s.text[p..p + |word|] == word }

  /** A quoted key that reads as `key`. */
  ghost predicate KeyAt(s: Source, q: nat, key: Text) {
    q < |s.text| && In(s, q, {'"'}) && StringFrom(s, q + 1, q, []).Ok? && StringFrom(s, q + 1, q, []).value == key
  }

  /** The problem is what stands at `at`. */
  ghost predicate Accuses(s: Source, problem: Problem, at: nat) {
    match problem
    case UnterminatedComment =>
      In(s, at, {'/'}) && In(s, at + 1, {'*'}) && forall i :: at + 2 <= i ==> !(In(s, i, {'*'}) && In(s, i + 1, {'/'}))
    case UnexpectedSlash => In(s, at, {'/'}) && !In(s, at + 1, {'/', '*'})
    case ExpectedValue => at == |s.text|
    case TrailingContent => at < |s.text| && !In(s, at, {' ', '\t', '\r', '\n', '/'})
    case SingleQuotes => In(s, at, {'\''})
    case LeadingPlus => In(s, at, {'+'})
    case UnexpectedCharacter(c) =>
      at < |s.text| && s.text[at] == c && !DigitAt(s, at) && !LetterAt(s, at)
      && !In(s, at, {'{', '[', '"', '\'', '+', '-', ' ', '\t', '\r', '\n', '/'})
    case TooDeep => In(s, at, {'{', '['})
    case ExpectedKey => at == |s.text|
    case UnquotedKey => at < |s.text| && !In(s, at, {'"', '\'', ' ', '\t', '\r', '\n', '/'})
    case DuplicateKey(key, line) => KeyAt(s, at, key) && exists q: nat :: q < at && KeyAt(s, q, key) && LineAt(s.text, q) == line
    case ExpectedColon(_) => at <= |s.text| && !In(s, at, {':', ' ', '\t', '\r', '\n', '/'})
    case ExpectedSeparator => at == |s.text|
    case WrongSeparator(c) => at < |s.text| && s.text[at] == c && !In(s, at, {',', ' ', '\t', '\r', '\n', '/'})
    case UnterminatedString => In(s, at, {'"'})
    case RawNewline => In(s, at, {'\n'})
    case ControlCharacter => at < |s.text| && s.text[at] < 32 && !In(s, at, {'\n'})
    case BadHex => at <= |s.text| && !DigitAt(s, at) && !In(s, at, {'a', 'b', 'c', 'd', 'e', 'f', 'A', 'B', 'C', 'D', 'E', 'F'})
    case BadEscape(letter) =>
      2 <= at <= |s.text| && In(s, at - 2, {'\\'}) && s.text[at - 1] == letter
      && !In(s, at - 1, {'"', '\\', '/', 'b', 'f', 'n', 'r', 't', 'u'})
    case NotFinite => StandsAt(s, at, NAN_WORD) || StandsAt(s, at, INFINITY_WORD) || (In(s, at - 1, {'-'}) && In(s, at, {'I'}))
    case ExpectedDigit => at <= |s.text| && !DigitAt(s, at) && !In(s, at, {'I'}) && In(s, at - 1, {'-'})
    case HexNumber => In(s, at, {'x', 'X'}) && In(s, at - 1, {'0'})
    case LeadingZero => DigitAt(s, at) && In(s, at - 1, {'0'})
    case FractionDigits => at <= |s.text| && !DigitAt(s, at) && In(s, at - 1, {'.'})
    case ExponentDigits =>
      at <= |s.text| && !DigitAt(s, at)
      && (In(s, at - 1, {'e', 'E'}) || (In(s, at - 1, {'+', '-'}) && In(s, at - 2, {'e', 'E'})))
    case UnknownWord(word) =>
      && word !in {NAN_WORD, INFINITY_WORD, TRUE_WORD, FALSE_WORD, NULL_WORD} &&
      at + |word| <= |s.text| && s.text[at..at + |word|] == word && forall i :: at <= i < at + |word| ==> LetterAt(s, i)
  }

  /** A failure accuses rightly. */
  ghost predicate Just<T>(s: Source, r: Res<T>) { r.Fail? ==> Accuses(s, r.problem, r.at) }

  // ---- trivia, strings, numbers, words -------------------------------------

  lemma {:induction false} NoCommentEnd(s: Source, p: nat)
    requires p <= |s.text| && CommentEnd(s, p).None?
    ensures forall i :: p <= i ==> !(In(s, i, {'*'}) && In(s, i + 1, {'/'}))
    decreases |s.text| - p
  {
    if p < |s.text| { NoCommentEnd(s, p + 1); }
  }

  /** Skipping stops at a character that is no trivia. */
  lemma {:induction false} SkipIsJust(s: Source, p: nat)
    requires p <= |s.text|
    ensures Just(s, SkipTrivia(s, p))
    ensures SkipTrivia(s, p).Ok? ==> !In(s, SkipTrivia(s, p).next, {' ', '\t', '\r', '\n', '/'})
    decreases |s.text| - p
  {
    hide LineEnd, CommentEnd;
    var c := Peek(s, p);
    if IsBlank(c) {
      SkipIsJust(s, p + 1);
    } else if c == SLASH && Peek(s, p + 1) == SLASH {
      SkipIsJust(s, LineEnd(s, p + 2));
    } else if c == SLASH && Peek(s, p + 1) == STAR {
      if CommentEnd(s, p + 2).Some? { SkipIsJust(s, CommentEnd(s, p + 2).value); } else { NoCommentEnd(s, p + 2); }
    }
  }

  lemma {:induction false} HexIsJust(s: Source, p: nat, digits: Text)
    requires p <= |s.text| && |digits| <= 4 && forall i :: 0 <= i < |digits| ==> IsHex(digits[i])
    ensures Just(s, HexFrom(s, p, digits))
    decreases 4 - |digits|
  {
    hide HexValue;
    if |digits| < 4 && IsHex(Peek(s, p)) { HexIsJust(s, p + 1, digits + [Peek(s, p)]); }
  }

  lemma {:induction false} StringIsJust(s: Source, p: nat, open: nat, value: Text)
    requires open < p <= |s.text| && In(s, open, {'"'})
    ensures Just(s, StringFrom(s, p, open, value))
    decreases |s.text| - p
  {
    hide HexFrom;
    var c := Peek(s, p);
    if c >= SPACE && c != QUOTE {
      var letter := Peek(s, p + 1);
      if c != BACKSLASH {
        StringIsJust(s, p + 1, open, value + [c]);
      } else if letter == 0x75 {
        HexIsJust(s, p + 2, []);
        var hex := HexFrom(s, p + 2, []);
        if hex.Ok? { StringIsJust(s, hex.next, open, value + [hex.value]); }
      } else if Unescape(letter).Some? {
        StringIsJust(s, p + 2, open, value + [Unescape(letter).value]);
      }
    }
  }

  lemma {:induction false} NumberIsJust(s: Source, p: nat)
    requires p < |s.text| && (In(s, p, {'-'}) || DigitAt(s, p))
    ensures Just(s, NumberAt(s, p))
  {
    hide DigitsEnd;
    var a := if Peek(s, p) == MINUS then p + 1 else p;
    WholeIsJust(s, a);
    if Whole(s, a).Ok? {
      FractionIsJust(s, Whole(s, a).next);
      if Fraction(s, Whole(s, a).next).Ok? { PowerIsJust(s, Fraction(s, Whole(s, a).next).next); }
    }
  }

  lemma {:induction false} WholeIsJust(s: Source, p: nat)
    requires p <= |s.text| && (DigitAt(s, p) || In(s, p - 1, {'-'}))
    ensures Just(s, Whole(s, p))
  {
    hide DigitsEnd;
  }

  lemma {:induction false} FractionIsJust(s: Source, p: nat)
    requires p <= |s.text|
    ensures Just(s, Fraction(s, p))
  {
    hide DigitsEnd;
  }

  lemma {:induction false} PowerIsJust(s: Source, p: nat)
    requires p <= |s.text|
    ensures Just(s, Power(s, p))
  {
    hide DigitsEnd;
  }

  lemma {:induction false} KeywordIsJust(s: Source, p: nat)
    requires p < |s.text| && IsLetter(s.text[p])
    ensures Just(s, Keyword(s, p))
  {
    hide LettersEnd, PlaceAt;
    var q := LettersEnd(s, p);
    var word := s.text[p..q];
    WordsAreSpelt();
  }

  lemma WordsAreSpelt()
    ensures NAN == NAN_WORD && INFINITY == INFINITY_WORD
    ensures PrintWord(True) == TRUE_WORD && PrintWord(False) == FALSE_WORD && PrintWord(Nil) == NULL_WORD
  {
  }

  // ---- values --------------------------------------------------------------

  /** The keys so far were written before `p`, on the lines remembered for them. */
  ghost predicate Known(s: Source, p: nat, lines: map<Text, nat>) {
    forall key :: key in lines ==> exists q: nat :: q < p && KeyAt(s, q, key) && LineAt(s.text, q) == lines[key]
  }

  lemma {:induction false} QuotedKeyIsJust(s: Source, p: nat, lines: map<Text, nat>)
    requires p <= |s.text| && Known(s, p, lines)
    ensures Just(s, QuotedKey(s, p, lines))
    ensures QuotedKey(s, p, lines).Ok? ==>
              && SkipTrivia(s, p).Ok?
              && var q := SkipTrivia(s, p).next; KeyAt(s, q, QuotedKey(s, p, lines).value) && p <= q < QuotedKey(s, p, lines).next
  {
    hide SkipTrivia, StringFrom, LineAt;
    SkipIsJust(s, p);
    if SkipTrivia(s, p).Ok? && Peek(s, SkipTrivia(s, p).next) == QUOTE {
      var q := SkipTrivia(s, p).next;
      StringIsJust(s, q + 1, q, []);
    }
  }

  lemma {:induction false} KeyIsJust(s: Source, p: nat, lines: map<Text, nat>)
    requires p <= |s.text| && Known(s, p, lines)
    ensures Just(s, KeyFrom(s, p, lines))
    ensures KeyFrom(s, p, lines).Ok? ==> Known(s, KeyFrom(s, p, lines).next, lines[KeyFrom(s, p, lines).value := KeyLine(s, p)])
  {
    hide SkipTrivia, StringFrom, LineAt, QuotedKey, KeyAt;
    QuotedKeyIsJust(s, p, lines);
    var key := QuotedKey(s, p, lines);
    if key.Ok? { SkipIsJust(s, key.next); }
    if KeyFrom(s, p, lines).Ok? { OneMoreKnown(s, p, KeyFrom(s, p, lines).next, lines, key.value); }
  }

  lemma {:induction false} OneMoreKnown(s: Source, p: nat, next: nat, lines: map<Text, nat>, key: Text)
    requires p <= |s.text| && Known(s, p, lines) && SkipTrivia(s, p).Ok?
    requires KeyAt(s, SkipTrivia(s, p).next, key) && SkipTrivia(s, p).next < next && p <= next
    ensures Known(s, next, lines[key := KeyLine(s, p)])
  {
    hide SkipTrivia, LineAt, KeyAt;
  }

  lemma {:induction false} LaterKnown(s: Source, p: nat, next: nat, lines: map<Text, nat>)
    requires Known(s, p, lines) && p <= next
    ensures Known(s, next, lines)
  {
    hide LineAt, KeyAt;
  }

  lemma {:induction false} SeparatorIsJust(s: Source, p: nat, close: Code)
    requires p <= |s.text|
    ensures Just(s, SeparatorFrom(s, p, close))
  {
    hide SkipTrivia;
    SkipIsJust(s, p);
    if SkipTrivia(s, p).Ok? && Peek(s, SkipTrivia(s, p).next) == COMMA { SkipIsJust(s, SkipTrivia(s, p).next + 1); }
  }

  lemma {:induction false} ValueIsJust(s: Source, p: nat, depth: int)
    requires p <= |s.text|
    ensures Just(s, ValueAt(s, p, depth))
    decreases |s.text| - p, 3
  {
    hide SkipTrivia, StringFrom, NumberAt, Keyword, ObjectAt, ArrayAt, PlaceAt, Accuses;
    SkipIsJust(s, p);
    if SkipTrivia(s, p).Ok? {
      var q := SkipTrivia(s, p).next;
      var c := Peek(s, q);
      if c == OPEN_BRACE {
        ObjectIsJust(s, q, depth);
      } else if c == OPEN_BRACKET {
        ArrayIsJust(s, q, depth);
      } else if c == QUOTE {
        StringIsJust(s, q + 1, q, []);
      } else if c == MINUS || IsDigit(c) {
        NumberIsJust(s, q);
      } else if c != -1 && IsLetter(c) {
        KeywordIsJust(s, q);
      } else {
        OtherIsJust(s, q);
      }
    }
  }

  /** What begins no value. */
  lemma {:induction false} OtherIsJust(s: Source, q: nat)
    requires q <= |s.text| && !In(s, q, {' ', '\t', '\r', '\n', '/'})
    ensures q == |s.text| ==> Accuses(s, ExpectedValue, q)
    ensures Peek(s, q) == APOSTROPHE ==> Accuses(s, SingleQuotes, q)
    ensures Peek(s, q) == PLUS ==> Accuses(s, LeadingPlus, q)
    ensures var c := Peek(s, q);
            (&& c != -1 && c != APOSTROPHE && c != PLUS && c != OPEN_BRACE && c != OPEN_BRACKET && c != QUOTE && c != MINUS
             && !IsDigit(c) && !IsLetter(c)) ==> Accuses(s, UnexpectedCharacter(c), q)
  {
  }

  lemma {:induction false} ObjectIsJust(s: Source, p: nat, depth: int)
    requires p < |s.text| && s.text[p] == OPEN_BRACE
    ensures Just(s, ObjectAt(s, p, depth))
    decreases |s.text| - p, 2
  {
    hide SkipTrivia, PlaceAt, MembersFrom;
    SkipIsJust(s, p + 1);
    var skipped := SkipTrivia(s, p + 1);
    if skipped.Ok? { MembersAreJust(s, skipped.next, depth, [], map[]); }
  }

  lemma {:induction false} MembersAreJust(s: Source, p: nat, depth: int, done: seq<Entry>, lines: map<Text, nat>)
    requires p <= |s.text| && Known(s, p, lines)
    ensures Just(s, MembersFrom(s, p, depth, done, lines))
    decreases |s.text| - p, 4
  {
    hide KeyFrom, ValueAt, SeparatorFrom, KeyLine, Accuses, Known;
    KeyIsJust(s, p, lines);
    var key := KeyFrom(s, p, lines);
    if key.Ok? {
      ValueIsJust(s, key.next, depth + 1);
      var value := ValueAt(s, key.next, depth + 1);
      if value.Ok? {
        SeparatorIsJust(s, value.next, CLOSE_BRACE);
        var separator := SeparatorFrom(s, value.next, CLOSE_BRACE);
        var lines' := lines[key.value := KeyLine(s, p)];
        if separator.Ok? && separator.value {
          LaterKnown(s, key.next, separator.next, lines');
          MembersAreJust(s, separator.next, depth, done + [Entry(key.value, value.value)], lines');
        }
      }
    }
  }

  lemma {:induction false} ArrayIsJust(s: Source, p: nat, depth: int)
    requires p < |s.text| && s.text[p] == OPEN_BRACKET
    ensures Just(s, ArrayAt(s, p, depth))
    decreases |s.text| - p, 2
  {
    hide SkipTrivia, PlaceAt, ElementsFrom;
    SkipIsJust(s, p + 1);
    var skipped := SkipTrivia(s, p + 1);
    if skipped.Ok? { ElementsAreJust(s, skipped.next, depth, []); }
  }

  lemma {:induction false} ElementsAreJust(s: Source, p: nat, depth: int, done: seq<Node>)
    requires p <= |s.text|
    ensures Just(s, ElementsFrom(s, p, depth, done))
    decreases |s.text| - p, 4
  {
    hide ValueAt, SeparatorFrom, Accuses;
    ValueIsJust(s, p, depth + 1);
    var value := ValueAt(s, p, depth + 1);
    if value.Ok? {
      SeparatorIsJust(s, value.next, CLOSE_BRACKET);
      var separator := SeparatorFrom(s, value.next, CLOSE_BRACKET);
      if separator.Ok? && separator.value { ElementsAreJust(s, separator.next, depth, done + [value.value]); }
    }
  }

  /** Every error the reader reports is there, at the position it is reported at. */
  lemma {:induction false} ErrorsAreThere(s: Source)
    ensures Just(s, DocumentAt(s))
  {
    hide SkipTrivia, ValueAt;
    SkipIsJust(s, 0);
    if SkipTrivia(s, 0).Ok? {
      var value := ValueAt(s, SkipTrivia(s, 0).next, 1);
      ValueIsJust(s, SkipTrivia(s, 0).next, 1);
      if value.Ok? { SkipIsJust(s, value.next); }
    }
  }

  // ---- lines and columns ---------------------------------------------------

  /** A report counts lines and columns from one, and a new line begins after each newline. */
  lemma {:induction false} ReportCounts(s: Source, problem: Problem, at: nat)
    requires at <= |s.text|
    ensures var here := Report(s, problem, at);
            && here.file == s.file && here.problem == problem
            && (at == 0 ==> here.line == 1 && here.column == 1)
            && (at > 0 ==>
                  var before := Report(s, problem, at - 1);
                  if s.text[at - 1] == '\n' as int then here.line == before.line + 1 && here.column == 1
                  else here.line == before.line && here.column == before.column + 1)
  {
    if at > 0 { assert s.text[..at] == s.text[..at - 1] + [s.text[at - 1]]; }
  }

  // ---- nesting -------------------------------------------------------------

  /** Sixty-four brackets may be open, and the next one is refused: where it stands, whatever follows. */
  lemma {:induction false} DeepIsRefused(s: Source, p: nat)
    requires p <= 64 < |s.text| && forall i :: 0 <= i <= 64 ==> In(s, i, {'['})
    ensures ValueAt(s, p, p + 1) == Fail(TooDeep, 64)
    decreases 64 - p
  {
    hide PlaceAt;
    assert In(s, p, {'['});
    assert SkipTrivia(s, p) == Ok((), p);
    if p < 64 {
      assert In(s, p + 1, {'['});
      assert SkipTrivia(s, p + 1) == Ok((), p + 1);
      DeepIsRefused(s, p + 1);
      assert ElementsFrom(s, p + 1, p + 1, []) == Fail(TooDeep, 64);
    }
    assert ArrayAt(s, p, p + 1) == Fail(TooDeep, 64);
  }
}
