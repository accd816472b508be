/**
  The reader as functions of the source and a position: what each method of
  `Parser` returns, where it stops, and the position each failure is reported at.
 */
module JsoncSpec {
  import opened Prelude
  import opened JsoncText

  datatype Problem =
    | UnterminatedComment | UnexpectedSlash | ExpectedValue | TrailingContent
    | SingleQuotes | LeadingPlus | UnexpectedCharacter(c: Code)
    | TooDeep | ExpectedKey | UnquotedKey | DuplicateKey(key: Text, firstLine: nat) | ExpectedColon(key: Text)
    | ExpectedSeparator | WrongSeparator(c: Code)
    | UnterminatedString | RawNewline | ControlCharacter | BadHex | BadEscape(letter: Code)
    | NotFinite | ExpectedDigit | HexNumber | LeadingZero | FractionDigits | ExponentDigits
    | UnknownWord(word: Text)

  /** A value and the position after it, or a problem and the position it is reported at. */
  datatype Res<T> = Ok(value: T, next: nat) | Fail(problem: Problem, at: nat)

  /** The code unit at `p`, or -1 at the end of the text. */
  function Peek(s: Source, p: nat): (c: int)
    ensures -1 <= c <= 0xFFFF && (c == -1 <==> p >= |s.text|)
  {
    if p < |s.text| then s.text[p] else -1
  }

  /** `next()` until the end of the line or of the text. */
  function LineEnd(s: Source, p: nat): (q: nat)
    requires p <= |s.text|
    ensures p <= q <= |s.text|
    decreases |s.text| - p
  {
    if p < |s.text| && s.text[p] != NEWLINE then LineEnd(s, p + 1) else p
  }

  /** The position after the first comment close at or after `p`. */
  function CommentEnd(s: Source, p: nat): (q: Option<nat>)
    requires p <= |s.text|
    ensures q.Some? ==> p + 2 <= q.value <= |s.text|
    decreases |s.text| - p
  {
    if p == |s.text| then None
    else if s.text[p] == STAR && Peek(s, p + 1) == SLASH then Some(p + 2)
    else CommentEnd(s, p + 1)
  }

  function SkipTrivia(s: Source, p: nat): (r: Res<()>)
    requires p <= |s.text|
    ensures if r.Ok? then p <= r.next <= |s.text| && r == Ok((), r.next) else p <= r.at <= |s.text|
    decreases |s.text| - p
  {
    var c := Peek(s, p);
    if IsBlank(c) then SkipTrivia(s, p + 1)
    else if c == SLASH then
      if Peek(s, p + 1) == SLASH then SkipTrivia(s, LineEnd(s, p + 2))
      else if Peek(s, p + 1) == STAR then
        var q := CommentEnd(s, p + 2);
        if q.None? then Fail(UnterminatedComment, p) else SkipTrivia(s, q.value)
      else Fail(UnexpectedSlash, p)
    else Ok((), p)
  }

  /** The four hex digits of an escape, of which `digits` have been read. */
  function HexFrom(s: Source, p: nat, digits: Text): (r: Res<Code>)
    requires p <= |s.text| && |digits| <= 4 && forall i :: 0 <= i < |digits| ==> IsHex(digits[i])
    ensures if r.Ok? then r.next == p + 4 - |digits| <= |s.text| else p <= r.at <= |s.text|
    decreases 4 - |digits|
  {
    if |digits| == 4 then Ok(HexValue(digits), p)
    else if IsHex(Peek(s, p)) then HexFrom(s, p + 1, digits + [Peek(s, p)])
    else Fail(BadHex, p)
  }

  /** The rest of a string opened at `open`, of which `value` has been read. */
  function StringFrom(s: Source, p: nat, open: nat, value: Text): (r: Res<Text>)
    requires open < p <= |s.text|
    ensures if r.Ok? then p < r.next <= |s.text| else r.at <= |s.text|
    decreases |s.text| - p
  {
    var c := Peek(s, p);
    if c == -1 then Fail(UnterminatedString, open)
    else if c == QUOTE then Ok(value, p + 1)
    else if c == NEWLINE then Fail(RawNewline, p)
    else if c < SPACE then Fail(ControlCharacter, p)
    else if c != BACKSLASH then StringFrom(s, p + 1, open, value + [c])
    else
      var letter := Peek(s, p + 1);
      if letter == -1 then Fail(UnterminatedString, open)
      else if letter == 0x75 then
        var hex := HexFrom(s, p + 2, []);
        if hex.Fail? then Fail(hex.problem, hex.at) else StringFrom(s, hex.next, open, value + [hex.value])
      else if Unescape(letter).Some? then StringFrom(s, p + 2, open, value + [Unescape(letter).value])
      else Fail(BadEscape(letter), p + 2)
  }

  function DigitsEnd(s: Source, p: nat): (q: nat)
    requires p <= |s.text|
    ensures p <= q <= |s.text| && AllDigits(s.text[p..q]) && !IsDigit(Peek(s, q))
    decreases |s.text| - p
  {
    if IsDigit(Peek(s, p)) then
      var q := DigitsEnd(s, p + 1);
      assert s.text[p..q] == [s.text[p]] + s.text[p + 1..q];
      q
    else p
  }

  function Whole(s: Source, p: nat): (r: Res<()>)
    requires p <= |s.text|
    ensures if r.Ok? then p < r.next <= |s.text| else r.at <= |s.text|
  {
    var c := Peek(s, p);
    if c == 0x49 then Fail(NotFinite, p)
    else if !IsDigit(c) then Fail(ExpectedDigit, p)
    else if c == ZERO then
      var after := Peek(s, p + 1);
      if after == 0x78 || after == 0x58 then Fail(HexNumber, p + 1)
      else if IsDigit(after) then Fail(LeadingZero, p + 1)
      else Ok((), p + 1)
    else Ok((), DigitsEnd(s, p + 1))
  }

  function Fraction(s: Source, p: nat): (r: Res<()>)
    requires p <= |s.text|
    ensures if r.Ok? then p <= r.next <= |s.text| else r.at <= |s.text|
  {
    if Peek(s, p) != DOT then Ok((), p)
    else if !IsDigit(Peek(s, p + 1)) then Fail(FractionDigits, p + 1)
    else Ok((), DigitsEnd(s, p + 1))
  }

  function Power(s: Source, p: nat): (r: Res<()>)
    requires p <= |s.text|
    ensures if r.Ok? then p <= r.next <= |s.text| else r.at <= |s.text|
  {
    if !IsE(Peek(s, p)) then Ok((), p)
    else
      var q := if IsSign(Peek(s, p + 1)) then p + 2 else p + 1;
      if !IsDigit(Peek(s, q)) then Fail(ExponentDigits, q) else Ok((), DigitsEnd(s, q))
  }

  function NumberAt(s: Source, p: nat): (r: Res<Text>)
    requires p < |s.text|
    ensures if r.Ok? then p < r.next <= |s.text| else r.at <= |s.text|
  {
    var whole := Whole(s, if Peek(s, p) == MINUS then p + 1 else p);
    if whole.Fail? then Fail(whole.problem, whole.at)
    else
      var fraction := Fraction(s, whole.next);
      if fraction.Fail? then Fail(fraction.problem, fraction.at)
      else
        var power := Power(s, fraction.next);
        if power.Fail? then Fail(power.problem, power.at) else Ok(s.text[p..power.next], power.next)
  }

  function LettersEnd(s: Source, p: nat): (q: nat)
    requires p <= |s.text|
    ensures p <= q <= |s.text| && !IsLetter(Peek(s, q)) && forall i :: p <= i < q ==> IsLetter(s.text[i])
    decreases |s.text| - p
  {
    if IsLetter(Peek(s, p)) then LettersEnd(s, p + 1) else p
  }

  const NAN: Text := [0x4E, 0x61, 0x4E]
  const INFINITY: Text := [0x49, 0x6E, 0x66, 0x69, 0x6E, 0x69, 0x74, 0x79]

  function Keyword(s: Source, p: nat): (r: Res<Node>)
    requires p < |s.text| && IsLetter(s.text[p])
    ensures if r.Ok? then p < r.next <= |s.text| else r.at <= |s.text|
  {
    var q := LettersEnd(s, p);
    var word := s.text[p..q];
    if word == PrintWord(True) || word == PrintWord(False) then Ok(Bool(PlaceAt(s, p), word == PrintWord(True)), q)
    else if word == PrintWord(Nil) then Ok(Null(PlaceAt(s, p)), q)
    else if word == NAN || word == INFINITY then Fail(NotFinite, p)
    else Fail(UnknownWord(word), p)
  }

  // ---- values --------------------------------------------------------------

  function ValueAt(s: Source, p: nat, depth: int): (r: Res<Node>)
    requires p <= |s.text|
    ensures if r.Ok? then p < r.next <= |s.text| else r.at <= |s.text|
    decreases |s.text| - p, 3
  {
    var skipped := SkipTrivia(s, p);
    if skipped.Fail? then Fail(skipped.problem, skipped.at)
    else
      var q := skipped.next;
      var c := Peek(s, q);
      if c == -1 then Fail(ExpectedValue, q)
      else if c == OPEN_BRACE then ObjectAt(s, q, depth)
      else if c == OPEN_BRACKET then ArrayAt(s, q, depth)
      else if c == QUOTE then
        var text := StringFrom(s, q + 1, q, []);
        if text.Fail? then Fail(text.problem, text.at) else Ok(Str(PlaceAt(s, q), text.value), text.next)
      else if c == APOSTROPHE then Fail(SingleQuotes, q)
      else if c == PLUS then Fail(LeadingPlus, q)
      else if c == MINUS || IsDigit(c) then
        var number := NumberAt(s, q);
        if number.Fail? then Fail(number.problem, number.at) else Ok(Num(PlaceAt(s, q), number.value), number.next)
      else if IsLetter(c) then Keyword(s, q)
      else Fail(UnexpectedCharacter(c), q)
  }

  function ObjectAt(s: Source, p: nat, depth: int): (r: Res<Node>)
    requires p < |s.text|
    ensures if r.Ok? then p < r.next <= |s.text| else r.at <= |s.text|
    decreases |s.text| - p, 2
  {
    if depth > MAX_DEPTH then Fail(TooDeep, p)
    else
      var skipped := SkipTrivia(s, p + 1);
      if skipped.Fail? then Fail(skipped.problem, skipped.at)
      else if Peek(s, skipped.next) == CLOSE_BRACE then Ok(Object(PlaceAt(s, p), []), skipped.next + 1)
      else
        var members := MembersFrom(s, skipped.next, depth, [], map[]);
        if members.Fail? then Fail(members.problem, members.at)
        else Ok(Object(PlaceAt(s, p), members.value), members.next)
  }

  /** The quoted key at or after `p`, refused when `lines` has it. */
  function QuotedKey(s: Source, p: nat, lines: map<Text, nat>): (r: Res<Text>)
    requires p <= |s.text|
    ensures if r.Ok? then p < r.next <= |s.text| else r.at <= |s.text|
  {
    var skipped := SkipTrivia(s, p);
    if skipped.Fail? then Fail(skipped.problem, skipped.at)
    else
      var q := skipped.next;
      if Peek(s, q) == -1 then Fail(ExpectedKey, q)
      else if Peek(s, q) == APOSTROPHE then Fail(SingleQuotes, q)
      else if Peek(s, q) != QUOTE then Fail(UnquotedKey, q)
      else
        var key := StringFrom(s, q + 1, q, []);
        if key.Ok? && key.value in lines then Fail(DuplicateKey(key.value, lines[key.value]), q) else key
  }

  /** The key and the position after its colon. */
  function KeyFrom(s: Source, p: nat, lines: map<Text, nat>): (r: Res<Text>)
    requires p <= |s.text|
    ensures if r.Ok? then p < r.next <= |s.text| else r.at <= |s.text|
  {
    var key := QuotedKey(s, p, lines);
    if key.Fail? then key
    else
      var colon := SkipTrivia(s, key.next);
      if colon.Fail? then Fail(colon.problem, colon.at)
      else if Peek(s, colon.next) != COLON then Fail(ExpectedColon(key.value), colon.next)
      else Ok(key.value, colon.next + 1)
  }

  /** What follows a member or element: `Some` position of the next one, or `None` and the end. */
  function SeparatorFrom(s: Source, p: nat, close: Code): (r: Res<bool>)
    requires p <= |s.text|
    ensures if r.Ok? then p < r.next <= |s.text| else r.at <= |s.text|
  {
    var skipped := SkipTrivia(s, p);
    if skipped.Fail? then Fail(skipped.problem, skipped.at)
    else
      var q := skipped.next;
      var c := Peek(s, q);
      if c == COMMA then
        var after := SkipTrivia(s, q + 1);
        if after.Fail? then Fail(after.problem, after.at)
        else if Peek(s, after.next) == close then Ok(false, after.next + 1)
        else Ok(true, after.next)
      else if c == close then Ok(false, q + 1)
      else if c == -1 then Fail(ExpectedSeparator, q)
      else Fail(WrongSeparator(c), q)
  }

  /** The line on which the key at or after `p` opens. */
  function KeyLine(s: Source, p: nat): nat
    requires p <= |s.text|
  {
    var skipped := SkipTrivia(s, p);
    if skipped.Ok? then LineAt(s.text, skipped.next) else 0
  }

  /** The members from `p` on, after `done`; `lines` maps the keys so far to their lines. */
  function MembersFrom(s: Source, p: nat, depth: int, done: seq<Entry>, lines: map<Text, nat>): (r: Res<seq<Entry>>)
    requires p <= |s.text|
    ensures if r.Ok? then p < r.next <= |s.text| else r.at <= |s.text|
    decreases |s.text| - p, 1
  {
    var key := KeyFrom(s, p, lines);
    if key.Fail? then Fail(key.problem, key.at)
    else
      var value := ValueAt(s, key.next, depth + 1);
      if value.Fail? then Fail(value.problem, value.at)
      else
        var all := done + [Entry(key.value, value.value)];
        var separator := SeparatorFrom(s, value.next, CLOSE_BRACE);
        if separator.Fail? then Fail(separator.problem, separator.at)
        else if separator.value then MembersFrom(s, separator.next, depth, all, lines[key.value := KeyLine(s, p)])
        else Ok(all, separator.next)
  }

  function ArrayAt(s: Source, p: nat, depth: int): (r: Res<Node>)
    requires p < |s.text|
    ensures if r.Ok? then p < r.next <= |s.text| else r.at <= |s.text|
    decreases |s.text| - p, 2
  {
    if depth > MAX_DEPTH then Fail(TooDeep, p)
    else
      var skipped := SkipTrivia(s, p + 1);
      if skipped.Fail? then Fail(skipped.problem, skipped.at)
      else if Peek(s, skipped.next) == CLOSE_BRACKET then Ok(Array(PlaceAt(s, p), []), skipped.next + 1)
      else
        var items := ElementsFrom(s, skipped.next, depth, []);
        if items.Fail? then Fail(items.problem, items.at)
        else Ok(Array(PlaceAt(s, p), items.value), items.next)
  }

  function ElementsFrom(s: Source, p: nat, depth: int, done: seq<Node>): (r: Res<seq<Node>>)
    requires p <= |s.text|
    ensures if r.Ok? then p < r.next <= |s.text| else r.at <= |s.text|
    decreases |s.text| - p, 4
  {
    var value := ValueAt(s, p, depth + 1);
    if value.Fail? then Fail(value.problem, value.at)
    else
      var all := done + [value.value];
      var separator := SeparatorFrom(s, value.next, CLOSE_BRACKET);
      if separator.Fail? then Fail(separator.problem, separator.at)
      else if separator.value then ElementsFrom(s, separator.next, depth, all)
      else Ok(all, separator.next)
  }

  function DocumentAt(s: Source): (r: Res<Node>)
    ensures if r.Ok? then r.next == |s.text| else r.at <= |s.text|
  {
    var skipped := SkipTrivia(s, 0);
    if skipped.Fail? then Fail(skipped.problem, skipped.at)
    else if Peek(s, skipped.next) == -1 then Fail(ExpectedValue, skipped.next)
    else
      var value := ValueAt(s, skipped.next, 1);
      if value.Fail? then value
      else
        var after := SkipTrivia(s, value.next);
        if after.Fail? then Fail(after.problem, after.at)
        else if Peek(s, after.next) != -1 then Fail(TrailingContent, after.next)
        else Ok(value.value, after.next)
  }

  /** The error a failure is reported as: position `at` as a line and a column. */
  datatype ConfigError = ConfigError(file: string, line: nat, column: nat, problem: Problem)

  function Report(s: Source, problem: Problem, at: nat): ConfigError {
    if at <= |s.text|
    then ConfigError(s.file, LineAt(s.text, at), at - LineStart(s.text, at) + 1, problem)
    else ConfigError(s.file, 0, 0, problem)
  }

  lemma SamePlace(s: Source, a: Problem, b: Problem, at: nat)
    ensures Report(s, a, at).(problem := b) == Report(s, b, at)
  {
  }

  /** A single leading byte order mark is dropped. */
  function WithoutBom(text: Text): Text { if |text| > 0 && text[0] == BOM then text[1..] else text }
}
