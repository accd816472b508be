/**
  `Parser` (src/config/internal/jsonc.ts): one scan position with its line,
  advanced in place. Every method is proved against its function in JsoncSpec,
  and `Valid` says at every step what the line and its start must be.
 */
module JsoncParser {
  import opened JsoncText
  import opened JsoncSpec

  datatype Parsed<T> = Good(value: T) | Bad(error: ConfigError)

  class Parser {
    const s: Source
    var pos: nat
    var line: nat
    var lineStart: nat

    /** `line` counts the newlines before `pos`, and `lineStart` is where its line begins. */
    ghost predicate Valid()
      reads this
    {
      pos <= |s.text| && line == LineAt(s.text, pos) && StartsLine(s.text, pos, lineStart)
    }

    constructor (s: Source)
      ensures Valid() && this.s == s && pos == 0
    {
      this.s := s;
      pos, line, lineStart := 0, 1, 0;
    }

    /** `r` is what the specification returns, and a success leaves `pos` where it says. */
    ghost predicate Agrees<T>(r: Parsed<T>, spec: Res<T>)
      reads this
    {
      match spec
      case Ok(value, next) => r == Good(value) && pos == next
      case Fail(problem, at) => r == Bad(Report(s, problem, at))
    }

    /** The error at the current position. */
    method Error(problem: Problem) returns (error: ConfigError)
      requires Valid()
      ensures error == Report(s, problem, pos)
    {
      LineStartIsUnique(s.text, pos, lineStart, LineStart(s.text, pos));
      error := ConfigError(s.file, line, pos - lineStart + 1, problem);
    }

    method Here() returns (place: Place)
      requires Valid()
      ensures place == PlaceAt(s, pos)
    {
      place := Place(s.file, line);
    }

    method Advance()
      requires Valid() && pos < |s.text|
      modifies this
      ensures Valid() && pos == old(pos) + 1
    {
      var c := s.text[pos];
      assert s.text[..pos + 1] == s.text[..pos] + [c];
      pos := pos + 1;
      if c == NEWLINE {
        line := line + 1;
        lineStart := pos;
      }
    }

    method SkipLine()
      requires Valid() && pos + 2 <= |s.text|
      modifies this
      ensures Valid() && pos == LineEnd(s, old(pos) + 2)
    {
      hide LineAt, StartsLine, LineStart;
      ghost var end := LineEnd(s, pos + 2);
      Advance();
      Advance();
      while pos < |s.text| && s.text[pos] != NEWLINE
        invariant Valid() && LineEnd(s, pos) == end
      {
        Advance();
      }
    }

    method SkipBlock() returns (r: Parsed<()>)
      requires Valid() && pos + 2 <= |s.text|
      modifies this
      ensures Valid()
      ensures var end := CommentEnd(s, old(pos) + 2);
              Agrees(r, if end.Some? then Ok((), end.value) else Fail(UnterminatedComment, old(pos)))
    {
      hide LineAt, StartsLine, LineStart, Report;
      var error := Error(UnterminatedComment);
      ghost var end := CommentEnd(s, pos + 2);
      Advance();
      Advance();
      while pos < |s.text| && !(s.text[pos] == STAR && Peek(s, pos + 1) == SLASH)
        invariant Valid() && CommentEnd(s, pos) == end
      {
        Advance();
      }
      if pos == |s.text| { return Bad(error); }
      Advance();
      Advance();
      return Good(());
    }

    method SkipTrivia() returns (r: Parsed<()>)
      requires Valid()
      modifies this
      ensures Valid() && Agrees(r, JsoncSpec.SkipTrivia(s, old(pos)))
    {
      hide LineAt, StartsLine, LineStart, Report, LineEnd, CommentEnd;
      ghost var goal := JsoncSpec.SkipTrivia(s, pos);
      while true
        invariant Valid() && JsoncSpec.SkipTrivia(s, pos) == goal
        decreases |s.text| - pos
      {
        var c := Peek(s, pos);
        if IsBlank(c) {
          Advance();
        } else if c == SLASH && Peek(s, pos + 1) == SLASH {
          SkipLine();
        } else if c == SLASH && Peek(s, pos + 1) == STAR {
          var closed := SkipBlock();
          if closed.Bad? { return closed; }
        } else if c == SLASH {
          var error := Error(UnexpectedSlash);
          return Bad(error);
        } else {
          return Good(());
        }
      }
    }

    /** Called on the opening quote. */
    method ParseString() returns (r: Parsed<Text>)
      requires Valid() && Peek(s, pos) == QUOTE
      modifies this
      ensures Valid() && Agrees(r, StringFrom(s, old(pos) + 1, old(pos), []))
    {
      hide LineAt, StartsLine, LineStart, Report;
      ghost var goal := StringFrom(s, pos + 1, pos, []);
      ghost var open := pos;
      var unterminated := Error(UnterminatedString);
      Advance();
      var value: Text := [];
      while pos < |s.text| && s.text[pos] != QUOTE
        invariant Valid() && open < pos && StringFrom(s, pos, open, value) == goal
        decreases |s.text| - pos
      {
        var c := s.text[pos];
        if c < SPACE {
          var error := Error(if c == NEWLINE then RawNewline else ControlCharacter);
          return Bad(error);
        }
        if c != BACKSLASH {
          value := value + [c];
          Advance();
          continue;
        }
        Advance();
        if pos == |s.text| { return Bad(unterminated); }
        var letter := s.text[pos];
        Advance();
        if letter == 0x75 {
          var hex := ParseHex();
          if hex.Bad? { return Bad(hex.error); }
          value := value + [hex.value];
        } else if Unescape(letter).Some? {
          value := value + [Unescape(letter).value];
        } else {
          var error := Error(BadEscape(letter));
          return Bad(error);
        }
      }
      if pos == |s.text| { return Bad(unterminated); }
      Advance();
      return Good(value);
    }

    /** The four digits of a `u` escape. */
    method ParseHex() returns (r: Parsed<Code>)
      requires Valid()
      modifies this
      ensures Valid() && Agrees(r, HexFrom(s, old(pos), []))
    {
      hide LineAt, StartsLine, LineStart, Report;
      ghost var goal := HexFrom(s, pos, []);
      var hex: Text := [];
      for i := 0 to 4
        invariant Valid() && |hex| == i && (forall k :: 0 <= k < i ==> IsHex(hex[k]))
        invariant HexFrom(s, pos, hex) == goal
      {
        if !IsHex(Peek(s, pos)) {
          var error := Error(BadHex);
          return Bad(error);
        }
        hex := hex + [s.text[pos]];
        Advance();
      }
      return Good(HexValue(hex));
    }

    method SkipDigits()
      requires Valid()
      modifies this
      ensures Valid() && pos == DigitsEnd(s, old(pos))
    {
      hide LineAt, StartsLine, LineStart;
      ghost var end := DigitsEnd(s, pos);
      while IsDigit(Peek(s, pos))
        invariant Valid() && DigitsEnd(s, pos) == end
        decreases |s.text| - pos
      {
        Advance();
      }
    }

    /** Zero, or digits without a leading zero. */
    method ParseWhole() returns (r: Parsed<()>)
      requires Valid()
      modifies this
      ensures Valid() && Agrees(r, Whole(s, old(pos)))
    {
      hide LineAt, StartsLine, LineStart, Report;
      var c := Peek(s, pos);
      if !IsDigit(c) {
        var error := Error(if c == 0x49 then NotFinite else ExpectedDigit);
        return Bad(error);
      }
      Advance();
      if c == ZERO {
        var after := Peek(s, pos);
        if after == 0x78 || after == 0x58 || IsDigit(after) {
          var error := Error(if IsDigit(after) then LeadingZero else HexNumber);
          return Bad(error);
        }
      } else {
        SkipDigits();
      }
      return Good(());
    }

    /** One digit or more, or the problem of having none. */
    method ParseDigits(problem: Problem) returns (r: Parsed<()>)
      requires Valid()
      modifies this
      ensures Valid()
      ensures Agrees(r, if IsDigit(Peek(s, old(pos))) then Ok((), DigitsEnd(s, old(pos))) else Fail(problem, old(pos)))
    {
      if !IsDigit(Peek(s, pos)) {
        var error := Error(problem);
        return Bad(error);
      }
      SkipDigits();
      return Good(());
    }

    method ParseFraction() returns (r: Parsed<()>)
      requires Valid()
      modifies this
      ensures Valid() && Agrees(r, Fraction(s, old(pos)))
    {
      hide LineAt, StartsLine, LineStart, Report, DigitsEnd;
      if Peek(s, pos) != DOT { return Good(()); }
      Advance();
      r := ParseDigits(FractionDigits);
    }

    method ParsePower() returns (r: Parsed<()>)
      requires Valid()
      modifies this
      ensures Valid() && Agrees(r, Power(s, old(pos)))
    {
      hide LineAt, StartsLine, LineStart, Report, DigitsEnd;
      if !IsE(Peek(s, pos)) { return Good(()); }
      Advance();
      if IsSign(Peek(s, pos)) { Advance(); }
      r := ParseDigits(ExponentDigits);
    }

    method ParseNumber() returns (r: Parsed<Node>)
      requires Valid() && (Peek(s, pos) == MINUS || IsDigit(Peek(s, pos)))
      modifies this
      ensures Valid()
      ensures var spec := NumberAt(s, old(pos));
              Agrees(r, if spec.Ok? then Ok(Num(PlaceAt(s, old(pos)), spec.value), spec.next) else Fail(spec.problem, spec.at))
    {
      hide LineAt, StartsLine, LineStart, Report, PlaceAt, Whole, Fraction, Power;
      var start := pos;
      var place := Here();
      if Peek(s, pos) == MINUS { Advance(); }
      var whole := ParseWhole();
      if whole.Bad? { return Bad(whole.error); }
      var fraction := ParseFraction();
      if fraction.Bad? { return Bad(fraction.error); }
      var power := ParsePower();
      if power.Bad? { return Bad(power.error); }
      return Good(Num(place, s.text[start..pos]));
    }

    method ParseKeyword() returns (r: Parsed<Node>)
      requires Valid() && IsLetter(Peek(s, pos))
      modifies this
      ensures Valid() && Agrees(r, Keyword(s, old(pos)))
    {
      var start := pos;
      var place := Here();
      var notFinite := Error(NotFinite);
      hide LineAt, StartsLine, LineStart, PlaceAt;
      ghost var end := LettersEnd(s, pos);
      var word: Text := [];
      while IsLetter(Peek(s, pos))
        invariant Valid() && start <= pos && word == s.text[start..pos] && LettersEnd(s, pos) == end
        decreases |s.text| - pos
      {
        word := word + [s.text[pos]];
        Advance();
      }
      if word == PrintWord(True) || word == PrintWord(False) {
        return Good(Bool(place, word == PrintWord(True)));
      }
      if word == PrintWord(Nil) { return Good(Null(place)); }
      if word == NAN || word == INFINITY { return Bad(notFinite); }
      return Bad(notFinite.(problem := UnknownWord(word)));
    }

    method ParseValue(depth: int) returns (r: Parsed<Node>)
      requires Valid()
      modifies this
      ensures Valid() && Agrees(r, ValueAt(s, old(pos), depth))
      decreases |s.text| - pos, 3
    {
      hide LineAt, StartsLine, LineStart, Report, PlaceAt, JsoncSpec.SkipTrivia, StringFrom, NumberAt, Keyword, ObjectAt, ArrayAt;
      var skipped := SkipTrivia();
      if skipped.Bad? { return Bad(skipped.error); }
      var place := Here();
      var c := Peek(s, pos);
      if c == OPEN_BRACE {
        r := ParseObject(depth);
      } else if c == OPEN_BRACKET {
        r := ParseArray(depth);
      } else if c == QUOTE {
        var text := ParseString();
        return if text.Good? then Good(Str(place, text.value)) else Bad(text.error);
      } else if c == MINUS || IsDigit(c) {
        r := ParseNumber();
      } else if IsLetter(c) {
        r := ParseKeyword();
      } else {
        var error := Error(if c == -1 then ExpectedValue else if c == APOSTROPHE then SingleQuotes
                           else if c == PLUS then LeadingPlus else UnexpectedCharacter(c));
        return Bad(error);
      }
    }

    method ParseObject(depth: int) returns (r: Parsed<Node>)
      requires Valid() && Peek(s, pos) == OPEN_BRACE
      modifies this
      ensures Valid() && Agrees(r, ObjectAt(s, old(pos), depth))
      decreases |s.text| - pos, 2
    {
      hide LineAt, StartsLine, LineStart, Report, PlaceAt, JsoncSpec.SkipTrivia, KeyFrom, KeyLine, SeparatorFrom, ValueAt;
      if depth > MAX_DEPTH {
        var error := Error(TooDeep);
        return Bad(error);
      }
      var place := Here();
      ghost var start := pos;
      Advance();
      var skipped := SkipTrivia();
      if skipped.Bad? { return Bad(skipped.error); }
      if Peek(s, pos) == CLOSE_BRACE {
        Advance();
        return Good(Object(place, []));
      }
      var entries: seq<Entry>, lines: map<Text, nat> := [], map[];
      ghost var goal := MembersFrom(s, pos, depth, [], map[]);
      while true
        invariant Valid() && start < pos && MembersFrom(s, pos, depth, entries, lines) == goal
        decreases |s.text| - pos
      {
        var key, keyLine := ParseKey(lines);
        if key.Bad? { return Bad(key.error); }
        var value := ParseValue(depth + 1);
        if value.Bad? { return Bad(value.error); }
        entries := entries + [Entry(key.value, value.value)];
        var more := ParseSeparator(CLOSE_BRACE);
        if more.Bad? { return Bad(more.error); }
        if !more.value { return Good(Object(place, entries)); }
        lines := lines[key.value := keyLine];
      }
    }

    /** A key that is not in `lines`, and the colon after it. */
    method ParseKey(lines: map<Text, nat>) returns (r: Parsed<Text>, keyLine: nat)
      requires Valid()
      modifies this
      ensures Valid() && Agrees(r, KeyFrom(s, old(pos), lines)) && (r.Good? ==> keyLine == KeyLine(s, old(pos)))
    {
      hide LineAt, LineStart, StartsLine, Report, KeyLine, StringFrom, JsoncSpec.SkipTrivia;
      r, keyLine := ParseQuotedKey(lines);
      if r.Bad? { return; }
      var key := r.value;
      var colon := SkipTrivia();
      if colon.Bad? { r := Bad(colon.error); return; }
      if Peek(s, pos) != COLON {
        var error := Error(ExpectedColon(key));
        r := Bad(error);
        return;
      }
      Advance();
    }

    method ParseQuotedKey(lines: map<Text, nat>) returns (r: Parsed<Text>, keyLine: nat)
      requires Valid()
      modifies this
      ensures Valid() && Agrees(r, QuotedKey(s, old(pos), lines)) && (r.Good? ==> keyLine == KeyLine(s, old(pos)))
    {
      hide LineAt, LineStart, StartsLine, Report, StringFrom, JsoncSpec.SkipTrivia;
      keyLine := 0;
      var skipped := SkipTrivia();
      if skipped.Bad? { r := Bad(skipped.error); return; }
      var place := Here();
      keyLine := place.line;
      var c := Peek(s, pos);
      if c != QUOTE {
        var error := Error(if c == -1 then ExpectedKey else if c == APOSTROPHE then SingleQuotes else UnquotedKey);
        r := Bad(error);
        return;
      }
      ghost var open := pos;
      var duplicate := Error(ExpectedKey);
      r := ParseString();
      if r.Good? && r.value in lines {
        SamePlace(s, ExpectedKey, DuplicateKey(r.value, lines[r.value]), open);
        r := Bad(duplicate.(problem := DuplicateKey(r.value, lines[r.value])));
      }
    }

    /** A comma and no close after it: `true`; a close, perhaps after one comma: `false`. */
    method ParseSeparator(close: Code) returns (r: Parsed<bool>)
      requires Valid() && close != COMMA
      modifies this
      ensures Valid() && Agrees(r, SeparatorFrom(s, old(pos), close))
    {
      hide LineAt, StartsLine, LineStart, Report;
      var skipped := SkipTrivia();
      if skipped.Bad? { return Bad(skipped.error); }
      var c := Peek(s, pos);
      if c == COMMA {
        Advance();
        var after := SkipTrivia();
        if after.Bad? { return Bad(after.error); }
        if Peek(s, pos) == close {
          Advance();
          return Good(false);
        }
        return Good(true);
      }
      if c == close {
        Advance();
        return Good(false);
      }
      var error := Error(if c == -1 then ExpectedSeparator else WrongSeparator(c));
      return Bad(error);
    }

    method ParseArray(depth: int) returns (r: Parsed<Node>)
      requires Valid() && Peek(s, pos) == OPEN_BRACKET
      modifies this
      ensures Valid() && Agrees(r, ArrayAt(s, old(pos), depth))
      decreases |s.text| - pos, 2
    {
      hide LineAt, StartsLine, LineStart, Report, PlaceAt, JsoncSpec.SkipTrivia, KeyFrom, KeyLine, SeparatorFrom, ValueAt;
      if depth > MAX_DEPTH {
        var error := Error(TooDeep);
        return Bad(error);
      }
      var place := Here();
      ghost var start := pos;
      Advance();
      var skipped := SkipTrivia();
      if skipped.Bad? { return Bad(skipped.error); }
      if Peek(s, pos) == CLOSE_BRACKET {
        Advance();
        return Good(Array(place, []));
      }
      var items: seq<Node> := [];
      ghost var goal := ElementsFrom(s, pos, depth, []);
      while true
        invariant Valid() && start < pos && ElementsFrom(s, pos, depth, items) == goal
        decreases |s.text| - pos
      {
        var value := ParseValue(depth + 1);
        if value.Bad? { return Bad(value.error); }
        items := items + [value.value];
        var more := ParseSeparator(CLOSE_BRACKET);
        if more.Bad? { return Bad(more.error); }
        if !more.value { return Good(Array(place, items)); }
      }
    }

    method ParseDocument() returns (r: Parsed<Node>)
      requires Valid() && pos == 0
      modifies this
      ensures Valid() && Agrees(r, DocumentAt(s))
    {
      hide LineAt, StartsLine, LineStart, Report;
      var skipped := SkipTrivia();
      if skipped.Bad? { return Bad(skipped.error); }
      if pos == |s.text| {
        var error := Error(ExpectedValue);
        return Bad(error);
      }
      r := ParseValue(1);
      if r.Bad? { return; }
      var after := SkipTrivia();
      if after.Bad? { return Bad(after.error); }
      if pos < |s.text| {
        var error := Error(TrailingContent);
        return Bad(error);
      }
    }
  }

  method ParseJsonc(text: Text, file: string) returns (r: Parsed<Node>)
    ensures var s := Source(file, WithoutBom(text));
            match DocumentAt(s)
            case Ok(node, _) => r == Good(node)
            case Fail(problem, at) => r == Bad(Report(s, problem, at))
  {
    var parser := new Parser(Source(file, WithoutBom(text)));
    r := parser.ParseDocument();
  }
}
