/**
  Trivia, strings, numbers and words: what is printed is read back, and what is
  read was printed by something.
 */
module JsoncTokens {
  import opened Prelude
  import opened JsoncText
  import opened JsoncSpec

  /** `t` stands at position `p` of the source. */
  predicate Has(s: Source, p: nat, t: Text): (has: bool)
    ensures has ==> p + |t| <= |s.text|
  {
    p + |t| <= |s.text| && s.text[p..p + |t|] == t
  }

  lemma {:induction false} HasSlice(s: Source, p: nat, q: nat)
    requires p <= q <= |s.text|
    ensures Has(s, p, s.text[p..q])
  {
  }

  lemma {:induction false} HasIs(s: Source, p: nat, t: Text)
    requires Has(s, p, t)
    ensures s.text[p..p + |t|] == t
  {
  }

  lemma {:induction false} HasBoth(s: Source, p: nat, a: Text, b: Text)
    ensures Has(s, p, a + b) <==> Has(s, p, a) && Has(s, p + |a|, b)
  {
    if p + |a| + |b| <= |s.text| {
      var whole := s.text[p..p + |a| + |b|];
      assert whole[..|a|] == s.text[p..p + |a|] && whole[|a|..] == s.text[p + |a|..p + |a| + |b|];
      assert (a + b)[..|a|] == a && (a + b)[|a|..] == b;
    }
  }

  lemma {:induction false} HasOne(s: Source, p: nat, c: Code)
    ensures Has(s, p, [c]) <==> Peek(s, p) == c
  {
    if p < |s.text| { assert s.text[p..p + 1] == [s.text[p]]; }
  }

  lemma {:induction false} HasTwo(s: Source, p: nat, c: Code, d: Code)
    ensures Has(s, p, [c, d]) <==> Peek(s, p) == c && Peek(s, p + 1) == d
  {
    assert [c, d] == [c] + [d];
    HasBoth(s, p, [c], [d]);
    HasOne(s, p, c);
    HasOne(s, p + 1, d);
  }

  lemma {:induction false} HasAt(s: Source, p: nat, t: Text, i: nat)
    requires Has(s, p, t) && i < |t|
    ensures Peek(s, p + i) == t[i]
  {
    assert s.text[p..p + |t|][i] == s.text[p + i];
  }

  /** A position where trivia ends. */
  predicate AtToken(s: Source, q: nat) { q <= |s.text| && !IsBlank(Peek(s, q)) && Peek(s, q) != SLASH }

  // ---- trivia --------------------------------------------------------------

  lemma {:induction false} LineEndIs(s: Source, p: nat, end: nat)
    requires p <= end <= |s.text| && (forall i :: p <= i < end ==> s.text[i] != NEWLINE)
    requires Peek(s, end) == -1 || Peek(s, end) == NEWLINE
    ensures LineEnd(s, p) == end
    decreases end - p
  {
    if p < end { LineEndIs(s, p + 1, end); }
  }

  lemma {:induction false} LineEndStops(s: Source, p: nat)
    requires p <= |s.text|
    ensures var q := LineEnd(s, p);
            NEWLINE !in s.text[p..q] && (Peek(s, q) == -1 || Peek(s, q) == NEWLINE)
    decreases |s.text| - p
  {
    if p < |s.text| && s.text[p] != NEWLINE {
      LineEndStops(s, p + 1);
      var q := LineEnd(s, p);
      assert s.text[p..q] == [s.text[p]] + s.text[p + 1..q];
    }
  }

  lemma {:induction false} CommentEndIs(s: Source, p: nat, body: Text)
    requires NoClose(body) && Has(s, p, body + [STAR, SLASH])
    ensures CommentEnd(s, p) == Some(p + |body| + 2)
    decreases |body|
  {
    hide Has;
    HasBoth(s, p, body, [STAR, SLASH]);
    HasTwo(s, p + |body|, STAR, SLASH);
    if body != [] {
      assert body + [STAR, SLASH] == [body[0]] + (body[1..] + [STAR, SLASH]);
      HasBoth(s, p, [body[0]], body[1..] + [STAR, SLASH]);
      HasOne(s, p, body[0]);
      if |body| > 1 { HasAt(s, p, body, 1); }
      var rest := body[1..];
      forall i | 0 <= i < |rest| - 1 ensures !(rest[i] == STAR && rest[i + 1] == SLASH) {
        assert rest[i] == body[i + 1] && rest[i + 1] == body[i + 1 + 1];
      }
      CommentEndIs(s, p + 1, rest);
    }
  }

  lemma {:induction false} CommentEndCloses(s: Source, p: nat) returns (body: Text)
    requires p <= |s.text| && CommentEnd(s, p).Some?
    ensures NoClose(body) && Has(s, p, body + [STAR, SLASH]) && CommentEnd(s, p).value == p + |body| + 2
    decreases |s.text| - p
  {
    if s.text[p] == STAR && Peek(s, p + 1) == SLASH {
      HasTwo(s, p, STAR, SLASH);
      body := [];
      assert body + [STAR, SLASH] == [STAR, SLASH];
    } else {
      var more := CommentEndCloses(s, p + 1);
      body := [s.text[p]] + more;
      HasOne(s, p, s.text[p]);
      HasBoth(s, p, [s.text[p]], more + [STAR, SLASH]);
      assert body + [STAR, SLASH] == [s.text[p]] + (more + [STAR, SLASH]);
      if |more| > 0 {
        HasBoth(s, p + 1, more, [STAR, SLASH]);
        HasAt(s, p + 1, more, 0);
      }
      forall i | 0 <= i < |body| - 1 ensures !(body[i] == STAR && body[i + 1] == SLASH) {
        if i > 0 { assert body[i] == more[i - 1] && body[i + 1] == more[i - 1 + 1]; }
      }
    }
  }

  lemma {:induction false} SkipPiece(s: Source, p: nat, piece: Piece)
    requires PieceOk(piece) && Has(s, p, PrintPiece(piece))
    ensures SkipTrivia(s, p) == SkipTrivia(s, p + |PrintPiece(piece)|)
  {
    hide Has, SkipTrivia;
    match piece
    case Blank(c) =>
      HasOne(s, p, c);
      SkipsOnce(s, p);
    case LineComment(body) => SkipLine(s, p, body);
    case BlockComment(body) => SkipBlock(s, p, body);
  }

  /** What one step of skipping does. */
  lemma {:induction false} SkipsOnce(s: Source, p: nat)
    requires p <= |s.text|
    ensures IsBlank(Peek(s, p)) ==> SkipTrivia(s, p) == SkipTrivia(s, p + 1)
    ensures Peek(s, p) == SLASH && Peek(s, p + 1) == SLASH ==> SkipTrivia(s, p) == SkipTrivia(s, LineEnd(s, p + 2))
    ensures Peek(s, p) == SLASH && Peek(s, p + 1) == STAR && CommentEnd(s, p + 2).Some? ==>
              SkipTrivia(s, p) == SkipTrivia(s, CommentEnd(s, p + 2).value)
    ensures AtToken(s, p) ==> SkipTrivia(s, p) == Ok((), p)
  {
    hide LineEnd, CommentEnd;
  }

  lemma {:induction false} SkipLine(s: Source, p: nat, body: Text)
    requires NEWLINE !in body && Has(s, p, [SLASH, SLASH] + body + [NEWLINE])
    ensures SkipTrivia(s, p) == SkipTrivia(s, p + |body| + 3)
  {
    hide Has, SkipTrivia, LineEnd;
    assert [SLASH, SLASH] + body + [NEWLINE] == [SLASH, SLASH] + (body + [NEWLINE]);
    HasBoth(s, p, [SLASH, SLASH], body + [NEWLINE]);
    HasBoth(s, p + 2, body, [NEWLINE]);
    HasTwo(s, p, SLASH, SLASH);
    var end := p + 2 + |body|;
    HasOne(s, end, NEWLINE);
    forall i | p + 2 <= i < end ensures s.text[i] != NEWLINE { HasAt(s, p + 2, body, i - p - 2); }
    LineEndIs(s, p + 2, end);
    SkipsOnce(s, p);
    SkipsOnce(s, end);
  }

  lemma {:induction false} SkipBlock(s: Source, p: nat, body: Text)
    requires NoClose(body) && Has(s, p, [SLASH, STAR] + body + [STAR, SLASH])
    ensures SkipTrivia(s, p) == SkipTrivia(s, p + |body| + 4)
  {
    hide Has, SkipTrivia, CommentEnd, NoClose;
    assert [SLASH, STAR] + body + [STAR, SLASH] == [SLASH, STAR] + (body + [STAR, SLASH]);
    HasBoth(s, p, [SLASH, STAR], body + [STAR, SLASH]);
    HasTwo(s, p, SLASH, STAR);
    CommentEndIs(s, p + 2, body);
    SkipsOnce(s, p);
  }

  /** Skipping begins after any trivia that was written. */
  lemma {:induction false} TriviaWritten(s: Source, p: nat, ts: Trivia)
    requires TriviaOk(ts) && Has(s, p, PrintTrivia(ts))
    ensures SkipTrivia(s, p) == SkipTrivia(s, p + |PrintTrivia(ts)|)
    decreases |ts|
  {
    hide Has, PrintPiece, SkipTrivia;
    if ts != [] {
      HasBoth(s, p, PrintPiece(ts[0]), PrintTrivia(ts[1..]));
      SkipPiece(s, p, ts[0]);
      TriviaWritten(s, p + |PrintPiece(ts[0])|, ts[1..]);
    }
  }

  /**
    From `p` on there is the trivia `ts`, then `tail`, then a token: what
    skipping skips. Only the end of the text ends a line comment without a newline.
   */
  ghost predicate ReadAs(s: Source, p: nat, ts: Trivia, tail: Option<Text>)
    requires p <= |s.text|
  {
    && TriviaOk(ts) && Has(s, p, PrintTrivia(ts) + PrintTail(tail))
    && var end := p + |PrintTrivia(ts)| + |PrintTail(tail)|;
       && SkipTrivia(s, p) == Ok((), end) && AtToken(s, end)
       && (tail.Some? ==> NEWLINE !in tail.value && end == |s.text|)
  }

  lemma {:induction false} ReadPiece(s: Source, p: nat, piece: Piece, ts: Trivia, tail: Option<Text>)
    requires PieceOk(piece) && Has(s, p, PrintPiece(piece)) && ReadAs(s, p + |PrintPiece(piece)|, ts, tail)
    ensures ReadAs(s, p, [piece] + ts, tail)
  {
    hide Has, PrintPiece, SkipTrivia, PrintTail, PieceOk, AtToken, PrintTrivia, TriviaOk;
    SkipPiece(s, p, piece);
    PrintBefore(piece, ts);
    HasBoth(s, p, PrintPiece(piece), PrintTrivia(ts) + PrintTail(tail));
    assert PrintPiece(piece) + (PrintTrivia(ts) + PrintTail(tail)) == PrintTrivia([piece] + ts) + PrintTail(tail);
  }

  lemma {:induction false} PrintBefore(piece: Piece, ts: Trivia)
    ensures PrintTrivia([piece] + ts) == PrintPiece(piece) + PrintTrivia(ts)
    ensures PieceOk(piece) && TriviaOk(ts) ==> TriviaOk([piece] + ts)
  {
    hide PieceOk;
    assert ([piece] + ts)[1..] == ts;
  }

  lemma {:induction false} TriviaRead(s: Source, p: nat) returns (ts: Trivia, tail: Option<Text>)
    requires p <= |s.text| && SkipTrivia(s, p).Ok?
    ensures ReadAs(s, p, ts, tail)
    decreases |s.text| - p, 1
  {
    hide Has, ReadAs, LineEnd, CommentEnd, PrintTrivia;
    var c := Peek(s, p);
    if AtToken(s, p) {
      NothingRead(s, p);
      ts, tail := [], None;
    } else if IsBlank(c) {
      ts, tail := TriviaRead(s, p + 1);
      HasOne(s, p, c);
      ReadPiece(s, p, Blank(c), ts, tail);
      ts := [Blank(c)] + ts;
    } else if Peek(s, p + 1) == SLASH {
      ts, tail := LineRead(s, p);
    } else {
      ts, tail := BlockRead(s, p);
    }
  }

  lemma {:induction false} NothingRead(s: Source, p: nat)
    requires p <= |s.text| && AtToken(s, p)
    ensures ReadAs(s, p, [], None)
  {
    hide Has, SkipTrivia;
    SkipsOnce(s, p);
    HasSlice(s, p, p);
    assert PrintTrivia([]) + PrintTail(None) == s.text[p..p];
  }

  lemma {:induction false} BlockRead(s: Source, p: nat) returns (ts: Trivia, tail: Option<Text>)
    requires p < |s.text| && SkipTrivia(s, p).Ok? && Peek(s, p) == SLASH && Peek(s, p + 1) == STAR
    ensures ReadAs(s, p, ts, tail)
    decreases |s.text| - p, 0
  {
    hide Has, ReadAs, CommentEnd, NoClose;
    var body := CommentEndCloses(s, p + 2);
    ts, tail := TriviaRead(s, p + 2 + |body| + 2);
    HasTwo(s, p, SLASH, STAR);
    HasBoth(s, p, [SLASH, STAR], body + [STAR, SLASH]);
    assert [SLASH, STAR] + body + [STAR, SLASH] == [SLASH, STAR] + (body + [STAR, SLASH]);
    ReadPiece(s, p, BlockComment(body), ts, tail);
    ts := [BlockComment(body)] + ts;
  }

  lemma {:induction false} LineRead(s: Source, p: nat) returns (ts: Trivia, tail: Option<Text>)
    requires p < |s.text| && SkipTrivia(s, p).Ok? && Peek(s, p) == SLASH && Peek(s, p + 1) == SLASH
    ensures ReadAs(s, p, ts, tail)
    decreases |s.text| - p, 0
  {
    hide Has, LineEnd, ReadAs, PrintTrivia;
    var end := LineEnd(s, p + 2);
    var body := s.text[p + 2..end];
    LineEndStops(s, p + 2);
    HasSlice(s, p + 2, end);
    HasTwo(s, p, SLASH, SLASH);
    HasBoth(s, p, [SLASH, SLASH], body);
    if end == |s.text| {
      TailRead(s, p, body);
      ts, tail := [], Some(body);
    } else {
      ts, tail := TriviaRead(s, end + 1);
      HasOne(s, end, NEWLINE);
      HasBoth(s, p + 2, body, [NEWLINE]);
      HasBoth(s, p, [SLASH, SLASH], body + [NEWLINE]);
      assert [SLASH, SLASH] + body + [NEWLINE] == [SLASH, SLASH] + (body + [NEWLINE]);
      ReadPiece(s, p, LineComment(body), ts, tail);
      ts := [LineComment(body)] + ts;
    }
  }

  lemma {:induction false} TailRead(s: Source, p: nat, body: Text)
    requires Has(s, p, [SLASH, SLASH] + body) && NEWLINE !in body && p + 2 + |body| == |s.text|
    requires LineEnd(s, p + 2) == |s.text|
    ensures ReadAs(s, p, [], Some(body))
  {
    hide Has, LineEnd;
    HasBoth(s, p, [SLASH, SLASH], body);
    HasTwo(s, p, SLASH, SLASH);
    assert SkipTrivia(s, p + 2 + |body|) == Ok((), |s.text|);
    assert SkipTrivia(s, p) == SkipTrivia(s, LineEnd(s, p + 2));
    assert PrintTrivia([]) == [] && [] + PrintTail(Some(body)) == [SLASH, SLASH] + body;
  }

  // ---- strings -------------------------------------------------------------

  lemma {:induction false} HexWritten(s: Source, p: nat, hex: Text, done: nat)
    requires done <= 4 && |hex| == 4 && (forall i :: 0 <= i < 4 ==> IsHex(hex[i])) && Has(s, p, hex)
    ensures HexFrom(s, p + done, hex[..done]) == Ok(HexValue(hex), p + 4)
    decreases 4 - done
  {
    hide Has, HexValue;
    if done < 4 {
      HasAt(s, p, hex, done);
      assert hex[..done] + [hex[done]] == hex[..done + 1];
      HexWritten(s, p, hex, done + 1);
    } else {
      assert hex[..4] == hex;
    }
  }

  lemma {:induction false} HexRead(s: Source, p: nat, digits: Text) returns (hex: Text)
    requires p <= |s.text| && |digits| <= 4 && (forall i :: 0 <= i < |digits| ==> IsHex(digits[i]))
    requires HexFrom(s, p, digits).Ok?
    ensures |hex| == 4 && digits <= hex && (forall i :: 0 <= i < 4 ==> IsHex(hex[i]))
    ensures HexFrom(s, p, digits).value == HexValue(hex) && Has(s, p, hex[|digits|..])
    decreases 4 - |digits|
  {
    hide Has, HexValue;
    if |digits| == 4 {
      hex := digits;
      HasSlice(s, p, p);
      assert hex[4..] == s.text[p..p];
    } else {
      var c := Peek(s, p);
      hex := HexRead(s, p + 1, digits + [c]);
      HasOne(s, p, c);
      HasBoth(s, p, [c], hex[|digits| + 1..]);
      assert hex[|digits|..] == [c] + hex[|digits| + 1..];
    }
  }

  lemma {:induction false} PartWritten(s: Source, p: nat, open: nat, part: Part, value: Text)
    requires PartOk(part) && Has(s, p, PrintPart(part)) && open < p
    ensures StringFrom(s, p, open, value) == StringFrom(s, p + |PrintPart(part)|, open, value + [DecodePart(part)])
  {
    hide Has, HexValue, HexFrom;
    match part
    case Plain(c) => HasOne(s, p, c);
    case Escape(letter) => HasTwo(s, p, BACKSLASH, letter);
    case Unicode(hex) =>
      HasBoth(s, p, [BACKSLASH, 0x75], hex);
      HasTwo(s, p, BACKSLASH, 0x75);
      HexWritten(s, p + 2, hex, 0);
      assert hex[..0] == [];
  }

  lemma {:induction false} StringWritten(s: Source, p: nat, open: nat, parts: seq<Part>, value: Text)
    requires PartsOk(parts) && Has(s, p, PrintParts(parts) + [QUOTE]) && open < p
    ensures StringFrom(s, p, open, value) == Ok(value + Decode(parts), p + |PrintParts(parts)| + 1)
    decreases |parts|
  {
    hide Has, PrintPart, DecodePart;
    if parts == [] {
      assert PrintParts(parts) + [QUOTE] == [QUOTE];
      HasOne(s, p, QUOTE);
      assert value + Decode(parts) == value;
    } else {
      hide StringFrom;
      var first, rest := PrintPart(parts[0]), parts[1..];
      assert PrintParts(parts) + [QUOTE] == first + (PrintParts(rest) + [QUOTE]);
      HasBoth(s, p, first, PrintParts(rest) + [QUOTE]);
      PartWritten(s, p, open, parts[0], value);
      StringWritten(s, p + |first|, open, rest, value + [DecodePart(parts[0])]);
      assert value + [DecodePart(parts[0])] + Decode(rest) == value + Decode(parts);
    }
  }

  /** `parts` were read from `p` on, and then the closing quote. */
  ghost predicate ReadParts(s: Source, p: nat, open: nat, value: Text, parts: seq<Part>)
    requires open < p <= |s.text|
  {
    && PartsOk(parts) && Has(s, p, PrintParts(parts) + [QUOTE])
    && StringFrom(s, p, open, value) == Ok(value + Decode(parts), p + |PrintParts(parts)| + 1)
  }

  lemma {:induction false} PartBefore(s: Source, p: nat, open: nat, value: Text, part: Part, parts: seq<Part>)
    requires open < p && PartOk(part) && Has(s, p, PrintPart(part))
    requires ReadParts(s, p + |PrintPart(part)|, open, value + [DecodePart(part)], parts)
    ensures ReadParts(s, p, open, value, [part] + parts)
  {
    hide Has, PrintPart, DecodePart, StringFrom;
    PartWritten(s, p, open, part, value);
    assert ([part] + parts)[1..] == parts;
    assert PrintParts([part] + parts) + [QUOTE] == PrintPart(part) + (PrintParts(parts) + [QUOTE]);
    HasBoth(s, p, PrintPart(part), PrintParts(parts) + [QUOTE]);
    assert value + [DecodePart(part)] + Decode(parts) == value + Decode([part] + parts);
  }

  lemma {:induction false} StringRead(s: Source, p: nat, open: nat, value: Text) returns (parts: seq<Part>)
    requires open < p <= |s.text| && StringFrom(s, p, open, value).Ok?
    ensures ReadParts(s, p, open, value, parts)
    decreases |s.text| - p
  {
    hide Has, HexValue, HexFrom;
    var c := Peek(s, p);
    if c == QUOTE {
      parts := [];
      assert PrintParts(parts) + [QUOTE] == [QUOTE] && value + Decode(parts) == value;
      HasOne(s, p, QUOTE);
      return;
    }
    hide ReadParts;
    var part: Part;
    if c != BACKSLASH {
      part := Plain(c);
      HasOne(s, p, c);
    } else if Peek(s, p + 1) == 0x75 {
      var hex := HexRead(s, p + 2, []);
      assert hex[0..] == hex;
      part := Unicode(hex);
      HasTwo(s, p, BACKSLASH, 0x75);
      HasBoth(s, p, [BACKSLASH, 0x75], hex);
    } else {
      part := Escape(Peek(s, p + 1));
      HasTwo(s, p, BACKSLASH, part.letter);
    }
    parts := StringRead(s, p + |PrintPart(part)|, open, value + [DecodePart(part)]);
    PartBefore(s, p, open, value, part, parts);
    parts := [part] + parts;
  }

  // ---- numbers and words ---------------------------------------------------

  /** What may follow a value: the end, trivia, or punctuation. */
  predicate Follows(s: Source, q: nat) {
    var c := Peek(s, q);
    q <= |s.text| && (c == -1 || IsBlank(c) || c == SLASH || c == COMMA || c == CLOSE_BRACE || c == CLOSE_BRACKET)
  }

  lemma {:induction false} DigitsWritten(s: Source, p: nat, digits: Text)
    requires AllDigits(digits) && Has(s, p, digits) && !IsDigit(Peek(s, p + |digits|))
    ensures DigitsEnd(s, p) == p + |digits|
    decreases |digits|
  {
    hide Has;
    if digits != [] {
      HasAt(s, p, digits, 0);
      assert digits == [digits[0]] + digits[1..];
      HasBoth(s, p, [digits[0]], digits[1..]);
      DigitsWritten(s, p + 1, digits[1..]);
    }
  }

  lemma {:induction false} WholeWritten(s: Source, p: nat, whole: Text)
    requires 0 < |whole| && AllDigits(whole) && (whole[0] == ZERO ==> |whole| == 1) && Has(s, p, whole)
    requires var c := Peek(s, p + |whole|); !IsDigit(c) && c != 0x78 && c != 0x58
    ensures Whole(s, p) == Ok((), p + |whole|)
  {
    hide Has, DigitsEnd;
    HasAt(s, p, whole, 0);
    assert whole == [whole[0]] + whole[1..];
    HasBoth(s, p, [whole[0]], whole[1..]);
    DigitsWritten(s, p + 1, whole[1..]);
  }

  lemma {:induction false} FractionWritten(s: Source, p: nat, f: Option<Text>)
    requires Has(s, p, PrintFraction(f)) && (f.Some? ==> 0 < |f.value| && AllDigits(f.value))
    requires var c := Peek(s, p + |PrintFraction(f)|); !IsDigit(c) && c != DOT
    ensures Fraction(s, p) == Ok((), p + |PrintFraction(f)|)
  {
    hide Has, DigitsEnd;
    if f.Some? {
      HasBoth(s, p, [DOT], f.value);
      HasOne(s, p, DOT);
      HasAt(s, p + 1, f.value, 0);
      DigitsWritten(s, p + 1, f.value);
    }
  }

  lemma {:induction false} PowerWritten(s: Source, p: nat, x: Option<Exponent>)
    requires Has(s, p, PrintExponent(x))
    requires x.Some? ==> IsE(x.value.e) && 0 < |x.value.digits| && AllDigits(x.value.digits)
    requires x.Some? && x.value.sign.Some? ==> IsSign(x.value.sign.value)
    requires var c := Peek(s, p + |PrintExponent(x)|); !IsDigit(c) && !IsE(c)
    ensures Power(s, p) == Ok((), p + |PrintExponent(x)|)
  {
    hide Has, DigitsEnd, AllDigits;
    if x.Some? { ExponentIsAt(s, p, x.value); }
    if x.Some? {
      var q := if x.value.sign.Some? then p + 2 else p + 1;
      HasAt(s, q, x.value.digits, 0);
      assert IsDigit(x.value.digits[0]) by { FirstIsDigit(x.value.digits); }
      DigitsWritten(s, q, x.value.digits);
    }
  }

  lemma FirstIsDigit(t: Text)
    requires AllDigits(t) && t != []
    ensures IsDigit(t[0])
  {
  }

  /** The parts of a written exponent stand one after the other. */
  lemma {:induction false} ExponentIsAt(s: Source, p: nat, x: Exponent)
    requires Has(s, p, PrintExponent(Some(x)))
    ensures var q := if x.sign.Some? then p + 2 else p + 1;
            && Peek(s, p) == x.e && (x.sign.Some? ==> Peek(s, p + 1) == x.sign.value)
            && Has(s, q, x.digits) && q + |x.digits| == p + |PrintExponent(Some(x))|
  {
    hide Has;
    var sign := if x.sign.Some? then [x.sign.value] else [];
    HasBoth(s, p, [x.e], sign + x.digits);
    HasOne(s, p, x.e);
    HasBoth(s, p + 1, sign, x.digits);
    if x.sign.Some? { HasOne(s, p + 1, x.sign.value); }
  }

  /** The first character of what was written, or what follows it when nothing was. */
  lemma {:induction false} FirstOf(s: Source, p: nat, t: Text)
    requires Has(s, p, t)
    ensures Peek(s, p) == if t == [] then Peek(s, p + |t|) else t[0]
  {
    hide Has;
    if t != [] { HasAt(s, p, t, 0); }
  }

  lemma {:induction false} StartOfPower(s: Source, p: nat, x: Option<Exponent>)
    requires Has(s, p, PrintExponent(x)) && Follows(s, p + |PrintExponent(x)|) && (x.Some? ==> IsE(x.value.e))
    ensures IsE(Peek(s, p)) || Follows(s, p)
  {
    hide Has;
    FirstOf(s, p, PrintExponent(x));
  }

  lemma {:induction false} StartOfFraction(s: Source, p: nat, f: Option<Text>)
    requires Has(s, p, PrintFraction(f))
    requires IsE(Peek(s, p + |PrintFraction(f)|)) || Follows(s, p + |PrintFraction(f)|)
    ensures Peek(s, p) == DOT || IsE(Peek(s, p)) || Follows(s, p)
  {
    hide Has;
    FirstOf(s, p, PrintFraction(f));
  }

  /** Where the parts of a number stand. */
  lemma {:induction false} PartsOfNumber(s: Source, p: nat, n: Number)
    ensures var sign := if n.negative then [MINUS] else [];
            var b := p + |sign| + |n.whole|;
            var c := b + |PrintFraction(n.fraction)|;
            && |PrintNumber(n)| == |sign| + |n.whole| + |PrintFraction(n.fraction)| + |PrintExponent(n.exponent)|
            && (Has(s, p, PrintNumber(n)) <==>
                  && Has(s, p, sign) && Has(s, p + |sign|, n.whole)
                  && Has(s, b, PrintFraction(n.fraction)) && Has(s, c, PrintExponent(n.exponent)))
  {
    hide Has, PrintFraction, PrintExponent;
    var sign := if n.negative then [MINUS] else [];
    var fraction, power := PrintFraction(n.fraction), PrintExponent(n.exponent);
    HasBoth(s, p, sign, n.whole + (fraction + power));
    HasBoth(s, p + |sign|, n.whole, fraction + power);
    HasBoth(s, p + |sign| + |n.whole|, fraction, power);
  }

  /** What stands first, and after each part of a written number: none of them reads on into the next. */
  lemma {:induction false} EdgesOfNumber(s: Source, p: nat, n: Number)
    requires NumberOk(n) && Has(s, p, PrintNumber(n)) && Follows(s, p + |PrintNumber(n)|)
    ensures Peek(s, p) == MINUS <==> n.negative
    ensures Peek(s, p) == MINUS || IsDigit(Peek(s, p))
    ensures var b := p + (if n.negative then 1 else 0) + |n.whole|;
            var c := b + |PrintFraction(n.fraction)|;
            && !IsDigit(Peek(s, b)) && Peek(s, b) != 0x78 && Peek(s, b) != 0x58
            && !IsDigit(Peek(s, c)) && Peek(s, c) != DOT
  {
    hide Has, PrintFraction, PrintExponent, PrintNumber;
    PartsOfNumber(s, p, n);
    var sign := if n.negative then [MINUS] else [];
    var a := p + |sign|;
    var b := a + |n.whole|;
    FirstOf(s, p, sign);
    FirstOf(s, a, n.whole);
    StartOfPower(s, b + |PrintFraction(n.fraction)|, n.exponent);
    StartOfFraction(s, b, n.fraction);
  }

  lemma {:induction false} NumberWritten(s: Source, p: nat, n: Number)
    requires NumberOk(n) && Has(s, p, PrintNumber(n)) && Follows(s, p + |PrintNumber(n)|)
    ensures NumberAt(s, p) == Ok(PrintNumber(n), p + |PrintNumber(n)|)
    ensures Peek(s, p) == MINUS || IsDigit(Peek(s, p))
  {
    hide Has, Whole, Fraction, Power, PrintFraction, PrintExponent, PrintNumber;
    PartsOfNumber(s, p, n);
    EdgesOfNumber(s, p, n);
    var a := if n.negative then p + 1 else p;
    var b := a + |n.whole|;
    var c := b + |PrintFraction(n.fraction)|;
    HasIs(s, p, PrintNumber(n));
    PowerWritten(s, c, n.exponent);
    FractionWritten(s, b, n.fraction);
    WholeWritten(s, a, n.whole);
  }

  lemma {:induction false} WholeRead(s: Source, p: nat) returns (whole: Text)
    requires p <= |s.text| && Whole(s, p).Ok?
    ensures 0 < |whole| && AllDigits(whole) && (whole[0] == ZERO ==> |whole| == 1)
    ensures Has(s, p, whole) && Whole(s, p).next == p + |whole|
  {
    whole := s.text[p..Whole(s, p).next];
    assert s.text[p] == ZERO || whole == [s.text[p]] + s.text[p + 1..DigitsEnd(s, p + 1)];
  }

  lemma {:induction false} FractionRead(s: Source, p: nat) returns (f: Option<Text>)
    requires p <= |s.text| && Fraction(s, p).Ok?
    ensures Has(s, p, PrintFraction(f)) && (f.Some? ==> 0 < |f.value| && AllDigits(f.value))
    ensures Fraction(s, p).next == p + |PrintFraction(f)|
  {
    if Peek(s, p) == DOT {
      var end := DigitsEnd(s, p + 1);
      f := Some(s.text[p + 1..end]);
      assert s.text[p..end] == [DOT] + f.value;
    } else {
      f := None;
    }
  }

  lemma {:induction false} PowerRead(s: Source, p: nat) returns (x: Option<Exponent>)
    requires p <= |s.text| && Power(s, p).Ok?
    ensures Has(s, p, PrintExponent(x))
    ensures x.Some? ==> IsE(x.value.e) && 0 < |x.value.digits| && AllDigits(x.value.digits)
    ensures x.Some? && x.value.sign.Some? ==> IsSign(x.value.sign.value)
    ensures Power(s, p).next == p + |PrintExponent(x)|
  {
    hide Has, DigitsEnd, PrintExponent;
    if IsE(Peek(s, p)) {
      var sign := if IsSign(Peek(s, p + 1)) then Some(s.text[p + 1]) else None;
      var q := if sign.Some? then p + 2 else p + 1;
      var end := DigitsEnd(s, q);
      x := Some(Exponent(s.text[p], sign, s.text[q..end]));
      ExponentStands(s, p, q, end, x.value);
    } else {
      x := None;
      NoExponentStands(s, p);
    }
  }

  lemma NoExponentStands(s: Source, p: nat)
    requires p <= |s.text|
    ensures PrintExponent(None) == [] && Has(s, p, [])
  {
  }

  lemma {:induction false} ExponentStands(s: Source, p: nat, q: nat, end: nat, x: Exponent)
    requires p < q <= end <= |s.text| && x.e == s.text[p] && x.digits == s.text[q..end]
    requires if x.sign.Some? then q == p + 2 && x.sign.value == s.text[p + 1] else q == p + 1
    ensures Has(s, p, PrintExponent(Some(x))) && end == p + |PrintExponent(Some(x))|
  {
    hide Has;
    HasOne(s, p, x.e);
    HasSlice(s, q, end);
    if x.sign.Some? {
      HasOne(s, p + 1, x.sign.value);
      HasBoth(s, p + 1, [x.sign.value], x.digits);
      HasBoth(s, p, [x.e], [x.sign.value] + x.digits);
    } else {
      assert [] + x.digits == x.digits;
      HasBoth(s, p, [x.e], x.digits);
    }
  }

  lemma {:induction false} NumberRead(s: Source, p: nat) returns (n: Number)
    requires p < |s.text| && NumberAt(s, p).Ok?
    ensures NumberOk(n) && Has(s, p, PrintNumber(n))
    ensures NumberAt(s, p) == Ok(PrintNumber(n), p + |PrintNumber(n)|)
  {
    hide Has, Whole, Fraction, Power, DigitsEnd, PrintFraction, PrintExponent;
    var negative := Peek(s, p) == MINUS;
    var sign := if negative then [MINUS] else [];
    var a := p + |sign|;
    var whole := WholeRead(s, a);
    var fraction := FractionRead(s, a + |whole|);
    var exponent := PowerRead(s, a + |whole| + |PrintFraction(fraction)|);
    n := Number(negative, whole, fraction, exponent);
    if negative { HasOne(s, p, MINUS); } else { HasSlice(s, p, p); assert s.text[p..p] == sign; }
    PartsOfNumber(s, p, n);
    HasIs(s, p, PrintNumber(n));
  }

  lemma {:induction false} LettersEndIs(s: Source, p: nat, end: nat)
    requires p <= end <= |s.text| && (forall i :: p <= i < end ==> IsLetter(s.text[i])) && !IsLetter(Peek(s, end))
    ensures LettersEnd(s, p) == end
    decreases end - p
  {
    if p < end { LettersEndIs(s, p + 1, end); }
  }

  lemma {:induction false} WordWritten(s: Source, p: nat, w: Word)
    requires Has(s, p, PrintWord(w)) && Follows(s, p + |PrintWord(w)|)
    ensures p < |s.text| && IsLetter(s.text[p])
    ensures Keyword(s, p) ==
            Ok(if w.Nil? then Null(PlaceAt(s, p)) else Bool(PlaceAt(s, p), w.True?), p + |PrintWord(w)|)
  {
    var word, end := PrintWord(w), p + |PrintWord(w)|;
    assert forall i :: 0 <= i < |word| ==> IsLetter(word[i]);
    assert forall i :: p <= i < end ==> s.text[i] == s.text[p..end][i - p];
    LettersEndIs(s, p, end);
    assert PrintWord(True)[0] != PrintWord(False)[0] && PrintWord(Nil)[0] != PrintWord(True)[0];
    assert PrintWord(False)[0] != PrintWord(Nil)[0];
  }

  lemma {:induction false} WordRead(s: Source, p: nat) returns (w: Word)
    requires p < |s.text| && IsLetter(s.text[p]) && Keyword(s, p).Ok?
    ensures Has(s, p, PrintWord(w))
    ensures Keyword(s, p) ==
            Ok(if w.Nil? then Null(PlaceAt(s, p)) else Bool(PlaceAt(s, p), w.True?), p + |PrintWord(w)|)
  {
    var word := s.text[p..LettersEnd(s, p)];
    w := if word == PrintWord(True) then True else if word == PrintWord(False) then False else Nil;
    assert PrintWord(True)[0] != PrintWord(False)[0] && PrintWord(Nil)[0] != PrintWord(True)[0];
    assert PrintWord(False)[0] != PrintWord(Nil)[0];
  }
}
