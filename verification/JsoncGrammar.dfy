/**
  The reader is exact: it accepts what the grammar prints and nothing else, and
  the tree it builds is the meaning of what was written, line by line.
 */
module JsoncGrammar {
  import opened Prelude
  import opened JsoncText
  import opened JsoncSpec
  import opened JsoncTokens

  // ---- what is written is read ---------------------------------------------

  lemma {:induction false} NothingToSkip(s: Source, p: nat)
    requires AtToken(s, p)
    ensures SkipTrivia(s, p) == Ok((), p)
  {
  }

  /** Skipping trivia before a token stops at the token. */
  lemma {:induction false} SkipsTo(s: Source, p: nat, ts: Trivia)
    requires TriviaOk(ts) && Has(s, p, PrintTrivia(ts)) && AtToken(s, p + |PrintTrivia(ts)|)
    ensures SkipTrivia(s, p) == Ok((), p + |PrintTrivia(ts)|)
  {
    hide Has, PrintTrivia, SkipTrivia;
    TriviaWritten(s, p, ts);
    NothingToSkip(s, p + |PrintTrivia(ts)|);
  }

  /** Trivia, if there is any, starts with something that may follow a value. */
  lemma {:induction false} TriviaFollows(s: Source, p: nat, ts: Trivia)
    requires TriviaOk(ts) && Has(s, p, PrintTrivia(ts)) && Follows(s, p + |PrintTrivia(ts)|)
    ensures Follows(s, p)
  {
    hide Has;
    FirstOf(s, p, PrintTrivia(ts));
    if ts != [] {
      var piece := ts[0];
      assert PrintTrivia(ts)[0] == PrintPiece(piece)[0];
    }
  }

  /** The parts of what is printed stand one after the other. */
  lemma {:induction false} SplitMember(s: Source, p: nat, m: Members)
    ensures var a := p + |PrintTrivia(m.before)|; var b := a + |PrintString(m.key)|; var c := b + |PrintTrivia(m.mid)|;
            var d := c + 1 + |PrintTrivia(m.lead)|; var e := d + |Print(m.value)|; var f := e + |PrintTrivia(m.after)|;
            && p + |PrintMembers(m)| == f + |PrintMoreMembers(m.rest)|
            && (Has(s, p, PrintMembers(m)) <==>
                  && Has(s, p, PrintTrivia(m.before)) && Has(s, a, PrintString(m.key)) && Has(s, b, PrintTrivia(m.mid))
                  && Peek(s, c) == COLON && Has(s, c + 1, PrintTrivia(m.lead)) && Has(s, d, Print(m.value))
                  && Has(s, e, PrintTrivia(m.after)) && Has(s, f, PrintMoreMembers(m.rest)))
  {
    hide Has, PrintTrivia, PrintString, Print, PrintMoreMembers;
    var a := p + |PrintTrivia(m.before)|;
    var b := a + |PrintString(m.key)|;
    var c := b + |PrintTrivia(m.mid)|;
    var d := c + 1 + |PrintTrivia(m.lead)|;
    var e := d + |Print(m.value)|;
    var after := PrintTrivia(m.after) + PrintMoreMembers(m.rest);
    var value := Print(m.value) + after;
    var lead := PrintTrivia(m.lead) + value;
    HasBoth(s, p, PrintTrivia(m.before), PrintString(m.key) + (PrintTrivia(m.mid) + ([COLON] + lead)));
    HasBoth(s, a, PrintString(m.key), PrintTrivia(m.mid) + ([COLON] + lead));
    HasBoth(s, b, PrintTrivia(m.mid), [COLON] + lead);
    HasBoth(s, c, [COLON], lead);
    HasOne(s, c, COLON);
    HasBoth(s, c + 1, PrintTrivia(m.lead), value);
    HasBoth(s, d, Print(m.value), after);
    HasBoth(s, e, PrintTrivia(m.after), PrintMoreMembers(m.rest));
  }

  lemma {:induction false} SplitElement(s: Source, p: nat, m: Elements)
    ensures var d := p + |PrintTrivia(m.lead)|; var e := d + |Print(m.value)|; var f := e + |PrintTrivia(m.after)|;
            && p + |PrintElements(m)| == f + |PrintMoreElements(m.rest)|
            && (Has(s, p, PrintElements(m)) <==>
                  && Has(s, p, PrintTrivia(m.lead)) && Has(s, d, Print(m.value))
                  && Has(s, e, PrintTrivia(m.after)) && Has(s, f, PrintMoreElements(m.rest)))
  {
    hide Has, PrintTrivia, Print, PrintMoreElements;
    var d := p + |PrintTrivia(m.lead)|;
    var after := PrintTrivia(m.after) + PrintMoreElements(m.rest);
    HasBoth(s, p, PrintTrivia(m.lead), Print(m.value) + after);
    HasBoth(s, d, Print(m.value), after);
    HasBoth(s, d + |Print(m.value)|, PrintTrivia(m.after), PrintMoreElements(m.rest));
  }

  /** A comma, trivia, and a closing character. */
  lemma {:induction false} SplitClose(s: Source, p: nat, inner: Trivia, close: Code)
    ensures |[COMMA] + (PrintTrivia(inner) + [close])| == |PrintTrivia(inner)| + 2
    ensures Has(s, p, [COMMA] + (PrintTrivia(inner) + [close])) <==>
              Peek(s, p) == COMMA && Has(s, p + 1, PrintTrivia(inner)) && Peek(s, p + 1 + |PrintTrivia(inner)|) == close
  {
    hide Has, PrintTrivia;
    HasBoth(s, p, [COMMA], PrintTrivia(inner) + [close]);
    HasOne(s, p, COMMA);
    HasBoth(s, p + 1, PrintTrivia(inner), [close]);
    HasOne(s, p + 1 + |PrintTrivia(inner)|, close);
  }

  lemma {:induction false} SplitComma(s: Source, p: nat, more: Text)
    ensures Has(s, p, [COMMA] + more) <==> Peek(s, p) == COMMA && Has(s, p + 1, more)
  {
    hide Has;
    HasBoth(s, p, [COMMA], more);
    HasOne(s, p, COMMA);
  }

  lemma {:induction false} SplitQuoted(s: Source, p: nat, parts: seq<Part>)
    ensures |PrintString(parts)| == |PrintParts(parts)| + 2
    ensures Has(s, p, PrintString(parts)) <==> Peek(s, p) == QUOTE && Has(s, p + 1, PrintParts(parts) + [QUOTE])
  {
    hide Has, PrintParts;
    HasBoth(s, p, [QUOTE], PrintParts(parts) + [QUOTE]);
    HasOne(s, p, QUOTE);
  }

  lemma {:induction false} KeyWritten(s: Source, p: nat, m: Members, lines: map<Text, nat>)
    requires Has(s, p, PrintMembers(m)) && TriviaOk(m.before) && PartsOk(m.key) && TriviaOk(m.mid)
    requires Decode(m.key) !in lines
    ensures var a := p + |PrintTrivia(m.before)|;
            && Peek(s, a) == QUOTE && SkipTrivia(s, p) == Ok((), a)
            && KeyFrom(s, p, lines) == Ok(Decode(m.key), a + |PrintString(m.key)| + |PrintTrivia(m.mid)| + 1)
  {
    hide Has, PrintTrivia, PrintString, PrintMembers, SkipTrivia, StringFrom, Decode;
    SplitMember(s, p, m);
    var a := p + |PrintTrivia(m.before)|;
    var b := a + |PrintString(m.key)|;
    SplitQuoted(s, a, m.key);
    SkipsTo(s, p, m.before);
    StringWritten(s, a + 1, a, m.key, []);
    assert [] + Decode(m.key) == Decode(m.key);
    SkipsTo(s, b, m.mid);
  }

  lemma {:induction false} SeparatorWritten(s: Source, p: nat, after: Trivia, close: Code)
    requires TriviaOk(after) && Has(s, p, PrintTrivia(after)) && close in {CLOSE_BRACE, CLOSE_BRACKET}
    ensures var f := p + |PrintTrivia(after)|;
            && (Peek(s, f) == COMMA || Peek(s, f) == close ==> Follows(s, p))
            && (Peek(s, f) == close ==> SeparatorFrom(s, p, close) == Ok(false, f + 1))
            && (Peek(s, f) == COMMA ==>
                  && f + 1 <= |s.text|
                  && (SkipTrivia(s, f + 1).Ok? ==>
                        SeparatorFrom(s, p, close) ==
                        var g := SkipTrivia(s, f + 1).next; if Peek(s, g) == close then Ok(false, g + 1) else Ok(true, g)))
  {
    hide Has, PrintTrivia, SkipTrivia;
    var f := p + |PrintTrivia(after)|;
    if Peek(s, f) == COMMA || Peek(s, f) == close {
      SkipsTo(s, p, after);
      TriviaFollows(s, p, after);
    }
  }

  /** Where members and values start only matters after trivia. */
  lemma {:induction false} StartsAlike(s: Source, p: nat, q: nat, depth: int, done: seq<Entry>, lines: map<Text, nat>, items: seq<Node>)
    requires p <= |s.text| && q <= |s.text| && SkipTrivia(s, p) == SkipTrivia(s, q)
    ensures ValueAt(s, p, depth) == ValueAt(s, q, depth)
    ensures MembersFrom(s, p, depth, done, lines) == MembersFrom(s, q, depth, done, lines)
    ensures ElementsFrom(s, p, depth, items) == ElementsFrom(s, q, depth, items)
  {
    hide SkipTrivia, StringFrom, NumberAt, Keyword, ObjectAt, ArrayAt, SeparatorFrom, LineAt;
    assert ValueAt(s, p, depth) == ValueAt(s, q, depth);
    assert ValueAt(s, p, depth + 1) == ValueAt(s, q, depth + 1);
    assert KeyFrom(s, p, lines) == KeyFrom(s, q, lines) && KeyLine(s, p) == KeyLine(s, q);
    hide KeyFrom, KeyLine, ValueAt;
  }

  /** A value begins with a token, and never with a closing bracket. */
  lemma {:induction false} ValueStarts(s: Source, p: nat, c: Cst, depth: int)
    requires CstOk(c, depth) && Has(s, p, Print(c))
    ensures 0 < |Print(c)| && AtToken(s, p) && Peek(s, p) != CLOSE_BRACKET && Peek(s, p) != -1
  {
    hide Has, PrintMembers, PrintElements, PrintTrivia, PrintParts, MembersOk, ElementsOk, PrintFraction, PrintExponent;
    FirstOf(s, p, Print(c));
    if c.Figure? {
      var n := c.number;
      assert PrintNumber(n)[0] == if n.negative then MINUS else n.whole[0];
    }
  }

  lemma {:induction false} QuotedWritten(s: Source, p: nat, parts: seq<Part>, depth: int)
    requires PartsOk(parts) && Has(s, p, PrintString(parts))
    ensures ValueAt(s, p, depth) == Ok(Str(PlaceAt(s, p), Decode(parts)), p + |PrintString(parts)|)
  {
    hide Has, PrintString, StringFrom, Decode, PlaceAt, ObjectAt, ArrayAt, NumberAt, Keyword;
    SplitQuoted(s, p, parts);
    StringWritten(s, p + 1, p, parts, []);
    assert [] + Decode(parts) == Decode(parts);
  }

  lemma {:induction false} EmptyWritten(s: Source, p: nat, inner: Trivia, depth: int)
    requires TriviaOk(inner) && depth <= MAX_DEPTH
    ensures Has(s, p, [OPEN_BRACE] + (PrintTrivia(inner) + [CLOSE_BRACE])) ==>
              ValueAt(s, p, depth) == Ok(Object(PlaceAt(s, p), []), p + |PrintTrivia(inner)| + 2)
    ensures Has(s, p, [OPEN_BRACKET] + (PrintTrivia(inner) + [CLOSE_BRACKET])) ==>
              ValueAt(s, p, depth) == Ok(Array(PlaceAt(s, p), []), p + |PrintTrivia(inner)| + 2)
  {
    hide Has, PrintTrivia, PlaceAt, NumberAt, Keyword, StringFrom, MembersFrom, ElementsFrom;
    var end := p + 1 + |PrintTrivia(inner)|;
    HasBoth(s, p, [OPEN_BRACE], PrintTrivia(inner) + [CLOSE_BRACE]);
    HasBoth(s, p, [OPEN_BRACKET], PrintTrivia(inner) + [CLOSE_BRACKET]);
    HasOne(s, p, OPEN_BRACE);
    HasOne(s, p, OPEN_BRACKET);
    HasBoth(s, p + 1, PrintTrivia(inner), [CLOSE_BRACE]);
    HasBoth(s, p + 1, PrintTrivia(inner), [CLOSE_BRACKET]);
    HasOne(s, end, CLOSE_BRACE);
    HasOne(s, end, CLOSE_BRACKET);
    if Has(s, p + 1, PrintTrivia(inner)) && (Peek(s, end) == CLOSE_BRACE || Peek(s, end) == CLOSE_BRACKET) {
      SkipsTo(s, p + 1, inner);
    }
  }

  /** Members after trivia: the brace that opened them was not the last one's. */
  lemma {:induction false} ObjectWritten(s: Source, p: nat, m: Members, depth: int, q: nat)
    requires depth <= MAX_DEPTH && Peek(s, p) == OPEN_BRACE
    requires SkipTrivia(s, p + 1).Ok? && SkipTrivia(s, p + 1).next == q && Peek(s, q) == QUOTE
    requires MembersFrom(s, p + 1, depth, [], map[]).Ok?
    ensures var members := MembersFrom(s, p + 1, depth, [], map[]);
            ValueAt(s, p, depth) == Ok(Object(PlaceAt(s, p), members.value), members.next)
  {
    hide SkipTrivia, PlaceAt, NumberAt, Keyword, StringFrom, MembersFrom, ArrayAt;
    assert SkipTrivia(s, p) == Ok((), p) by { NothingToSkip(s, p); }
    NothingToSkip(s, q);
    StartsAlike(s, p + 1, q, depth, [], map[], []);
  }

  lemma {:induction false} ArrayWritten(s: Source, p: nat, depth: int, q: nat)
    requires depth <= MAX_DEPTH && Peek(s, p) == OPEN_BRACKET
    requires SkipTrivia(s, p + 1).Ok? && SkipTrivia(s, p + 1).next == q && AtToken(s, q) && Peek(s, q) != CLOSE_BRACKET
    requires ElementsFrom(s, p + 1, depth, []).Ok?
    ensures var items := ElementsFrom(s, p + 1, depth, []);
            ValueAt(s, p, depth) == Ok(Array(PlaceAt(s, p), items.value), items.next)
  {
    hide SkipTrivia, PlaceAt, NumberAt, Keyword, StringFrom, ElementsFrom, ObjectAt;
    assert SkipTrivia(s, p) == Ok((), p) by { NothingToSkip(s, p); }
    NothingToSkip(s, q);
    StartsAlike(s, p + 1, q, depth, [], map[], []);
  }

  lemma {:induction false} ValueWritten(s: Source, p: nat, c: Cst, depth: int)
    requires CstOk(c, depth) && Has(s, p, Print(c)) && Follows(s, p + |Print(c)|)
    ensures ValueAt(s, p, depth) == Ok(Meaning(s, p, c), p + |Print(c)|)
    decreases c, 0
  {
    hide Has, PlaceAt, StringFrom, NumberAt, Keyword, ObjectAt, ArrayAt, SkipTrivia, PrintTrivia, PrintNumber, PrintWord,
      PrintMembers, PrintElements, PrintString, MembersFrom, ElementsFrom, MeaningOfMembers, MeaningOfElements;
    ValueStarts(s, p, c, depth);
    NothingToSkip(s, p);
    match c
    case EmptyObject(inner) => EmptyWritten(s, p, inner, depth);
    case EmptyArray(inner) => EmptyWritten(s, p, inner, depth);
    case Quoted(parts) => QuotedWritten(s, p, parts, depth);
    case Figure(number) => NumberWritten(s, p, number);
    case Bare(word) => WordWritten(s, p, word);
    case FullObject(m) =>
      HasBoth(s, p, [OPEN_BRACE], PrintMembers(m));
      HasOne(s, p, OPEN_BRACE);
      var none: map<Text, nat> := map[];
      assert none.Keys == {};
      MembersWritten(s, p + 1, m, depth, [], none);
      assert [] + MeaningOfMembers(s, p + 1, m) == MeaningOfMembers(s, p + 1, m);
      ObjectWritten(s, p, m, depth, SkipTrivia(s, p + 1).next);
    case FullArray(e) =>
      HasBoth(s, p, [OPEN_BRACKET], PrintElements(e));
      HasOne(s, p, OPEN_BRACKET);
      ElementsWritten(s, p + 1, e, depth, []);
      assert [] + MeaningOfElements(s, p + 1, e) == MeaningOfElements(s, p + 1, e);
      ArrayWritten(s, p, depth, SkipTrivia(s, p + 1).next);
  }

  lemma {:induction false} MembersStep(s: Source, p: nat, depth: int, done: seq<Entry>, lines: map<Text, nat>)
    requires p <= |s.text|
    requires var key := KeyFrom(s, p, lines);
             && key.Ok? && var value := ValueAt(s, key.next, depth + 1);
             value.Ok? && SeparatorFrom(s, value.next, CLOSE_BRACE).Ok?
    ensures var key := KeyFrom(s, p, lines);
            var value := ValueAt(s, key.next, depth + 1);
            var separator := SeparatorFrom(s, value.next, CLOSE_BRACE);
            var all := done + [Entry(key.value, value.value)];
            MembersFrom(s, p, depth, done, lines) ==
            if separator.value then MembersFrom(s, separator.next, depth, all, lines[key.value := KeyLine(s, p)])
            else Ok(all, separator.next)
  {
    hide KeyFrom, ValueAt, SeparatorFrom, KeyLine;
  }

  lemma {:induction false} ElementsStep(s: Source, p: nat, depth: int, done: seq<Node>)
    requires p <= |s.text|
    requires var value := ValueAt(s, p, depth + 1); value.Ok? && SeparatorFrom(s, value.next, CLOSE_BRACKET).Ok?
    ensures var value := ValueAt(s, p, depth + 1);
            var separator := SeparatorFrom(s, value.next, CLOSE_BRACKET);
            ElementsFrom(s, p, depth, done) ==
            if separator.value then ElementsFrom(s, separator.next, depth, done + [value.value])
            else Ok(done + [value.value], separator.next)
  {
    hide ValueAt, SeparatorFrom;
  }

  /** Where the parts of a member end. */
  ghost function ValueOf(p: nat, m: Members): nat {
    p + |PrintTrivia(m.before)| + |PrintString(m.key)| + |PrintTrivia(m.mid)| + 1 + |PrintTrivia(m.lead)|
  }

  ghost function AfterOf(p: nat, m: Members): nat { ValueOf(p, m) + |Print(m.value)| + |PrintTrivia(m.after)| }

  /** The key of a member, and the place of its value. */
  ghost predicate KeyReads(s: Source, p: nat, m: Members, depth: int, lines: map<Text, nat>) {
    var d := ValueOf(p, m);
    && d <= |s.text| && SkipTrivia(s, p).Ok? && Peek(s, SkipTrivia(s, p).next) == QUOTE
    && var key := KeyFrom(s, p, lines);
    && key.Ok? && key.value == Decode(m.key) && ValueAt(s, key.next, depth + 1) == ValueAt(s, d, depth + 1)
  }

  lemma {:induction false} MemberHead(s: Source, p: nat, m: Members, depth: int, lines: map<Text, nat>)
    requires Has(s, p, PrintMembers(m)) && TriviaOk(m.before) && PartsOk(m.key) && TriviaOk(m.mid) && TriviaOk(m.lead)
    requires Decode(m.key) !in lines
    ensures KeyReads(s, p, m, depth, lines)
  {
    hide Has, PrintTrivia, PrintString, Print, SkipTrivia, KeyFrom, Decode, ValueAt, PrintMembers, TriviaOk, PartsOk;
    SplitMember(s, p, m);
    var d := ValueOf(p, m);
    KeyWritten(s, p, m, lines);
    TriviaWritten(s, d - |PrintTrivia(m.lead)|, m.lead);
    StartsAlike(s, d - |PrintTrivia(m.lead)|, d, depth + 1, [], map[], []);
  }

  /** How long what follows a value is, given what comes after it. */
  ghost function RestLength<T>(rest: Rest<T>, more: nat): nat {
    match rest
    case Closed => 1
    case TrailingComma(inner) => 2 + |PrintTrivia(inner)|
    case Next(_) => 1 + more
  }

  /** What follows a value that ended at `e`: trivia up to `f`, and then `rest`. */
  ghost predicate RestStands<T>(s: Source, e: nat, after: Trivia, close: Code, rest: Rest<T>) {
    var f := e + |PrintTrivia(after)|;
    && TriviaOk(after) && Has(s, e, PrintTrivia(after)) && f < |s.text|
    && match rest
       case Closed => Peek(s, f) == close
       case TrailingComma(inner) =>
         && TriviaOk(inner) && Peek(s, f) == COMMA && Has(s, f + 1, PrintTrivia(inner))
         && Peek(s, f + 1 + |PrintTrivia(inner)|) == close
       case Next(_) => Peek(s, f) == COMMA
  }

  ghost predicate RestReads<T>(s: Source, e: nat, f: nat, close: Code, rest: Rest<T>)
    requires e <= |s.text| && f < |s.text|
  {
    match rest
    case Closed => SeparatorFrom(s, e, close) == Ok(false, f + 1)
    case TrailingComma(inner) => SeparatorFrom(s, e, close) == Ok(false, f + 2 + |PrintTrivia(inner)|)
    case Next(_) =>
      SkipTrivia(s, f + 1).Ok? && Peek(s, SkipTrivia(s, f + 1).next) != close ==>
        SeparatorFrom(s, e, close) == Ok(true, SkipTrivia(s, f + 1).next)
  }

  lemma {:induction false} RestWritten<T>(s: Source, e: nat, after: Trivia, close: Code, rest: Rest<T>)
    requires RestStands(s, e, after, close, rest) && close in {CLOSE_BRACE, CLOSE_BRACKET}
    ensures Follows(s, e) && RestReads(s, e, e + |PrintTrivia(after)|, close, rest)
  {
    hide Has, PrintTrivia, SkipTrivia, SeparatorFrom, TriviaOk;
    SeparatorWritten(s, e, after, close);
    if rest.TrailingComma? { SkipsTo(s, e + |PrintTrivia(after)| + 1, rest.inner); }
  }

  lemma {:induction false} MemberRest(s: Source, p: nat, m: Members, depth: int, seen: set<Text>)
    requires MembersOk(m, depth, seen) && Has(s, p, PrintMembers(m))
    ensures var e := ValueOf(p, m) + |Print(m.value)|; var f := AfterOf(p, m);
            && Has(s, ValueOf(p, m), Print(m.value)) && RestStands(s, e, m.after, CLOSE_BRACE, m.rest)
            && p + |PrintMembers(m)| == f + RestLength(m.rest, if m.rest.Next? then |PrintMembers(m.rest.more)| else 0)
            && (m.rest.Next? ==> Has(s, f + 1, PrintMembers(m.rest.more)))
  {
    hide Has, PrintTrivia, PrintString, Print, Decode, CstOk, PrintMembers, TriviaOk, PartsOk;
    SplitMember(s, p, m);
    var f := AfterOf(p, m);
    match m.rest
    case Closed => HasOne(s, f, CLOSE_BRACE);
    case TrailingComma(inner) => SplitClose(s, f, inner, CLOSE_BRACE);
    case Next(more) => SplitComma(s, f, PrintMembers(more));
  }

  lemma {:induction false} ElementRest(s: Source, p: nat, m: Elements, depth: int)
    requires ElementsOk(m, depth) && Has(s, p, PrintElements(m))
    ensures var d := p + |PrintTrivia(m.lead)|; var e := d + |Print(m.value)|; var f := e + |PrintTrivia(m.after)|;
            && Has(s, p, PrintTrivia(m.lead)) && Has(s, d, Print(m.value)) && RestStands(s, e, m.after, CLOSE_BRACKET, m.rest)
            && p + |PrintElements(m)| == f + RestLength(m.rest, if m.rest.Next? then |PrintElements(m.rest.more)| else 0)
            && (m.rest.Next? ==> Has(s, f + 1, PrintElements(m.rest.more)))
  {
    hide Has, PrintTrivia, Print, CstOk, PrintElements, TriviaOk;
    SplitElement(s, p, m);
    var f := p + |PrintTrivia(m.lead)| + |Print(m.value)| + |PrintTrivia(m.after)|;
    match m.rest
    case Closed => HasOne(s, f, CLOSE_BRACKET);
    case TrailingComma(inner) => SplitClose(s, f, inner, CLOSE_BRACKET);
    case Next(more) => SplitComma(s, f, PrintElements(more));
  }

  lemma {:induction false} MembersWritten(s: Source, p: nat, m: Members, depth: int, done: seq<Entry>, lines: map<Text, nat>)
    requires MembersOk(m, depth, lines.Keys) && Has(s, p, PrintMembers(m))
    ensures SkipTrivia(s, p).Ok? && Peek(s, SkipTrivia(s, p).next) == QUOTE
    ensures MembersFrom(s, p, depth, done, lines) == Ok(done + MeaningOfMembers(s, p, m), p + |PrintMembers(m)|)
    decreases m, 1
  {
    hide Has, PrintTrivia, PrintString, Print, SkipTrivia, KeyFrom, KeyLine, SeparatorFrom, Meaning, Decode, CstOk, ValueAt,
      PrintMembers, TriviaOk, PartsOk, MembersFrom, MeaningOfMembers, ValueOf, RestStands, PrintMoreMembers;
    MemberHead(s, p, m, depth, lines);
    MemberRest(s, p, m, depth, lines.Keys);
    RestWritten(s, ValueOf(p, m) + |Print(m.value)|, m.after, CLOSE_BRACE, m.rest);
    var f := AfterOf(p, m);
    var entry := Entry(Decode(m.key), Meaning(s, ValueOf(p, m), m.value));
    FirstMeaning(s, p, m);
    ValueWritten(s, ValueOf(p, m), m.value, depth + 1);
    if m.rest.Next? {
      var more, lines' := m.rest.more, lines[Decode(m.key) := KeyLine(s, p)];
      assert lines'.Keys == lines.Keys + {Decode(m.key)};
      MembersWritten(s, f + 1, more, depth, done + [entry], lines');
      SkipsIdle(s, f + 1);
      StartsAlike(s, f + 1, SkipTrivia(s, f + 1).next, depth, done + [entry], lines', []);
      assert done + [entry] + MeaningOfMembers(s, f + 1, more) == done + ([entry] + MeaningOfMembers(s, f + 1, more));
    }
    MembersStep(s, p, depth, done, lines);
  }

  lemma {:induction false} FirstMeaning(s: Source, p: nat, m: Members)
    ensures var first := [Entry(Decode(m.key), Meaning(s, ValueOf(p, m), m.value))];
            MeaningOfMembers(s, p, m) ==
            if m.rest.Next? then first + MeaningOfMembers(s, AfterOf(p, m) + 1, m.rest.more) else first
  {
    hide PrintTrivia, PrintString, Print, Decode, Meaning;
  }

  lemma {:induction false} FirstMeaningOfElements(s: Source, p: nat, m: Elements)
    ensures var d := p + |PrintTrivia(m.lead)|;
            var f := d + |Print(m.value)| + |PrintTrivia(m.after)|;
            var first := [Meaning(s, d, m.value)];
            MeaningOfElements(s, p, m) == if m.rest.Next? then first + MeaningOfElements(s, f + 1, m.rest.more) else first
  {
    hide PrintTrivia, Print, Meaning;
  }

  /** Skipping again skips nothing. */
  lemma {:induction false} SkipsIdle(s: Source, p: nat)
    requires p <= |s.text| && SkipTrivia(s, p).Ok?
    ensures var q := SkipTrivia(s, p).next; AtToken(s, q) && SkipTrivia(s, q) == SkipTrivia(s, p)
  {
    hide SkipTrivia;
    var _, _ := TriviaRead(s, p);
    NothingToSkip(s, SkipTrivia(s, p).next);
  }

  lemma {:induction false} ElementHead(s: Source, p: nat, m: Elements, depth: int)
    requires TriviaOk(m.lead) && CstOk(m.value, depth + 1) && Has(s, p, PrintTrivia(m.lead))
    requires Has(s, p + |PrintTrivia(m.lead)|, Print(m.value))
    ensures var d := p + |PrintTrivia(m.lead)|;
            && d <= |s.text| && SkipTrivia(s, p) == Ok((), d) && AtToken(s, d) && Peek(s, d) != CLOSE_BRACKET
            && ValueAt(s, p, depth + 1) == ValueAt(s, d, depth + 1)
  {
    hide Has, PrintTrivia, Print, SkipTrivia, CstOk, ValueAt, TriviaOk;
    var d := p + |PrintTrivia(m.lead)|;
    ValueStarts(s, d, m.value, depth + 1);
    SkipsTo(s, p, m.lead);
    NothingToSkip(s, d);
    StartsAlike(s, p, d, depth + 1, [], map[], []);
  }

  lemma {:induction false} ElementsWritten(s: Source, p: nat, m: Elements, depth: int, done: seq<Node>)
    requires ElementsOk(m, depth) && Has(s, p, PrintElements(m))
    ensures SkipTrivia(s, p).Ok? && AtToken(s, SkipTrivia(s, p).next) && Peek(s, SkipTrivia(s, p).next) != CLOSE_BRACKET
    ensures ElementsFrom(s, p, depth, done) == Ok(done + MeaningOfElements(s, p, m), p + |PrintElements(m)|)
    decreases m, 1
  {
    hide Has, PrintTrivia, Print, SkipTrivia, SeparatorFrom, Meaning, CstOk, ValueAt, PrintElements, TriviaOk,
      ElementsFrom, MeaningOfElements, RestStands, PrintMoreElements;
    ElementRest(s, p, m, depth);
    var d := p + |PrintTrivia(m.lead)|;
    var f := d + |Print(m.value)| + |PrintTrivia(m.after)|;
    ElementHead(s, p, m, depth);
    RestWritten(s, d + |Print(m.value)|, m.after, CLOSE_BRACKET, m.rest);
    var node := Meaning(s, d, m.value);
    FirstMeaningOfElements(s, p, m);
    ValueWritten(s, d, m.value, depth + 1);
    if m.rest.Next? {
      var more := m.rest.more;
      ElementsWritten(s, f + 1, more, depth, done + [node]);
      SkipsIdle(s, f + 1);
      StartsAlike(s, f + 1, SkipTrivia(s, f + 1).next, depth, [], map[], done + [node]);
      assert done + [node] + MeaningOfElements(s, f + 1, more) == done + ([node] + MeaningOfElements(s, f + 1, more));
    }
    ElementsStep(s, p, depth, done);
  }

  // ---- what is read was written --------------------------------------------

  /** Trivia that ends before the end of the text is trivia without a tail. */
  lemma {:induction false} TriviaBefore(s: Source, p: nat) returns (ts: Trivia)
    requires p <= |s.text| && SkipTrivia(s, p).Ok? && SkipTrivia(s, p).next < |s.text|
    ensures TriviaOk(ts) && Has(s, p, PrintTrivia(ts)) && SkipTrivia(s, p).next == p + |PrintTrivia(ts)|
    ensures AtToken(s, SkipTrivia(s, p).next)
  {
    hide Has, SkipTrivia, PrintTrivia;
    var tail: Option<Text>;
    ts, tail := TriviaRead(s, p);
    assert PrintTrivia(ts) + [] == PrintTrivia(ts);
  }

  lemma {:induction false} QuotedRead(s: Source, p: nat) returns (parts: seq<Part>)
    requires Peek(s, p) == QUOTE && StringFrom(s, p + 1, p, []).Ok?
    ensures PartsOk(parts) && Has(s, p, PrintString(parts))
    ensures StringFrom(s, p + 1, p, []) == Ok(Decode(parts), p + |PrintString(parts)|)
  {
    hide Has, StringFrom, PrintString, Decode;
    parts := StringRead(s, p + 1, p, []);
    SplitQuoted(s, p, parts);
    assert [] + Decode(parts) == Decode(parts);
  }

  /** `m` so far: its key and the trivia around it stand from `p` on. */
  ghost predicate KeyStands(s: Source, p: nat, before: Trivia, key: seq<Part>, mid: Trivia) {
    var a := p + |PrintTrivia(before)|;
    var b := a + |PrintString(key)|;
    && TriviaOk(before) && PartsOk(key) && TriviaOk(mid)
    && Has(s, p, PrintTrivia(before)) && Has(s, a, PrintString(key)) && Has(s, b, PrintTrivia(mid))
    && Peek(s, b + |PrintTrivia(mid)|) == COLON
  }

  lemma {:induction false} KeyRead(s: Source, p: nat, lines: map<Text, nat>) returns (before: Trivia, key: seq<Part>, mid: Trivia)
    requires p <= |s.text| && KeyFrom(s, p, lines).Ok?
    ensures KeyStands(s, p, before, key, mid) && Decode(key) !in lines
    ensures KeyFrom(s, p, lines) ==
            Ok(Decode(key), p + |PrintTrivia(before)| + |PrintString(key)| + |PrintTrivia(mid)| + 1)
  {
    hide Has, StringFrom, PrintString, Decode, SkipTrivia, PrintTrivia;
    before := TriviaBefore(s, p);
    var a := SkipTrivia(s, p).next;
    key := QuotedRead(s, a);
    mid := TriviaBefore(s, a + |PrintString(key)|);
  }

  /** What stands between a value at `p` and the next one, or the close. */
  ghost predicate SeparatorStands(s: Source, p: nat, close: Code, after: Trivia, inner: Option<Trivia>, r: Res<bool>)
    requires p <= |s.text|
  {
    var f := p + |PrintTrivia(after)|;
    && TriviaOk(after) && Has(s, p, PrintTrivia(after)) && f < |s.text|
    && match r
       case Fail(_, _) => false
       case Ok(true, n) => Peek(s, f) == COMMA && SkipTrivia(s, f + 1) == Ok((), n) && AtToken(s, n)
       case Ok(false, n) =>
         if inner.None? then Peek(s, f) == close && n == f + 1
         else
           && TriviaOk(inner.value) && Peek(s, f) == COMMA && Has(s, f + 1, PrintTrivia(inner.value))
           && Peek(s, f + 1 + |PrintTrivia(inner.value)|) == close && n == f + 2 + |PrintTrivia(inner.value)|
  }

  lemma {:induction false} SeparatorRead(s: Source, p: nat, close: Code) returns (after: Trivia, inner: Option<Trivia>)
    requires p <= |s.text| && SeparatorFrom(s, p, close).Ok?
    ensures SeparatorStands(s, p, close, after, inner, SeparatorFrom(s, p, close))
  {
    hide Has, SkipTrivia, PrintTrivia;
    after := TriviaBefore(s, p);
    inner := None;
    var f := SkipTrivia(s, p).next;
    if Peek(s, f) == COMMA {
      SkipsIdle(s, f + 1);
      if !SeparatorFrom(s, p, close).value {
        var ts := TriviaBefore(s, f + 1);
        inner := Some(ts);
      }
    }
  }

  /** `c`, after `lead`, is what the value read at `p` was written as. */
  ghost predicate ReadsAs(s: Source, p: nat, depth: int, lead: Trivia, c: Cst)
    requires p <= |s.text|
  {
    var q := p + |PrintTrivia(lead)|;
    && TriviaOk(lead) && CstOk(c, depth) && Has(s, p, PrintTrivia(lead)) && Has(s, q, Print(c))
    && ValueAt(s, p, depth) == Ok(Meaning(s, q, c), q + |Print(c)|)
  }

  lemma {:induction false} ValueRead(s: Source, p: nat, depth: int) returns (lead: Trivia, c: Cst)
    requires p <= |s.text| && ValueAt(s, p, depth).Ok?
    ensures ReadsAs(s, p, depth, lead, c)
    decreases |s.text| - p, 2
  {
    hide Has, SkipTrivia, PrintTrivia, StringFrom, NumberAt, Keyword, ObjectAt, ArrayAt, PrintString, PrintNumber, PrintWord,
      Decode, PlaceAt, PrintMembers, PrintElements, MeaningOfMembers, MeaningOfElements;
    lead := TriviaBefore(s, p);
    var q := SkipTrivia(s, p).next;
    var ch := Peek(s, q);
    if ch == OPEN_BRACE {
      c := ObjectRead(s, q, depth);
    } else if ch == OPEN_BRACKET {
      c := ArrayRead(s, q, depth);
    } else if ch == QUOTE {
      var parts := QuotedRead(s, q);
      c := Quoted(parts);
    } else if ch == MINUS || IsDigit(ch) {
      var number := NumberRead(s, q);
      c := Figure(number);
    } else {
      var word := WordRead(s, q);
      c := Bare(word);
    }
  }

  lemma {:induction false} ObjectRead(s: Source, p: nat, depth: int) returns (c: Cst)
    requires Peek(s, p) == OPEN_BRACE && ObjectAt(s, p, depth).Ok?
    ensures CstOk(c, depth) && Has(s, p, Print(c)) && ObjectAt(s, p, depth) == Ok(Meaning(s, p, c), p + |Print(c)|)
    decreases |s.text| - p, 1
  {
    hide Has, SkipTrivia, PrintTrivia, PlaceAt, PrintMembers, MembersFrom, MembersOk, MeaningOfMembers;
    var q := SkipTrivia(s, p + 1).next;
    HasOne(s, p, OPEN_BRACE);
    if Peek(s, q) == CLOSE_BRACE {
      var inner := TriviaBefore(s, p + 1);
      HasOne(s, q, CLOSE_BRACE);
      HasBoth(s, p + 1, PrintTrivia(inner), [CLOSE_BRACE]);
      HasBoth(s, p, [OPEN_BRACE], PrintTrivia(inner) + [CLOSE_BRACE]);
      c := EmptyObject(inner);
    } else {
      SkipsIdle(s, p + 1);
      var none: map<Text, nat> := map[];
      assert none.Keys == {};
      StartsAlike(s, p + 1, q, depth, [], none, []);
      var m := MembersRead(s, p + 1, depth, [], none);
      HasBoth(s, p, [OPEN_BRACE], PrintMembers(m));
      assert [] + MeaningOfMembers(s, p + 1, m) == MeaningOfMembers(s, p + 1, m);
      c := FullObject(m);
    }
  }

  lemma {:induction false} ArrayRead(s: Source, p: nat, depth: int) returns (c: Cst)
    requires Peek(s, p) == OPEN_BRACKET && ArrayAt(s, p, depth).Ok?
    ensures CstOk(c, depth) && Has(s, p, Print(c)) && ArrayAt(s, p, depth) == Ok(Meaning(s, p, c), p + |Print(c)|)
    decreases |s.text| - p, 1
  {
    hide Has, SkipTrivia, PrintTrivia, PlaceAt, PrintElements, ElementsFrom, ElementsOk, MeaningOfElements;
    var q := SkipTrivia(s, p + 1).next;
    HasOne(s, p, OPEN_BRACKET);
    if Peek(s, q) == CLOSE_BRACKET {
      var inner := TriviaBefore(s, p + 1);
      HasOne(s, q, CLOSE_BRACKET);
      HasBoth(s, p + 1, PrintTrivia(inner), [CLOSE_BRACKET]);
      HasBoth(s, p, [OPEN_BRACKET], PrintTrivia(inner) + [CLOSE_BRACKET]);
      c := EmptyArray(inner);
    } else {
      SkipsIdle(s, p + 1);
      StartsAlike(s, p + 1, q, depth, [], map[], []);
      var e := ElementsRead(s, p + 1, depth, []);
      HasBoth(s, p, [OPEN_BRACKET], PrintElements(e));
      assert [] + MeaningOfElements(s, p + 1, e) == MeaningOfElements(s, p + 1, e);
      c := FullArray(e);
    }
  }

  lemma {:induction false} MembersRead(s: Source, p: nat, depth: int, done: seq<Entry>, lines: map<Text, nat>) returns (m: Members)
    requires p <= |s.text| && MembersFrom(s, p, depth, done, lines).Ok?
    ensures MembersOk(m, depth, lines.Keys) && Has(s, p, PrintMembers(m))
    ensures MembersFrom(s, p, depth, done, lines) == Ok(done + MeaningOfMembers(s, p, m), p + |PrintMembers(m)|)
    decreases |s.text| - p, 3
  {
    hide Has, SkipTrivia, PrintTrivia, PrintString, Print, PrintMembers, KeyFrom, SeparatorFrom, ValueAt, Meaning, Decode,
      MeaningOfMembers, TriviaOk, PartsOk, CstOk, KeyLine;
    var before, key, mid := KeyRead(s, p, lines);
    var at := KeyFrom(s, p, lines).next;
    var lead, value := ValueRead(s, at, depth + 1);
    var e := ValueAt(s, at, depth + 1).next;
    var after, inner := SeparatorRead(s, e, CLOSE_BRACE);
    var f := e + |PrintTrivia(after)|;
    m := Member(before, key, mid, lead, value, after, Closed);
    if SeparatorFrom(s, e, CLOSE_BRACE).value {
      var all := done + [Entry(Decode(key), ValueAt(s, at, depth + 1).value)];
      var lines' := lines[Decode(key) := KeyLine(s, p)];
      SkipsIdle(s, f + 1);
      StartsAlike(s, f + 1, SkipTrivia(s, f + 1).next, depth, all, lines', []);
      var more := MembersRead(s, f + 1, depth, all, lines');
      assert lines'.Keys == lines.Keys + {Decode(key)};
      SplitComma(s, f, PrintMembers(more));
      m := m.(rest := Next(more));
      var first := [Entry(Decode(key), ValueAt(s, at, depth + 1).value)];
      assert all + MeaningOfMembers(s, f + 1, more) == done + (first + MeaningOfMembers(s, f + 1, more));
    } else if inner.Some? {
      SplitClose(s, f, inner.value, CLOSE_BRACE);
      m := m.(rest := TrailingComma(inner.value));
    } else {
      HasOne(s, f, CLOSE_BRACE);
    }
    SplitMember(s, p, m);
    FirstMeaning(s, p, m);
  }

  lemma {:induction false} ElementsRead(s: Source, p: nat, depth: int, done: seq<Node>) returns (m: Elements)
    requires p <= |s.text| && ElementsFrom(s, p, depth, done).Ok?
    ensures ElementsOk(m, depth) && Has(s, p, PrintElements(m))
    ensures ElementsFrom(s, p, depth, done) == Ok(done + MeaningOfElements(s, p, m), p + |PrintElements(m)|)
    decreases |s.text| - p, 3
  {
    hide Has, SkipTrivia, PrintTrivia, Print, PrintElements, SeparatorFrom, ValueAt, Meaning, MeaningOfElements, TriviaOk, CstOk;
    var lead, value := ValueRead(s, p, depth + 1);
    var e := ValueAt(s, p, depth + 1).next;
    var after, inner := SeparatorRead(s, e, CLOSE_BRACKET);
    var f := e + |PrintTrivia(after)|;
    m := Element(lead, value, after, Closed);
    if SeparatorFrom(s, e, CLOSE_BRACKET).value {
      var all := done + [ValueAt(s, p, depth + 1).value];
      SkipsIdle(s, f + 1);
      StartsAlike(s, f + 1, SkipTrivia(s, f + 1).next, depth, [], map[], all);
      var more := ElementsRead(s, f + 1, depth, all);
      SplitComma(s, f, PrintElements(more));
      m := m.(rest := Next(more));
      assert all + MeaningOfElements(s, f + 1, more) == done + ([ValueAt(s, p, depth + 1).value] + MeaningOfElements(s, f + 1, more));
    } else if inner.Some? {
      SplitClose(s, f, inner.value, CLOSE_BRACKET);
      m := m.(rest := TrailingComma(inner.value));
    } else {
      HasOne(s, f, CLOSE_BRACKET);
    }
    SplitElement(s, p, m);
    FirstMeaningOfElements(s, p, m);
  }

  // ---- documents -----------------------------------------------------------

  /** `d` is how the source was written. */
  ghost predicate Wrote(s: Source, d: Document) { DocumentOk(d) && PrintDocument(d) == s.text }

  ghost function MeaningOfDocument(s: Source, d: Document): Node { Meaning(s, |PrintTrivia(d.lead)|, d.value) }

  lemma {:induction false} IsWhole(s: Source, t: Text)
    ensures t == s.text <==> Has(s, 0, t) && |t| == |s.text|
  {
    assert s.text[0..|s.text|] == s.text;
  }

  lemma {:induction false} SplitDocument(s: Source, d: Document)
    ensures var a := |PrintTrivia(d.lead)|; var b := a + |Print(d.value)|; var c := b + |PrintTrivia(d.after)|;
            PrintDocument(d) == s.text <==>
              && Has(s, 0, PrintTrivia(d.lead)) && Has(s, a, Print(d.value)) && Has(s, b, PrintTrivia(d.after))
              && Has(s, c, PrintTail(d.tail)) && c + |PrintTail(d.tail)| == |s.text|
  {
    hide Has, PrintTrivia, Print, PrintTail;
    var after := PrintTrivia(d.after) + PrintTail(d.tail);
    IsWhole(s, PrintDocument(d));
    HasBoth(s, 0, PrintTrivia(d.lead), Print(d.value) + after);
    HasBoth(s, |PrintTrivia(d.lead)|, Print(d.value), after);
    HasBoth(s, |PrintTrivia(d.lead)| + |Print(d.value)|, PrintTrivia(d.after), PrintTail(d.tail));
  }

  /** A last line comment, and nothing after it. */
  lemma {:induction false} TailWritten(s: Source, p: nat, tail: Option<Text>)
    requires Has(s, p, PrintTail(tail)) && p + |PrintTail(tail)| == |s.text| && (tail.Some? ==> NEWLINE !in tail.value)
    ensures SkipTrivia(s, p) == Ok((), |s.text|) && Follows(s, p)
  {
    hide Has;
    if tail.Some? {
      var end := |s.text|;
      HasBoth(s, p, [SLASH, SLASH], tail.value);
      HasTwo(s, p, SLASH, SLASH);
      forall i | p + 2 <= i < end ensures s.text[i] != NEWLINE { HasAt(s, p + 2, tail.value, i - p - 2); }
      LineEndIs(s, p + 2, end);
      assert SkipTrivia(s, end) == Ok((), end);
    }
  }

  lemma {:induction false} DocumentWritten(s: Source, d: Document)
    requires Wrote(s, d)
    ensures DocumentAt(s) == Ok(MeaningOfDocument(s, d), |s.text|)
  {
    hide Has, PrintTrivia, Print, PrintTail, PrintDocument, SkipTrivia, ValueAt, Meaning, CstOk, TriviaOk;
    SplitDocument(s, d);
    var a := |PrintTrivia(d.lead)|;
    var b := a + |Print(d.value)|;
    var c := b + |PrintTrivia(d.after)|;
    TailWritten(s, c, d.tail);
    TriviaFollows(s, b, d.after);
    ValueStarts(s, a, d.value, 1);
    SkipsTo(s, 0, d.lead);
    ValueWritten(s, a, d.value, 1);
    TriviaWritten(s, b, d.after);
  }

  lemma {:induction false} DocumentRead(s: Source) returns (d: Document)
    requires DocumentAt(s).Ok?
    ensures Wrote(s, d)
  {
    hide Has, PrintTrivia, Print, PrintTail, PrintDocument, SkipTrivia, ValueAt, Meaning, CstOk, TriviaOk;
    var start := SkipTrivia(s, 0).next;
    SkipsIdle(s, 0);
    StartsAlike(s, 0, start, 1, [], map[], []);
    var lead, c := ValueRead(s, 0, 1);
    var b := ValueAt(s, 0, 1).next;
    var after, tail := TriviaRead(s, b);
    HasBoth(s, b, PrintTrivia(after), PrintTail(tail));
    d := Document(lead, c, after, tail);
    SplitDocument(s, d);
  }

  /**
    A text is accepted exactly when the grammar prints it - RFC 8259 with
    comments and one trailing comma, at most 64 deep, no key twice - and the
    tree returned is its meaning, every node on the line it was written on.
   */
  lemma {:induction false} ReaderIsExact(s: Source, node: Node)
    ensures (DocumentAt(s).Ok? && DocumentAt(s).value == node) <==> exists d :: Wrote(s, d) && node == MeaningOfDocument(s, d)
  {
    hide DocumentAt, Wrote, MeaningOfDocument;
    if DocumentAt(s).Ok? {
      var d := DocumentRead(s);
      DocumentWritten(s, d);
    }
    forall d | Wrote(s, d) ensures DocumentAt(s) == Ok(MeaningOfDocument(s, d), |s.text|) {
      DocumentWritten(s, d);
    }
  }

  /** What a document means for the parser is fixed by its text alone: no text can be written in two ways that differ in meaning. */
  lemma {:induction false} MeaningIsUnique(s: Source, d: Document, e: Document)
    requires Wrote(s, d) && Wrote(s, e)
    ensures MeaningOfDocument(s, d) == MeaningOfDocument(s, e)
  {
    hide DocumentAt, Wrote, MeaningOfDocument;
    DocumentWritten(s, d);
    DocumentWritten(s, e);
  }

  /** One byte order mark in front of a document changes nothing; a second one is refused. */
  lemma {:induction false} BomIsDropped(s: Source)
    requires DocumentAt(s).Ok?
    ensures WithoutBom(s.text) == s.text && WithoutBom([BOM] + s.text) == s.text
    ensures DocumentAt(Source(s.file, WithoutBom([BOM, BOM] + s.text))).Fail?
  {
    hide DocumentAt;
    if |s.text| > 0 && s.text[0] == BOM { BomIsNoValue(s); }
    assert ([BOM, BOM] + s.text)[1..] == [BOM] + s.text;
    BomIsNoValue(Source(s.file, [BOM] + s.text));
  }

  lemma {:induction false} BomIsNoValue(s: Source)
    requires Peek(s, 0) == BOM
    ensures DocumentAt(s).Fail?
  {
    NothingToSkip(s, 0);
    hide SkipTrivia, ObjectAt, ArrayAt, StringFrom, NumberAt, Keyword;
  }
}
