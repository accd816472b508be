/**
  Source texts as UTF-16 code units, the tree the reader builds, and the
  grammar of what it accepts: RFC 8259 sections 2 to 7 with comments and one
  trailing comma (src/config/internal/jsonc.ts).
 */
module JsoncText {
  import opened Prelude

  type Code = c: int | 0 <= c <= 0xFFFF
  type Text = seq<Code>

  datatype Source = Source(file: string, text: Text)

  const TAB: Code := 0x09
  const NEWLINE: Code := 0x0A
  const RETURN: Code := 0x0D
  const SPACE: Code := 0x20
  const QUOTE: Code := 0x22
  const APOSTROPHE: Code := 0x27
  const STAR: Code := 0x2A
  const PLUS: Code := 0x2B
  const COMMA: Code := 0x2C
  const MINUS: Code := 0x2D
  const DOT: Code := 0x2E
  const SLASH: Code := 0x2F
  const ZERO: Code := 0x30
  const COLON: Code := 0x3A
  const OPEN_BRACKET: Code := 0x5B
  const BACKSLASH: Code := 0x5C
  const CLOSE_BRACKET: Code := 0x5D
  const OPEN_BRACE: Code := 0x7B
  const CLOSE_BRACE: Code := 0x7D
  const BOM: Code := 0xFEFF

  const MAX_DEPTH := 64

  predicate IsBlank(c: int) { c == SPACE || c == TAB || c == RETURN || c == NEWLINE }
  predicate IsDigit(c: int) { 0x30 <= c <= 0x39 }
  predicate IsLetter(c: int) { 0x41 <= c <= 0x5A || 0x61 <= c <= 0x7A }
  predicate IsHex(c: int) { IsDigit(c) || 0x41 <= c <= 0x46 || 0x61 <= c <= 0x66 }
  predicate IsE(c: int) { c == 0x45 || c == 0x65 }
  predicate IsSign(c: int) { c == PLUS || c == MINUS }

  predicate AllDigits(t: Text) { forall i :: 0 <= i < |t| ==> IsDigit(t[i]) }

  function HexDigit(c: Code): (v: nat)
    requires IsHex(c)
    ensures v < 16
  {
    if c <= 0x39 then c - 0x30 else if c <= 0x46 then c - 0x37 else c - 0x57
  }

  function HexValue(h: Text): Code
    requires |h| == 4 && forall i :: 0 <= i < 4 ==> IsHex(h[i])
  {
    HexDigit(h[0]) * 4096 + HexDigit(h[1]) * 256 + HexDigit(h[2]) * 16 + HexDigit(h[3])
  }

  /** The character an escape letter other than `u` stands for. */
  function Unescape(letter: int): Option<Code> {
    if letter == QUOTE then Some(QUOTE)
    else if letter == BACKSLASH then Some(BACKSLASH)
    else if letter == SLASH then Some(SLASH)
    else if letter == 0x62 then Some(0x08)
    else if letter == 0x66 then Some(0x0C)
    else if letter == 0x6E then Some(NEWLINE)
    else if letter == 0x72 then Some(RETURN)
    else if letter == 0x74 then Some(TAB)
    else None
  }

  // ---- the tree ------------------------------------------------------------

  datatype Place = Place(file: string, line: nat)

  datatype Node =
    | Object(at: Place, entries: seq<Entry>)
    | Array(at: Place, items: seq<Node>)
    | Str(at: Place, value: Text)
    | Num(at: Place, literal: Text)
    | Bool(at: Place, flag: bool)
    | Null(at: Place)

  datatype Entry = Entry(key: Text, node: Node)

  /** The 1-based line of position `p`: one more than the newlines before it. */
  function LineAt(text: Text, p: nat): nat
    requires p <= |text|
  {
    1 + multiset(text[..p])[NEWLINE]
  }

  /** `start` is where the line of position `p` begins. */
  ghost predicate StartsLine(text: Text, p: nat, start: nat) {
    && start <= p <= |text|
    && (start == 0 || text[start - 1] == NEWLINE)
    && (forall i :: start <= i < p ==> text[i] != NEWLINE)
  }

  function LineStart(text: Text, p: nat): (start: nat)
    requires p <= |text|
    ensures StartsLine(text, p, start)
  {
    if p == 0 || text[p - 1] == NEWLINE then p else LineStart(text, p - 1)
  }

  lemma {:induction false} LineStartIsUnique(text: Text, p: nat, a: nat, b: nat)
    requires StartsLine(text, p, a) && StartsLine(text, p, b)
    ensures a == b
  {
  }

  function PlaceAt(s: Source, p: nat): Place {
    Place(s.file, if p <= |s.text| then LineAt(s.text, p) else 0)
  }

  // ---- concrete syntax -----------------------------------------------------

  datatype Piece = Blank(c: Code) | LineComment(body: Text) | BlockComment(body: Text)
  type Trivia = seq<Piece>

  datatype Part = Plain(c: Code) | Escape(letter: Code) | Unicode(hex: Text)

  datatype Exponent = Exponent(e: Code, sign: Option<Code>, digits: Text)
  datatype Number = Number(negative: bool, whole: Text, fraction: Option<Text>, exponent: Option<Exponent>)

  datatype Word = True | False | Nil

  /** A value as it is written, trivia included. */
  datatype Cst =
    | EmptyObject(inner: Trivia)
    | FullObject(members: Members)
    | EmptyArray(inner: Trivia)
    | FullArray(elements: Elements)
    | Quoted(parts: seq<Part>)
    | Figure(number: Number)
    | Bare(word: Word)

  /** `before "key" mid : lead value after`, and then the end or the next member. */
  datatype Members = Member(before: Trivia, key: seq<Part>, mid: Trivia, lead: Trivia, value: Cst, after: Trivia, rest: Rest<Members>)
  datatype Elements = Element(lead: Trivia, value: Cst, after: Trivia, rest: Rest<Elements>)
  datatype Rest<T> = Closed | TrailingComma(inner: Trivia) | Next(more: T)

  /** `tail` is a last line comment that the end of the text ends. */
  datatype Document = Document(lead: Trivia, value: Cst, after: Trivia, tail: Option<Text>)

  // ---- well-formedness -----------------------------------------------------

  predicate NoClose(body: Text) { forall i :: 0 <= i < |body| - 1 ==> !(body[i] == STAR && body[i + 1] == SLASH) }

  predicate PieceOk(piece: Piece) {
    match piece
    case Blank(c) => IsBlank(c)
    case LineComment(body) => NEWLINE !in body
    case BlockComment(body) => NoClose(body)
  }

  predicate TriviaOk(ts: Trivia) { forall i :: 0 <= i < |ts| ==> PieceOk(ts[i]) }

  predicate PartOk(part: Part) {
    match part
    case Plain(c) => c >= SPACE && c != QUOTE && c != BACKSLASH
    case Escape(letter) => Unescape(letter).Some?
    case Unicode(hex) => |hex| == 4 && forall i :: 0 <= i < 4 ==> IsHex(hex[i])
  }

  predicate PartsOk(parts: seq<Part>) { forall i :: 0 <= i < |parts| ==> PartOk(parts[i]) }

  predicate NumberOk(n: Number) {
    && 0 < |n.whole| && AllDigits(n.whole) && (n.whole[0] == ZERO ==> |n.whole| == 1)
    && (n.fraction.Some? ==> 0 < |n.fraction.value| && AllDigits(n.fraction.value))
    && (n.exponent.Some? ==>
          && IsE(n.exponent.value.e) && 0 < |n.exponent.value.digits| && AllDigits(n.exponent.value.digits)
          && (n.exponent.value.sign.Some? ==> IsSign(n.exponent.value.sign.value)))
  }

  predicate CstOk(c: Cst, depth: int) {
    match c
    case EmptyObject(inner) => depth <= MAX_DEPTH && TriviaOk(inner)
    case FullObject(members) => depth <= MAX_DEPTH && MembersOk(members, depth, {})
    case EmptyArray(inner) => depth <= MAX_DEPTH && TriviaOk(inner)
    case FullArray(elements) => depth <= MAX_DEPTH && ElementsOk(elements, depth)
    case Quoted(parts) => PartsOk(parts)
    case Figure(number) => NumberOk(number)
    case Bare(_) => true
  }

  /** No key, once decoded, is among those `seen` before it. */
  predicate MembersOk(m: Members, depth: int, seen: set<Text>) {
    && TriviaOk(m.before) && PartsOk(m.key) && TriviaOk(m.mid) && TriviaOk(m.lead) && TriviaOk(m.after)
    && CstOk(m.value, depth + 1) && Decode(m.key) !in seen
    && match m.rest
       case Closed => true
       case TrailingComma(inner) => TriviaOk(inner)
       case Next(more) => MembersOk(more, depth, seen + {Decode(m.key)})
  }

  predicate ElementsOk(e: Elements, depth: int) {
    && TriviaOk(e.lead) && TriviaOk(e.after) && CstOk(e.value, depth + 1)
    && match e.rest
       case Closed => true
       case TrailingComma(inner) => TriviaOk(inner)
       case Next(more) => ElementsOk(more, depth)
  }

  predicate DocumentOk(d: Document) {
    && TriviaOk(d.lead) && TriviaOk(d.after) && CstOk(d.value, 1)
    && (d.tail.Some? ==> NEWLINE !in d.tail.value)
  }

  // ---- the printer ---------------------------------------------------------

  function PrintPiece(piece: Piece): Text {
    match piece
    case Blank(c) => [c]
    case LineComment(body) => [SLASH, SLASH] + body + [NEWLINE]
    case BlockComment(body) => [SLASH, STAR] + body + [STAR, SLASH]
  }

  function PrintTrivia(ts: Trivia): Text {
    if ts == [] then [] else PrintPiece(ts[0]) + PrintTrivia(ts[1..])
  }

  function PrintPart(part: Part): Text {
    match part
    case Plain(c) => [c]
    case Escape(letter) => [BACKSLASH, letter]
    case Unicode(hex) => [BACKSLASH, 0x75] + hex
  }

  function PrintParts(parts: seq<Part>): Text {
    if parts == [] then [] else PrintPart(parts[0]) + PrintParts(parts[1..])
  }

  function PrintString(parts: seq<Part>): Text { [QUOTE] + (PrintParts(parts) + [QUOTE]) }

  function DecodePart(part: Part): Code {
    match part
    case Plain(c) => c
    case Escape(letter) => if Unescape(letter).Some? then Unescape(letter).value else letter
    case Unicode(hex) => if PartOk(part) then HexValue(hex) else 0
  }

  function Decode(parts: seq<Part>): Text {
    if parts == [] then [] else [DecodePart(parts[0])] + Decode(parts[1..])
  }

  function PrintFraction(f: Option<Text>): Text { if f.Some? then [DOT] + f.value else [] }

  function PrintExponent(x: Option<Exponent>): Text {
    if x.None? then []
    else [x.value.e] + ((if x.value.sign.Some? then [x.value.sign.value] else []) + x.value.digits)
  }

  function PrintNumber(n: Number): Text {
    (if n.negative then [MINUS] else []) + (n.whole + (PrintFraction(n.fraction) + PrintExponent(n.exponent)))
  }

  function PrintWord(w: Word): Text {
    match w
    case True => [0x74, 0x72, 0x75, 0x65]
    case False => [0x66, 0x61, 0x6C, 0x73, 0x65]
    case Nil => [0x6E, 0x75, 0x6C, 0x6C]
  }

  function Print(c: Cst): Text {
    match c
    case EmptyObject(inner) => [OPEN_BRACE] + (PrintTrivia(inner) + [CLOSE_BRACE])
    case FullObject(members) => [OPEN_BRACE] + PrintMembers(members)
    case EmptyArray(inner) => [OPEN_BRACKET] + (PrintTrivia(inner) + [CLOSE_BRACKET])
    case FullArray(elements) => [OPEN_BRACKET] + PrintElements(elements)
    case Quoted(parts) => PrintString(parts)
    case Figure(number) => PrintNumber(number)
    case Bare(word) => PrintWord(word)
  }

  function PrintMembers(m: Members): Text {
    PrintTrivia(m.before) + (PrintString(m.key) + (PrintTrivia(m.mid) + ([COLON] +
      (PrintTrivia(m.lead) + (Print(m.value) + (PrintTrivia(m.after) + PrintMoreMembers(m.rest)))))))
  }

  function PrintMoreMembers(rest: Rest<Members>): Text {
    match rest
    case Closed => [CLOSE_BRACE]
    case TrailingComma(inner) => [COMMA] + (PrintTrivia(inner) + [CLOSE_BRACE])
    case Next(more) => [COMMA] + PrintMembers(more)
  }

  function PrintElements(e: Elements): Text {
    PrintTrivia(e.lead) + (Print(e.value) + (PrintTrivia(e.after) + PrintMoreElements(e.rest)))
  }

  function PrintMoreElements(rest: Rest<Elements>): Text {
    match rest
    case Closed => [CLOSE_BRACKET]
    case TrailingComma(inner) => [COMMA] + (PrintTrivia(inner) + [CLOSE_BRACKET])
    case Next(more) => [COMMA] + PrintElements(more)
  }

  function PrintTail(tail: Option<Text>): Text { if tail.Some? then [SLASH, SLASH] + tail.value else [] }

  function PrintDocument(d: Document): Text {
    PrintTrivia(d.lead) + (Print(d.value) + (PrintTrivia(d.after) + PrintTail(d.tail)))
  }

  // ---- the tree a text written this way stands for -------------------------

  /** The tree of `c`, written at position `p` of the source. */
  ghost function Meaning(s: Source, p: nat, c: Cst): Node
    decreases c
  {
    var at := PlaceAt(s, p);
    match c
    case EmptyObject(_) => Object(at, [])
    case FullObject(members) => Object(at, MeaningOfMembers(s, p + 1, members))
    case EmptyArray(_) => Array(at, [])
    case FullArray(elements) => Array(at, MeaningOfElements(s, p + 1, elements))
    case Quoted(parts) => Str(at, Decode(parts))
    case Figure(number) => Num(at, PrintNumber(number))
    case Bare(word) => if word.Nil? then Null(at) else Bool(at, word.True?)
  }

  ghost function MeaningOfMembers(s: Source, p: nat, m: Members): seq<Entry>
    decreases m
  {
    var at := p + |PrintTrivia(m.before)| + |PrintString(m.key)| + |PrintTrivia(m.mid)| + 1 + |PrintTrivia(m.lead)|;
    var end := at + |Print(m.value)| + |PrintTrivia(m.after)|;
    [Entry(Decode(m.key), Meaning(s, at, m.value))] + if m.rest.Next? then MeaningOfMembers(s, end + 1, m.rest.more) else []
  }

  ghost function MeaningOfElements(s: Source, p: nat, e: Elements): seq<Node>
    decreases e
  {
    var at := p + |PrintTrivia(e.lead)|;
    var end := at + |Print(e.value)| + |PrintTrivia(e.after)|;
    [Meaning(s, at, e.value)] + if e.rest.Next? then MeaningOfElements(s, end + 1, e.rest.more) else []
  }
}
