/**
  A writer of JSON strings (RFC 8259 section 7) that owes nothing to the
  reader: what it escapes, the reader gives back (src/config/internal/jsonc.ts:327-400).
 */
module JsoncWriter {
  import opened Prelude
  import opened JsoncText
  import opened JsoncSpec
  import JsoncGrammar

  /** The characters 0123456789abcdef, and 0123456789ABCDEF. */
  const LOWER: Text := [0x30, 0x31, 0x32, 0x33, 0x34, 0x35, 0x36, 0x37, 0x38, 0x39, 0x61, 0x62, 0x63, 0x64, 0x65, 0x66]
  const UPPER: Text := [0x30, 0x31, 0x32, 0x33, 0x34, 0x35, 0x36, 0x37, 0x38, 0x39, 0x41, 0x42, 0x43, 0x44, 0x45, 0x46]

  /** The four base-16 digits of a code unit, most significant first. */
  function Nibbles(c: Code): (ds: seq<nat>)
    ensures |ds| == 4 && forall i :: 0 <= i < 4 ==> ds[i] < 16
  {
    [c / 4096, c / 256 % 16, c / 16 % 16, c % 16]
  }

  lemma {:induction false} DigitSpells(h: Code, d: nat)
    requires IsHex(h) && d < 16
    ensures HexDigit(h) == d <==> h == LOWER[d] || h == UPPER[d]
  {
  }

  lemma Halves(c: nat)
    ensures c / 256 == c / 16 / 16 && c / 4096 == c / 16 / 16 / 16
  {
  }

  lemma LastDigit(a: nat, e: nat, c: nat)
    requires e < 16
    ensures a * 16 + e == c <==> a == c / 16 && e == c % 16
  {
  }

  lemma {:induction false} Positional(e0: nat, e1: nat, e2: nat, e3: nat, c: Code)
    requires e0 < 16 && e1 < 16 && e2 < 16 && e3 < 16
    ensures e0 * 4096 + e1 * 256 + e2 * 16 + e3 == c <==> Nibbles(c) == [e0, e1, e2, e3]
  {
    Halves(c);
    LastDigit(e0 * 256 + e1 * 16 + e2, e3, c);
    LastDigit(e0 * 16 + e1, e2, c / 16);
    LastDigit(e0, e1, c / 256);
  }

  /** Four digits, in either case, are a code unit exactly when they spell its base-16 digits, most significant first. */
  lemma {:induction false} HexReadsExactly(h: Text, c: Code)
    requires |h| == 4 && forall i :: 0 <= i < 4 ==> IsHex(h[i])
    ensures HexValue(h) == c <==> forall i :: 0 <= i < 4 ==> h[i] == LOWER[Nibbles(c)[i]] || h[i] == UPPER[Nibbles(c)[i]]
  {
    hide HexDigit, Nibbles;
    var d := Nibbles(c);
    Positional(HexDigit(h[0]), HexDigit(h[1]), HexDigit(h[2]), HexDigit(h[3]), c);
    DigitSpells(h[0], d[0]);
    DigitSpells(h[1], d[1]);
    DigitSpells(h[2], d[2]);
    DigitSpells(h[3], d[3]);
  }

  /** A writer may escape the slash or not. */
  function Spell(c: Code, slash: bool): Part {
    if c == 0x22 then Escape(0x22)
    else if c == 0x5C then Escape(0x5C)
    else if c == 0x2F && slash then Escape(0x2F)
    else if c == 0x08 then Escape(0x62)
    else if c == 0x0C then Escape(0x66)
    else if c == 0x0A then Escape(0x6E)
    else if c == 0x0D then Escape(0x72)
    else if c == 0x09 then Escape(0x74)
    else if c < 0x20 || 0x7E < c then Unicode(Spelt(c))
    else Plain(c)
  }

  /** Four digits of either case. */
  function Spelt(c: Code): Text { [LOWER[Nibbles(c)[0]], LOWER[Nibbles(c)[1]], UPPER[Nibbles(c)[2]], UPPER[Nibbles(c)[3]]] }

  lemma {:induction false} SpeltIsRead(c: Code)
    ensures PartOk(Unicode(Spelt(c))) && DecodePart(Unicode(Spelt(c))) == c
  {
    hide HexValue, Nibbles, HexDigit;
    DigitsAreHex(Nibbles(c)[0]);
    DigitsAreHex(Nibbles(c)[1]);
    DigitsAreHex(Nibbles(c)[2]);
    DigitsAreHex(Nibbles(c)[3]);
    HexReadsExactly(Spelt(c), c);
  }

  lemma DigitsAreHex(d: nat)
    requires d < 16
    ensures IsHex(LOWER[d]) && IsHex(UPPER[d])
  {
  }

  function Written(text: Text, slash: bool): seq<Part> {
    if text == [] then [] else [Spell(text[0], slash)] + Written(text[1..], slash)
  }

  lemma {:induction false} SpellIsRead(c: Code, slash: bool)
    ensures PartOk(Spell(c, slash)) && DecodePart(Spell(c, slash)) == c
  {
    hide HexValue, Spelt, IsHex;
    SpeltIsRead(c);
  }

  lemma {:induction false} WrittenDecodes(text: Text, slash: bool)
    ensures PartsOk(Written(text, slash)) && Decode(Written(text, slash)) == text
    decreases |text|
  {
    hide Spell, DecodePart, PartOk;
    if text != [] {
      SpellIsRead(text[0], slash);
      WrittenDecodes(text[1..], slash);
      assert Written(text, slash)[1..] == Written(text[1..], slash);
      assert text == [text[0]] + text[1..];
    }
  }

  /** Whatever the text, what the writer quotes the reader accepts, and its value is the text. */
  lemma {:induction false} WrittenIsRead(s: Source, text: Text, slash: bool)
    requires s.text == PrintString(Written(text, slash))
    ensures DocumentAt(s) == Ok(Str(PlaceAt(s, 0), text), |s.text|)
  {
    hide DocumentAt;
    WrittenDecodes(text, slash);
    var d := Document([], Quoted(Written(text, slash)), [], None);
    JsoncGrammar.DocumentWritten(s, d);
  }

  // ---- the smallest documents ----------------------------------------------

  function Ascii(chars: seq<char>): (t: Text)
    ensures |t| == |chars| && forall i :: 0 <= i < |chars| && chars[i] <= '~' ==> t[i] == chars[i] as int
  {
    seq(|chars|, i requires 0 <= i < |chars| => if chars[i] <= '~' then chars[i] as int else 0)
  }

  lemma {:induction false} ReadsAs(s: Source, c: Cst)
    requires CstOk(c, 1) && s.text == Print(c)
    ensures DocumentAt(s) == Ok(Meaning(s, 0, c), |s.text|)
  {
    hide DocumentAt, Meaning;
    var d := Document([], c, [], None);
    assert PrintDocument(d) == Print(c) by {
      assert PrintTrivia([]) == [] && PrintTail(None) == [];
    }
    JsoncGrammar.DocumentWritten(s, d);
  }

  /** The three words. */
  lemma {:induction false} WordsRead(s: Source)
    ensures s.text == Ascii(['t', 'r', 'u', 'e']) ==> DocumentAt(s) == Ok(Bool(PlaceAt(s, 0), true), 4)
    ensures s.text == Ascii(['f', 'a', 'l', 's', 'e']) ==> DocumentAt(s) == Ok(Bool(PlaceAt(s, 0), false), 5)
    ensures s.text == Ascii(['n', 'u', 'l', 'l']) ==> DocumentAt(s) == Ok(Null(PlaceAt(s, 0)), 4)
  {
    hide DocumentAt;
    if s.text == Ascii(['t', 'r', 'u', 'e']) { ReadsAs(s, Bare(True)); }
    if s.text == Ascii(['f', 'a', 'l', 's', 'e']) { ReadsAs(s, Bare(False)); }
    if s.text == Ascii(['n', 'u', 'l', 'l']) { ReadsAs(s, Bare(Nil)); }
  }

  /** An object and an array of nothing. */
  lemma {:induction false} EmptyBracketsRead(s: Source)
    ensures s.text == Ascii(['{', '}']) ==> DocumentAt(s) == Ok(Object(PlaceAt(s, 0), []), 2)
    ensures s.text == Ascii(['[', ']']) ==> DocumentAt(s) == Ok(Array(PlaceAt(s, 0), []), 2)
  {
    hide DocumentAt, PlaceAt;
    if s.text == Ascii(['{', '}']) { ReadsAs(s, EmptyObject([])); }
    if s.text == Ascii(['[', ']']) { ReadsAs(s, EmptyArray([])); }
  }

  /** An array of one empty string, with a comma after it. */
  lemma {:induction false} ArrayReads(s: Source)
    requires s.text == Ascii(['[', '"', '"', ',', ']'])
    ensures DocumentAt(s) == Ok(Array(PlaceAt(s, 0), [Str(PlaceAt(s, 1), [])]), 5)
  {
    hide DocumentAt, PlaceAt;
    var e := Element([], Quoted([]), [], TrailingComma([]));
    assert PrintElements(e) == Ascii(['"', '"', ',', ']']);
    ReadsAs(s, FullArray(e));
    assert MeaningOfElements(s, 1, e) == [Str(PlaceAt(s, 1), [])];
    assert |s.text| == 5;
  }

  /** An object of one pair of empty strings. */
  lemma {:induction false} ObjectReads(s: Source)
    requires s.text == Ascii(['{', '"', '"', ':', '"', '"', '}'])
    ensures DocumentAt(s) == Ok(Object(PlaceAt(s, 0), [Entry([], Str(PlaceAt(s, 4), []))]), 7)
  {
    hide DocumentAt, PlaceAt;
    var m := Member([], [], [], [], Quoted([]), [], Closed);
    assert PrintMembers(m) == Ascii(['"', '"', ':', '"', '"', '}']);
    ReadsAs(s, FullObject(m));
    assert MeaningOfMembers(s, 1, m) == [Entry([], Str(PlaceAt(s, 4), []))];
    assert |s.text| == 7;
  }

  /** A number with all its parts, of either sign and either letter. */
  lemma {:induction false} NumbersRead(s: Source)
    requires s.text == Ascii(['-', '0', '.', '5', 'e', '+', '7']) || s.text == Ascii(['-', '0', '.', '5', 'E', '-', '7'])
    ensures DocumentAt(s) == Ok(Num(PlaceAt(s, 0), s.text), 7)
  {
    hide DocumentAt, PlaceAt;
    var n := Number(true, [s.text[1]], Some([s.text[3]]), Some(Exponent(s.text[4], Some(s.text[5]), [s.text[6]])));
    assert PrintFraction(n.fraction) + PrintExponent(n.exponent) == s.text[2..];
    assert PrintNumber(n) == s.text;
    ReadsAs(s, Figure(n));
  }
}
