/** JSON string text: the node's `_es_string` over code points, JavaScript's
    `JSON.stringify` over UTF-16 units, and the reader that undoes both. */
module JsonStrings {
  import opened Text
  import opened Utf16

  const LETTER_B: Unit := 0x62
  const LETTER_F: Unit := 0x66
  const LETTER_N: Unit := 0x6E
  const LETTER_R: Unit := 0x72
  const LETTER_T: Unit := 0x74
  const LETTER_U: Unit := 0x75

  // ---------------------------------------------------------------------------
  // `_es_string`

  function HexChar(d: int): Unit
    requires 0 <= d < 16
  {
    if d < 10 then 0x30 + d else 0x57 + d
  }

  /** `\uXXXX` with lowercase digits. */
  function UnicodeEscape(c: Unit): (r: seq<Unit>)
    ensures |r| == 6
  {
    [BACKSLASH, LETTER_U, HexChar(c / 0x1000), HexChar(c / 0x100 % 0x10), HexChar(c / 0x10 % 0x10), HexChar(c % 0x10)]
  }

  /** The letter after the backslash of a two-character escape, or 0. */
  function ShortEscape(c: CodePoint): Unit {
    if c == QUOTE then QUOTE
    else if c == BACKSLASH then BACKSLASH
    else if c == 0x08 then LETTER_B
    else if c == 0x0C then LETTER_F
    else if c == 0x0A then LETTER_N
    else if c == 0x0D then LETTER_R
    else if c == 0x09 then LETTER_T
    else 0
  }

  function EscapeCode(c: CodePoint): (r: Str)
    ensures r != []
    ensures r[0] != QUOTE
    ensures forall i :: 0 <= i < |r| ==> !IsSurrogate(r[i])
  {
    if ShortEscape(c) != 0 then [BACKSLASH, ShortEscape(c)]
    else if c < 0x20 || IsSurrogate(c) then UnicodeEscape(c)
    else [c]
  }

  // ---------------------------------------------------------------------------
  // The escapes spelled out

  /** The lowercase hexadecimal digits, in order. */
  function LowerDigits(): Str {
    Name("0123456789abcdef")
  }

  /** `\u` and four lowercase digits, most significant first, that read back to the unit. */
  lemma UnicodeEscapeSpelled(c: Unit)
    ensures var t, d := UnicodeEscape(c), LowerDigits();
            && t == Name("\\u") + [d[c / 4096], d[c / 256 % 16], d[c / 16 % 16], d[c % 16]]
            && (forall i :: 2 <= i < 6 ==> 0x30 <= t[i] <= 0x39 || 0x61 <= t[i] <= 0x66)
            && c == ((c / 4096 * 16 + c / 256 % 16) * 16 + c / 16 % 16) * 16 + c % 16
  {
    DigitSpelled(c / 4096);
    DigitSpelled(c / 256 % 16);
    DigitSpelled(c / 16 % 16);
    DigitSpelled(c % 16);
    HexPlaces(c);
  }

  lemma DigitSpelled(d: int)
    requires 0 <= d < 16
    ensures HexChar(d) == LowerDigits()[d]
  {
    var digits := "0123456789abcdef";
    assert digits[d] as int == HexChar(d);
  }

  /** The escape of every code point: the seven short ones, six characters for any other
      control character and for a surrogate, and every other code point itself. */
  lemma EscapesSpelled(c: CodePoint)
    ensures EscapeCode('"' as int) == Name("\\\"") && EscapeCode('\\' as int) == Name("\\\\")
    ensures EscapeCode(8) == Name("\\b") && EscapeCode(12) == Name("\\f") && EscapeCode(10) == Name("\\n")
    ensures EscapeCode(13) == Name("\\r") && EscapeCode(9) == Name("\\t")
    ensures c !in {8, 9, 10, 12, 13, '"' as int, '\\' as int} ==>
              EscapeCode(c) == if c < 32 || 0xD800 <= c < 0xE000 then UnicodeEscape(c) else [c]
  {}

  function EsBody(s: Str): Str {
    if s == [] then [] else EscapeCode(s[0]) + EsBody(s[1..])
  }

  /** `_es_string`. */
  function EsString(s: Str): Str {
    [QUOTE] + EsBody(s) + [QUOTE]
  }

  predicate PlainText(s: Str) {
    forall i :: 0 <= i < |s| ==> s[i] >= 0x20 && s[i] != QUOTE && s[i] != BACKSLASH && !IsSurrogate(s[i])
  }

  /** A text of plain characters is printed as it is. */
  lemma {:induction false} EsBodyPlain(s: Str)
    requires PlainText(s)
    ensures EsBody(s) == s
  {
    if s != [] {
      EsBodyPlain(s[1..]);
      assert s == [s[0]] + s[1..];
    }
  }

  lemma {:induction false} EsBodyConcat(a: Str, b: Str)
    ensures EsBody(a + b) == EsBody(a) + EsBody(b)
  {
    if a == [] {
      assert a + b == b;
    } else {
      EsBodyConcat(a[1..], b);
      var s := a + b;
      assert s[0] == a[0];
      assert s[1..] == a[1..] + b;
      Assoc(EscapeCode(a[0]), EsBody(a[1..]), EsBody(b));
    }
  }

  /** The loop of `_es_string`: append pieces, then join them. */
  method EsStringLoop(value: Str) returns (text: Str)
    ensures text == EsString(value)
  {
    var out: Str := [QUOTE];
    for i := 0 to |value|
      invariant out == [QUOTE] + EsBody(value[..i])
    {
      var ch := value[i];
      EsBodyConcat(value[..i], [ch]);
      assert value[..i + 1] == value[..i] + [ch];
      assert [ch][1..] == [];
      Assoc([QUOTE], EsBody(value[..i]), EscapeCode(ch));
      assert EsBody([ch]) == EscapeCode(ch) + [];
      if ShortEscape(ch) != 0 {
        out := out + [BACKSLASH, ShortEscape(ch)];
      } else if ch < 0x20 || 0xD800 <= ch <= 0xDFFF {
        out := out + UnicodeEscape(ch);
      } else {
        out := out + [ch];
      }
    }
    assert value[..|value|] == value;
    text := out + [QUOTE];
  }

  /** The text has no surrogate, so UTF-8 can always encode it. */
  lemma {:induction false} EsBodyEncodable(s: Str)
    ensures forall i :: 0 <= i < |EsBody(s)| ==> !IsSurrogate(EsBody(s)[i])
  {
    if s != [] {
      EsBodyEncodable(s[1..]);
    }
  }

  // ---------------------------------------------------------------------------
  // Reading a JSON string back, escape by escape

  datatype Parsed<+T> = Failed | Parsed(value: T, rest: Str)

  /** A hexadecimal digit's value, or 16. */
  function HexValue(c: CodePoint): int {
    if 0x30 <= c <= 0x39 then c - 0x30
    else if 0x61 <= c <= 0x66 then c - 0x57
    else if 0x41 <= c <= 0x46 then c - 0x37
    else 16
  }

  function ReadUnicodeEscape(t: Str): (r: Parsed<CodePoint>)
    requires |t| >= 2
    ensures r.Parsed? ==> |r.rest| < |t|
  {
    if |t| < 6 || exists i :: 2 <= i < 6 && HexValue(t[i]) == 16 then Failed
    else
      assert forall i :: 2 <= i < 6 ==> HexValue(t[i]) < 16;
      Parsed(HexValue(t[2]) * 0x1000 + HexValue(t[3]) * 0x100 + HexValue(t[4]) * 0x10 + HexValue(t[5]), t[6..])
  }

  function ReadCode(t: Str): (r: Parsed<CodePoint>)
    requires t != []
    ensures r.Parsed? ==> |r.rest| < |t|
  {
    if t[0] != BACKSLASH then Parsed(t[0], t[1..])
    else if |t| < 2 then Failed
    else if t[1] in {QUOTE, BACKSLASH} then Parsed(t[1], t[2..])
    else if t[1] == LETTER_B then Parsed(0x08, t[2..])
    else if t[1] == LETTER_F then Parsed(0x0C, t[2..])
    else if t[1] == LETTER_N then Parsed(0x0A, t[2..])
    else if t[1] == LETTER_R then Parsed(0x0D, t[2..])
    else if t[1] == LETTER_T then Parsed(0x09, t[2..])
    else if t[1] == LETTER_U then ReadUnicodeEscape(t)
    else Failed
  }

  /** Reads up to and including the closing quote. */
  function ReadBody(t: Str): (r: Parsed<Str>)
    ensures r.Parsed? ==> |r.rest| < |t|
    decreases |t|
  {
    if t == [] then Failed
    else if t[0] == QUOTE then Parsed([], t[1..])
    else
      match ReadCode(t)
      case Failed => Failed
      case Parsed(c, rest) =>
        match ReadBody(rest)
        case Failed => Failed
        case Parsed(s, after) => Parsed([c] + s, after)
  }

  lemma HexRoundTrip(d: int)
    requires 0 <= d < 16
    ensures HexValue(HexChar(d)) == d
  {}

  lemma HexPlaces(c: Unit)
    ensures c == c / 0x1000 * 0x1000 + c / 0x100 % 0x10 * 0x100 + c / 0x10 % 0x10 * 0x10 + c % 0x10
  {
    assert c / 0x100 / 0x10 == c / 0x1000;
    assert c / 0x10 / 0x10 == c / 0x100;
  }

  lemma ReadBackUnicode(c: Unit, after: Str)
    ensures ReadUnicodeEscape(UnicodeEscape(c) + after) == Parsed(c, after)
  {
    var t := UnicodeEscape(c) + after;
    HexPlaces(c);
    HexRoundTrip(c / 0x1000);
    HexRoundTrip(c / 0x100 % 0x10);
    HexRoundTrip(c / 0x10 % 0x10);
    HexRoundTrip(c % 0x10);
    var e := UnicodeEscape(c);
    assert t[2] == e[2] && t[3] == e[3] && t[4] == e[4] && t[5] == e[5];
    assert t[6..] == after;
  }

  lemma ReadBackCode(c: CodePoint, after: Str)
    ensures ReadCode(EscapeCode(c) + after) == Parsed(c, after)
  {
    var t := EscapeCode(c) + after;
    if ShortEscape(c) != 0 {
      assert t[0] == BACKSLASH && t[1] == ShortEscape(c);
      assert t[2..] == after;
    } else if c < 0x20 || IsSurrogate(c) {
      ReadBackUnicode(c, after);
      assert t[0] == BACKSLASH && t[1] == LETTER_U;
    } else {
      assert t[0] == c;
      assert t[1..] == after;
    }
  }

  /** Reading undoes printing, for every string of code points. */
  lemma {:induction false} ReadBackBody(s: Str, after: Str)
    ensures ReadBody(EsBody(s) + ([QUOTE] + after)) == Parsed(s, after)
  {
    var t := EsBody(s) + ([QUOTE] + after);
    if s == [] {
      assert t == [QUOTE] + after;
      assert t[1..] == after;
    } else {
      var more := EsBody(s[1..]) + ([QUOTE] + after);
      Assoc(EscapeCode(s[0]), EsBody(s[1..]), [QUOTE] + after);
      ReadBackCode(s[0], more);
      ReadBackBody(s[1..], after);
      assert t[0] == EscapeCode(s[0])[0];
      assert s == [s[0]] + s[1..];
    }
  }

  /** Printed strings are prefix-free: what follows cannot change the string. */
  lemma EsStringPrefixFree(a: Str, b: Str, afterA: Str, afterB: Str)
    requires EsString(a) + afterA == EsString(b) + afterB
    ensures a == b && afterA == afterB
  {
    EsStringSplit(a, afterA);
    EsStringSplit(b, afterB);
    ReadBackBody(a, afterA);
    ReadBackBody(b, afterB);
  }

  lemma EsStringSplit(s: Str, after: Str)
    ensures (EsString(s) + after)[0] == QUOTE
    ensures (EsString(s) + after)[1..] == EsBody(s) + ([QUOTE] + after)
  {
    assert EsString(s) + after == [QUOTE] + (EsBody(s) + ([QUOTE] + after));
  }

  // ---------------------------------------------------------------------------
  // ECMA-262, section 25.5.2.3, QuoteJSONString, on UTF-16 units

  function JsEscapeUnit(u: Unit): seq<Unit> {
    if ShortEscape(u) != 0 then [BACKSLASH, ShortEscape(u)]
    else if u < 0x20 || IsSurrogate(u) then UnicodeEscape(u)
    else [u]
  }

  /** A surrogate pair is one code point and is copied; anything else is one unit. */
  function JsBody(u: seq<Unit>): seq<Unit> {
    if u == [] then []
    else if StartsWithPair(u) then u[..2] + JsBody(u[2..])
    else JsEscapeUnit(u[0]) + JsBody(u[1..])
  }

  /** `JSON.stringify` of a string. */
  function JsQuote(u: seq<Unit>): seq<Unit> {
    [QUOTE] + JsBody(u) + [QUOTE]
  }

  lemma EscapeBasic(c: Unit)
    ensures EscapeCode(c) == JsEscapeUnit(c) && Encode(JsEscapeUnit(c)) == JsEscapeUnit(c)
  {
    EncodeBasic(JsEscapeUnit(c));
  }

  lemma EncodeOne(c: CodePoint)
    ensures Encode([c]) == EncodeCode(c)
  {
    assert [c][1..] == [];
  }

  /** The two escapers agree on every string without a split surrogate pair. */
  lemma {:induction false} BodiesAgree(s: Str)
    requires NoSplitPair(s)
    ensures JsBody(Encode(s)) == Encode(EsBody(s))
  {
    if s != [] {
      BodiesAgree(s[1..]);
      var rest, u := Encode(s[1..]), Encode(s);
      EncodeConcat(EscapeCode(s[0]), EsBody(s[1..]));
      if s[0] >= 0x1_0000 {
        EncodeOne(s[0]);
        assert u[..2] == EncodeCode(s[0]) && u[2..] == rest;
      } else {
        EscapeBasic(s[0]);
        assert u[0] == s[0] && u[1..] == rest;
        if |s| > 1 {
          assert rest[0] == EncodeCode(s[1])[0];
        }
      }
    }
  }

  lemma StringsAgree(s: Str)
    requires NoSplitPair(s)
    ensures JsQuote(Encode(s)) == Encode(EsString(s))
  {
    BodiesAgree(s);
    EncodeConcat([QUOTE] + EsBody(s), [QUOTE]);
    EncodeConcat([QUOTE], EsBody(s));
    EncodeBasic([QUOTE]);
  }

  /** JavaScript quoting is the node's quoting of the decoded string. */
  lemma JsQuoteIsDecoded(u: seq<Unit>)
    ensures JsQuote(u) == Encode(EsString(Decode(u)))
  {
    EncodeDecode(u);
    StringsAgree(Decode(u));
  }

  lemma {:induction false} EncodeInjective(a: Str, b: Str)
    requires NoSplitPair(a) && NoSplitPair(b) && Encode(a) == Encode(b)
    ensures a == b
  {
    DecodeEncode(a);
    DecodeEncode(b);
  }

  /** The two sides print a string alike exactly when it holds no split pair: the node
      escapes both halves of one, JavaScript copies them. */
  lemma StringsAgreeExactly(s: Str)
    ensures JsQuote(Encode(s)) == Encode(EsString(s)) <==> NoSplitPair(s)
  {
    if NoSplitPair(s) {
      StringsAgree(s);
    }
    JsQuoteIsDecoded(Encode(s));
    if JsQuote(Encode(s)) == Encode(EsString(s)) {
      EsStringNoSplit(s);
      EsStringNoSplit(Decode(Encode(s)));
      EncodeInjective(EsString(s), EsString(Decode(Encode(s))));
      assert EsString(s) + [] == EsString(s) && EsString(Decode(Encode(s))) + [] == EsString(Decode(Encode(s)));
      EsStringPrefixFree(s, Decode(Encode(s)), [], []);
      DecodeEncode(s);
    }
  }

  lemma EsStringNoSplit(s: Str)
    ensures NoSplitPair(EsString(s))
  {
    EsBodyEncodable(s);
  }
}
