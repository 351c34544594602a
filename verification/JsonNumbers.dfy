/** Number text of the canonical form (`_es_number`, `str(int)`) and the reader
    that undoes it. A float is its shortest decimal, as `Decimal(repr(x))` gives it. */
module JsonNumbers {
  import opened Text

  type Digit = d: int | 0 <= d <= 9
  type Digits = seq<Digit>

  const ZERO_CHAR: Unit := 0x30
  const MINUS: Unit := 0x2D
  const PLUS: Unit := 0x2B
  const POINT: Unit := 0x2E
  const LETTER_E: Unit := 0x65
  const NULL_TEXT: seq<Unit> := [0x6E, 0x75, 0x6C, 0x6C]

  lemma NumberTextsSpelled()
    ensures Name("0") == [ZERO_CHAR] && Name("-") == [MINUS] && Name("+") == [PLUS] && Name(".") == [POINT]
    ensures Name("e") == [LETTER_E] && Name("null") == NULL_TEXT
  {}

  function DigitText(ds: Digits): (r: seq<Unit>)
    ensures |r| == |ds|
    ensures forall i :: 0 <= i < |ds| ==> r[i] == ZERO_CHAR + ds[i]
  {
    seq(|ds|, i requires 0 <= i < |ds| => ZERO_CHAR + ds[i])
  }

  function Zeros(n: nat): (r: Digits)
    ensures |r| == n
    ensures forall i :: 0 <= i < n ==> r[i] == 0
  {
    seq(n, _ => 0)
  }

  // ---------------------------------------------------------------------------
  // Decimal values and their normal form

  /** `-1^negative * digits * 10^exponent`, with no outer zeros; zero is unsigned. */
  datatype Decimal = Decimal(negative: bool, digits: Digits, exponent: int)

  predicate Normalized(d: Decimal) {
    if d.digits == [] then !d.negative && d.exponent == 0
    else d.digits[0] != 0 && d.digits[|d.digits| - 1] != 0
  }

  type Num = d: Decimal | Normalized(d) witness Decimal(false, [], 0)

  function DropLeadingZeros(ds: Digits): (r: Digits)
    ensures r == [] || r[0] != 0
    ensures r != [] ==> ds != [] && r[|r| - 1] == ds[|ds| - 1]
  {
    if ds != [] && ds[0] == 0 then DropLeadingZeros(ds[1..]) else ds
  }

  /** `digits.rstrip("0")`. */
  function DropTrailingZeros(ds: Digits): (r: Digits)
    ensures r == [] || (ds != [] && r[0] == ds[0] && r[|r| - 1] != 0)
    ensures ds != [] && ds[0] != 0 ==> r != []
    ensures |r| <= |ds|
  {
    if ds != [] && ds[|ds| - 1] == 0 then DropTrailingZeros(ds[..|ds| - 1]) else ds
  }

  lemma {:induction false} TrailingZerosRestored(ds: Digits)
    ensures ds == DropTrailingZeros(ds) + Zeros(|ds| - |DropTrailingZeros(ds)|)
  {
    if ds != [] && ds[|ds| - 1] == 0 {
      TrailingZerosRestored(ds[..|ds| - 1]);
      assert ds == ds[..|ds| - 1] + [0];
    }
  }

  function Normalize(negative: bool, ds: Digits, exponent: int): Num {
    var lead := DropLeadingZeros(ds);
    var core := DropTrailingZeros(lead);
    if core == [] then Decimal(false, [], 0)
    else Decimal(negative, core, exponent + |lead| - |core|)
  }

  lemma {:induction false} LeadingZerosDropped(n: nat, ds: Digits)
    requires ds == [] || ds[0] != 0
    ensures DropLeadingZeros(Zeros(n) + ds) == ds
  {
    if n > 0 {
      assert (Zeros(n) + ds)[1..] == Zeros(n - 1) + ds;
      LeadingZerosDropped(n - 1, ds);
    } else {
      assert Zeros(0) + ds == ds;
    }
  }

  lemma {:induction false} TrailingZerosDropped(ds: Digits, n: nat)
    requires ds == [] || ds[|ds| - 1] != 0
    ensures DropTrailingZeros(ds + Zeros(n)) == ds
  {
    if n > 0 {
      assert (ds + Zeros(n))[..|ds| + n - 1] == ds + Zeros(n - 1);
      TrailingZerosDropped(ds, n - 1);
    } else {
      assert ds + Zeros(0) == ds;
    }
  }

  /** Padding a digit string with zeros on either side names the same decimal. */
  lemma NormalizePadded(negative: bool, left: nat, ds: Digits, right: nat, exponent: int)
    requires ds != [] && ds[0] != 0 && ds[|ds| - 1] != 0
    ensures Normalize(negative, Zeros(left) + ds + Zeros(right), exponent) == Decimal(negative, ds, exponent + right)
  {
    Assoc(Zeros(left), ds, Zeros(right));
    LeadingZerosDropped(left, ds + Zeros(right));
    TrailingZerosDropped(ds, right);
  }

  // ---------------------------------------------------------------------------
  // The number denoted

  function FromDigits(ds: Digits): nat {
    if ds == [] then 0 else 10 * FromDigits(ds[..|ds| - 1]) + ds[|ds| - 1]
  }

  function PowerOfTen(e: int): real
    decreases if e < 0 then -e else e
  {
    if e == 0 then 1.0
    else if e > 0 then 10.0 * PowerOfTen(e - 1)
    else PowerOfTen(e + 1) / 10.0
  }

  function Scaled(n: nat, exponent: int): real {
    n as real * PowerOfTen(exponent)
  }

  function Magnitude(ds: Digits, exponent: int): real {
    Scaled(FromDigits(ds), exponent)
  }

  /** The real number a digit string and exponent denote. */
  function Denoted(negative: bool, ds: Digits, exponent: int): real {
    if negative then -Magnitude(ds, exponent) else Magnitude(ds, exponent)
  }

  lemma {:induction false} LeadingZeroWorthless(ds: Digits)
    ensures FromDigits(DropLeadingZeros(ds)) == FromDigits(ds)
    decreases |ds|
  {
    if ds != [] && ds[0] == 0 {
      LeadingZeroWorthless(ds[1..]);
      PrependZero(ds[1..]);
      assert ds == [0] + ds[1..];
    }
  }

  lemma {:induction false} PrependZero(ds: Digits)
    ensures FromDigits([0] + ds) == FromDigits(ds)
  {
    if ds != [] {
      assert ([0] + ds)[..|ds|] == [0] + ds[..|ds| - 1];
      PrependZero(ds[..|ds| - 1]);
    }
  }

  lemma LeadingZerosKeepMagnitude(ds: Digits, exponent: int)
    ensures Magnitude(DropLeadingZeros(ds), exponent) == Magnitude(ds, exponent)
  {
    LeadingZeroWorthless(ds);
  }

  /** A trailing zero is worth one power of ten. */
  lemma AppendedZero(front: Digits, exponent: int)
    ensures Magnitude(front + [0], exponent) == Magnitude(front, exponent + 1)
  {
    assert (front + [0])[..|front|] == front;
    var n, p := FromDigits(front) as real, PowerOfTen(exponent);
    assert PowerOfTen(exponent + 1) == 10.0 * p;
    assert 10.0 * n * p == n * (10.0 * p);
  }

  lemma {:induction false} TrailingZeroWorth(ds: Digits, exponent: int)
    ensures Magnitude(ds, exponent) == Magnitude(DropTrailingZeros(ds), exponent + |ds| - |DropTrailingZeros(ds)|)
  {
    if ds != [] && ds[|ds| - 1] == 0 {
      var front := ds[..|ds| - 1];
      assert ds == front + [0];
      AppendedZero(front, exponent);
      TrailingZeroWorth(front, exponent + 1);
    }
  }

  /** Normalizing never changes the number denoted. */
  lemma NormalizeKeepsNumber(negative: bool, ds: Digits, exponent: int)
    ensures var d := Normalize(negative, ds, exponent);
            Denoted(d.negative, d.digits, d.exponent) == Denoted(negative, ds, exponent)
  {
    var lead := DropLeadingZeros(ds);
    var core := DropTrailingZeros(lead);
    var shifted := exponent + |lead| - |core|;
    LeadingZerosKeepMagnitude(ds, exponent);
    TrailingZeroWorth(lead, exponent);
    SameMagnitude(negative, ds, exponent, core, shifted);
    if core == [] {
      NoDigitsNothing(shifted);
      NoDigitsNothing(0);
    }
  }

  lemma SameMagnitude(negative: bool, a: Digits, ea: int, b: Digits, eb: int)
    requires Magnitude(a, ea) == Magnitude(b, eb)
    ensures Denoted(negative, a, ea) == Denoted(negative, b, eb)
  {}

  lemma NoDigitsNothing(exponent: int)
    ensures Magnitude([], exponent) == 0.0
    ensures Denoted(false, [], exponent) == Denoted(true, [], exponent) == 0.0
  {}

  // ---------------------------------------------------------------------------
  // Integers

  function DigitsOf(n: nat): (r: Digits)
    ensures r != [] && (n > 0 ==> r[0] != 0)
  {
    if n < 10 then [n] else DigitsOf(n / 10) + [n % 10]
  }

  lemma {:induction false} FromDigitsOf(n: nat)
    ensures FromDigits(DigitsOf(n)) == n
  {
    if n >= 10 {
      FromDigitsOf(n / 10);
      assert DigitsOf(n)[..|DigitsOf(n)| - 1] == DigitsOf(n / 10);
    } else {
      assert DigitsOf(n)[..0] == [];
    }
  }

  lemma {:induction false} DigitsOfFrom(ds: Digits)
    requires ds != [] && ds[0] != 0
    ensures FromDigits(ds) > 0 && DigitsOf(FromDigits(ds)) == ds
  {
    var front, last := ds[..|ds| - 1], ds[|ds| - 1];
    assert ds == front + [last];
    if front == [] {
      assert FromDigits(front) == 0;
    } else {
      DigitsOfFrom(front);
      assert FromDigits(ds) == 10 * FromDigits(front) + last;
    }
  }

  function Abs(i: int): nat { if i < 0 then -i else i }

  function Signed(negative: bool, body: seq<Unit>): seq<Unit> {
    if negative then [MINUS] + body else body
  }

  /** `str(int)`. */
  function IntText(i: int): seq<Unit> {
    Signed(i < 0, DigitText(DigitsOf(Abs(i))))
  }

  function IntNum(i: int): Num {
    Normalize(i < 0, DigitsOf(Abs(i)), 0)
  }

  // ---------------------------------------------------------------------------
  // Floats

  datatype Float =
    | NonFinite
    | Zero(negative: bool)
    | Finite(negative: bool, digits: Digits, exponent: int) // Decimal(repr(x)).as_tuple()

  predicate ValidFloat(f: Float) {
    f.Finite? ==> f.digits != [] && f.digits[0] != 0
  }

  type ValidFloats = f: Float | ValidFloat(f) witness NonFinite

  /** The body `_es_number` lays out: `n` is the decimal point's place. */
  function Layout(digits: Digits, n: int): seq<Unit>
    requires digits != []
  {
    var k := |digits|;
    if k <= n <= 21 then DigitText(digits + Zeros(n - k))
    else if 0 < n <= 21 then DigitText(digits[..n]) + [POINT] + DigitText(digits[n..])
    else if -6 < n <= 0 then [ZERO_CHAR, POINT] + DigitText(Zeros(-n) + digits)
    else
      var tail := if k > 1 then [POINT] + DigitText(digits[1..]) else [];
      [ZERO_CHAR + digits[0]] + tail + [LETTER_E, if n > 0 then PLUS else MINUS] + DigitText(DigitsOf(Abs(n - 1)))
  }

  /** `_es_number`. */
  function EsNumberText(f: ValidFloats): seq<Unit> {
    match f
    case NonFinite => NULL_TEXT
    case Zero(_) => [ZERO_CHAR]
    case Finite(negative, raw, exponent) => Signed(negative, Layout(DropTrailingZeros(raw), |raw| + exponent))
  }

  function FloatNum(f: ValidFloats): Num
    requires !f.NonFinite?
  {
    match f
    case Zero(_) => Decimal(false, [], 0)
    case Finite(negative, raw, exponent) => Normalize(negative, raw, exponent)
  }

  /** Whether the point's place makes `_es_number` use exponent notation. */
  predicate Scientific(d: Num) {
    d.digits != [] && !(-6 < |d.digits| + d.exponent <= 21)
  }

  // ---------------------------------------------------------------------------
  // A printed number is its value and its notation

  /** A number token: a decimal and whether it is written with an exponent. */
  datatype Token = Token(num: Num, scientific: bool)

  predicate ValidToken(t: Token) {
    t.num.digits == [] ==> !t.scientific
  }

  type Numeral = t: Token | ValidToken(t) witness Token(Decimal(false, [], 0), false)

  datatype Exponent = NoExponent | Power(value: int)

  /** A numeral in pieces: integer digits, digits after the point, exponent. */
  datatype Parts = Parts(whole: Digits, fraction: Digits, exponent: Exponent)

  function FractionText(fraction: Digits): seq<Unit> {
    if fraction == [] then [] else [POINT] + DigitText(fraction)
  }

  function ExponentText(e: Exponent): seq<Unit> {
    match e
    case NoExponent => []
    case Power(value) => [LETTER_E, if value >= 0 then PLUS else MINUS] + DigitText(DigitsOf(Abs(value)))
  }

  function PartsText(p: Parts): seq<Unit> {
    DigitText(p.whole) + (FractionText(p.fraction) + ExponentText(p.exponent))
  }

  /** The decimal the pieces denote. */
  function PartsValue(negative: bool, p: Parts): Numeral {
    var power := if p.exponent.Power? then p.exponent.value else 0;
    var num := Normalize(negative, p.whole + p.fraction, power - |p.fraction|);
    Token(num, p.exponent.Power? && num.digits != [])
  }

  function PlainParts(ds: Digits, n: int): Parts {
    if |ds| <= n then Parts(ds + Zeros(n - |ds|), [], NoExponent)
    else if 0 < n then Parts(ds[..n], ds[n..], NoExponent)
    else Parts([0], Zeros(-n) + ds, NoExponent)
  }

  function ScientificParts(ds: Digits, n: int): Parts
    requires ds != []
  {
    Parts(ds[..1], ds[1..], Power(n - 1))
  }

  function NumeralParts(t: Numeral): Parts {
    var ds := t.num.digits;
    var n := |ds| + t.num.exponent;
    if ds == [] then Parts([0], [], NoExponent)
    else if t.scientific then ScientificParts(ds, n)
    else PlainParts(ds, n)
  }

  function NumeralText(t: Numeral): seq<Unit> {
    Signed(t.num.negative, PartsText(NumeralParts(t)))
  }

  function FloatNumeral(f: ValidFloats): Numeral
    requires !f.NonFinite?
  {
    Token(FloatNum(f), Scientific(FloatNum(f)))
  }

  function IntNumeral(i: int): Numeral {
    Token(IntNum(i), false)
  }

  lemma NormalizeRaw(negative: bool, raw: Digits, exponent: int)
    requires raw != [] && raw[0] != 0
    ensures var d := DropTrailingZeros(raw);
            d != [] && Normalize(negative, raw, exponent) == Decimal(negative, d, exponent + |raw| - |d|)
  {
  }

  lemma WholeParts(ds: Digits)
    ensures PartsText(Parts(ds, [], NoExponent)) == DigitText(ds)
  {}

  lemma PointedParts(whole: Digits, fraction: Digits)
    requires fraction != []
    ensures PartsText(Parts(whole, fraction, NoExponent)) == DigitText(whole) + [POINT] + DigitText(fraction)
  {
    Assoc(DigitText(whole), [POINT], DigitText(fraction));
    assert FractionText(fraction) + [] == FractionText(fraction);
  }

  lemma LayoutScientific(digits: Digits, n: int)
    requires digits != [] && !(-6 < n <= 21)
    ensures Layout(digits, n) == PartsText(ScientificParts(digits, n))
  {
    var front, back := DigitText(digits[..1]), FractionText(digits[1..]);
    var sign := [LETTER_E, if n > 0 then PLUS else MINUS];
    var power := DigitText(DigitsOf(Abs(n - 1)));
    assert front == [ZERO_CHAR + digits[0]];
    Assoc(front + back, sign, power);
    Assoc(front, back, sign + power);
    assert ExponentText(Power(n - 1)) == sign + power;
    assert Layout(digits, n) == front + back + sign + power;
  }

  /** The pieces of the layout with the point after `n` digits. */
  function PartsAt(digits: Digits, n: int): Parts
    requires digits != []
  {
    if -6 < n <= 21 then PlainParts(digits, n) else ScientificParts(digits, n)
  }

  lemma LayoutPlain(digits: Digits, n: int)
    requires digits != [] && -6 < n <= 21
    ensures Layout(digits, n) == PartsText(PlainParts(digits, n))
  {
    if |digits| <= n {
      WholeParts(digits + Zeros(n - |digits|));
    } else if 0 < n {
      PointedParts(digits[..n], digits[n..]);
    } else {
      PointedParts([0], Zeros(-n) + digits);
      assert DigitText([0]) + [POINT] == [ZERO_CHAR, POINT];
    }
  }

  /** The four layouts are pieces written out. */
  lemma LayoutIsParts(digits: Digits, n: int)
    requires digits != []
    ensures Layout(digits, n) == PartsText(PartsAt(digits, n))
  {
    if -6 < n <= 21 {
      LayoutPlain(digits, n);
    } else {
      LayoutScientific(digits, n);
    }
  }

  lemma ZeroParts()
    ensures PartsText(Parts([0], [], NoExponent)) == [ZERO_CHAR]
  {}

  /** A finite float's normal form, and where its point stands. */
  lemma FiniteNum(f: ValidFloats)
    requires f.Finite?
    ensures var d := FloatNum(f);
            && d.digits == DropTrailingZeros(f.digits) && d.digits != [] && d.negative == f.negative
            && |d.digits| + d.exponent == |f.digits| + f.exponent
  {
    NormalizeRaw(f.negative, f.digits, f.exponent);
  }

  lemma NumeralIsParts(d: Num)
    requires d.digits != []
    ensures NumeralParts(Token(d, Scientific(d))) == PartsAt(d.digits, |d.digits| + d.exponent)
  {}

  lemma NumeralLayout(d: Num, n: int)
    requires d.digits != [] && n == |d.digits| + d.exponent
    ensures NumeralText(Token(d, Scientific(d))) == Signed(d.negative, Layout(d.digits, n))
  {
    NumeralIsParts(d);
    LayoutIsParts(d.digits, n);
  }

  lemma FiniteIsNumeral(f: ValidFloats, d: Num)
    requires f.Finite? && d == FloatNum(f)
    ensures EsNumberText(f) == NumeralText(Token(d, Scientific(d)))
  {
    FiniteNum(f);
    NumeralLayout(d, |f.digits| + f.exponent);
  }

  /** `_es_number` prints a float's value in the notation its magnitude calls for. */
  lemma EsNumberIsNumeral(f: ValidFloats)
    requires !f.NonFinite?
    ensures EsNumberText(f) == NumeralText(FloatNumeral(f))
  {
    if f.Finite? {
      FiniteIsNumeral(f, FloatNum(f));
    } else {
      ZeroParts();
    }
  }

  lemma PlainWhole(ds: Digits)
    ensures PlainParts(DropTrailingZeros(ds), |ds|) == Parts(ds, [], NoExponent)
  {
    TrailingZerosRestored(ds);
  }

  lemma IntParts(i: int)
    ensures NumeralParts(IntNumeral(i)) == Parts(DigitsOf(Abs(i)), [], NoExponent)
    ensures IntNum(i).negative == (i < 0)
  {
    var ds := DigitsOf(Abs(i));
    if i == 0 {
      assert ds == [0];
      assert DropLeadingZeros(ds) == [];
    } else {
      NormalizeRaw(i < 0, ds, 0);
      PlainWhole(ds);
    }
  }

  /** `str(int)` is the plain notation of the integer. */
  lemma IntTextIsNumeral(i: int)
    ensures IntText(i) == NumeralText(IntNumeral(i))
  {
    IntParts(i);
    WholeParts(DigitsOf(Abs(i)));
  }

  // ---------------------------------------------------------------------------
  // Reading a numeral back

  predicate IsDigitChar(c: CodePoint) { 0x30 <= c <= 0x39 }

  function LeadingDigits(s: Str): (r: Digits)
    ensures |r| <= |s|
  {
    if s != [] && IsDigitChar(s[0]) then [s[0] - ZERO_CHAR] + LeadingDigits(s[1..]) else []
  }

  lemma {:induction false} LeadingDigitsOfText(ds: Digits, rest: Str)
    requires rest == [] || !IsDigitChar(rest[0])
    ensures LeadingDigits(DigitText(ds) + rest) == ds
  {
    var s := DigitText(ds) + rest;
    if ds == [] {
      assert s == rest;
    } else {
      assert s[1..] == DigitText(ds[1..]) + rest;
      LeadingDigitsOfText(ds[1..], rest);
    }
  }

  function ReadExponent(s: Str): Exponent {
    if |s| >= 2 && s[0] == LETTER_E then
      var magnitude: int := FromDigits(LeadingDigits(s[2..]));
      Power(if s[1] == MINUS then -magnitude else magnitude)
    else NoExponent
  }

  function ReadFraction(s: Str): (r: Digits)
    ensures s == [] ==> r == []
    ensures |r| < |s| || r == []
  {
    if s != [] && s[0] == POINT then LeadingDigits(s[1..]) else []
  }

  function AfterFraction(s: Str): Str {
    var fraction := ReadFraction(s);
    if fraction == [] then s else s[1 + |fraction|..]
  }

  function ReadParts(s: Str): Parts {
    var whole := LeadingDigits(s);
    var rest := s[|whole|..];
    Parts(whole, ReadFraction(rest), ReadExponent(AfterFraction(rest)))
  }

  function ReadNumeral(s: Str): Numeral {
    if s != [] && s[0] == MINUS then PartsValue(true, ReadParts(s[1..])) else PartsValue(false, ReadParts(s))
  }

  lemma ReadExponentText(e: Exponent)
    ensures ReadExponent(ExponentText(e)) == e
  {
    if e.Power? {
      var ds := DigitsOf(Abs(e.value));
      assert ExponentText(e)[2..] == DigitText(ds) + [];
      LeadingDigitsOfText(ds, []);
      FromDigitsOf(Abs(e.value));
    }
  }

  lemma ReadWholeText(whole: Digits, rest: Str)
    requires rest == [] || !IsDigitChar(rest[0])
    ensures var text := DigitText(whole) + rest;
            LeadingDigits(text) == whole && text[|whole|..] == rest
  {
    LeadingDigitsOfText(whole, rest);
  }

  lemma ReadFractionText(fraction: Digits, power: Str)
    requires power == [] || power[0] == LETTER_E
    ensures ReadFraction(FractionText(fraction) + power) == fraction
    ensures AfterFraction(FractionText(fraction) + power) == power
  {
    if fraction != [] {
      var digits: Str := DigitText(fraction) + power;
      var point: Str := [POINT];
      Assoc(point, DigitText(fraction), power);
      ReadWholeText(fraction, power);
      ReadPointed(fraction, digits);
      assert FractionText(fraction) + power == point + digits;
    } else {
      assert FractionText(fraction) + power == power;
    }
  }

  lemma ReadPointed(fraction: Digits, digits: Str)
    requires fraction != [] && LeadingDigits(digits) == fraction
    ensures var text := [POINT] + digits;
            ReadFraction(text) == fraction && AfterFraction(text) == digits[|fraction|..]
  {
    assert ([POINT] + digits)[1..] == digits;
  }

  lemma ReadPartsText(p: Parts)
    ensures ReadParts(PartsText(p)) == p
  {
    var power := ExponentText(p.exponent);
    ReadWholeText(p.whole, FractionText(p.fraction) + power);
    ReadFractionText(p.fraction, power);
    ReadExponentText(p.exponent);
  }

  lemma NumeralStart(t: Numeral)
    ensures NumeralText(t) != []
    ensures NumeralText(t)[0] == MINUS <==> t.num.negative
    ensures NumeralText(t)[0] == MINUS || IsDigitChar(NumeralText(t)[0])
  {
    assert NumeralParts(t).whole != [];
  }

  lemma PaddedValue(negative: bool, p: Parts, left: nat, ds: Digits, right: nat)
    requires ds != [] && ds[0] != 0 && ds[|ds| - 1] != 0
    requires p.whole + p.fraction == Zeros(left) + ds + Zeros(right)
    ensures var power := if p.exponent.Power? then p.exponent.value else 0;
            PartsValue(negative, p) == Token(Decimal(negative, ds, power - |p.fraction| + right), p.exponent.Power?)
  {
    NormalizePadded(negative, left, ds, right, (if p.exponent.Power? then p.exponent.value else 0) - |p.fraction|);
  }

  lemma WholePartsValue(negative: bool, ds: Digits, n: int)
    requires ds != [] && ds[0] != 0 && ds[|ds| - 1] != 0 && |ds| <= n
    ensures PartsValue(negative, PlainParts(ds, n)) == Token(Decimal(negative, ds, n - |ds|), false)
  {
    var whole := ds + Zeros(n - |ds|);
    assert whole + [] == Zeros(0) + ds + Zeros(n - |ds|);
    PaddedValue(negative, Parts(whole, [], NoExponent), 0, ds, n - |ds|);
  }

  lemma SmallPartsValue(negative: bool, ds: Digits, n: int)
    requires ds != [] && ds[0] != 0 && ds[|ds| - 1] != 0 && n <= 0
    ensures PartsValue(negative, PlainParts(ds, n)) == Token(Decimal(negative, ds, n - |ds|), false)
  {
    var fraction := Zeros(-n) + ds;
    assert [0] + fraction == Zeros(1 - n) + ds + Zeros(0);
    PaddedValue(negative, Parts([0], fraction, NoExponent), 1 - n, ds, 0);
  }

  lemma PlainPartsValue(negative: bool, ds: Digits, n: int)
    requires ds != [] && ds[0] != 0 && ds[|ds| - 1] != 0
    ensures PartsValue(negative, PlainParts(ds, n)) == Token(Decimal(negative, ds, n - |ds|), false)
  {
    if |ds| <= n {
      WholePartsValue(negative, ds, n);
    } else if n <= 0 {
      SmallPartsValue(negative, ds, n);
    } else {
      assert ds[..n] + ds[n..] == Zeros(0) + ds + Zeros(0);
      PaddedValue(negative, Parts(ds[..n], ds[n..], NoExponent), 0, ds, 0);
    }
  }

  /** The pieces chosen for a numeral denote it. */
  lemma NumeralPartsValue(t: Numeral)
    ensures PartsValue(t.num.negative, NumeralParts(t)) == t
  {
    var ds, p := t.num.digits, NumeralParts(t);
    if ds == [] {
      assert p.whole + p.fraction == [0];
      assert DropLeadingZeros([0]) == [];
    } else if t.scientific {
      assert p.whole + p.fraction == Zeros(0) + ds + Zeros(0);
      PaddedValue(t.num.negative, p, 0, ds, 0);
    } else {
      PlainPartsValue(t.num.negative, ds, |ds| + t.num.exponent);
    }
  }

  /** Reading a printed numeral back gives the same value and notation. */
  lemma NumeralRoundTrip(t: Numeral)
    ensures ReadNumeral(NumeralText(t)) == t
  {
    var p := NumeralParts(t);
    NumeralStart(t);
    ReadPartsText(p);
    NumeralPartsValue(t);
    if t.num.negative {
      assert NumeralText(t)[1..] == PartsText(p);
    }
  }

  /** Main result on floats: in all four layouts the text of a finite float reads
      back as exactly its sign, digits and exponent. */
  lemma EsNumberReadsBack(f: ValidFloats)
    requires !f.NonFinite?
    ensures ReadNumeral(EsNumberText(f)) == Token(FloatNum(f), Scientific(FloatNum(f)))
  {
    EsNumberIsNumeral(f);
    NumeralRoundTrip(FloatNumeral(f));
  }

  /** `str(int)` reads back as the integer. */
  lemma IntTextReadsBack(i: int)
    ensures ReadNumeral(IntText(i)) == Token(IntNum(i), false)
    ensures Denoted(IntNum(i).negative, IntNum(i).digits, IntNum(i).exponent) == i as real
  {
    IntTextIsNumeral(i);
    NumeralRoundTrip(IntNumeral(i));
    NormalizeKeepsNumber(i < 0, DigitsOf(Abs(i)), 0);
    FromDigitsOf(Abs(i));
  }

  /** Two floats print alike exactly when they are the same decimal; the sign of
      zero is the only thing lost. */
  lemma EsNumberInjective(f: ValidFloats, g: ValidFloats)
    requires !f.NonFinite? && !g.NonFinite?
    ensures EsNumberText(f) == EsNumberText(g) <==> FloatNum(f) == FloatNum(g)
    ensures FloatNum(f) == FloatNum(g) && f.Finite? ==> g.Finite? && f.negative == g.negative
  {
    EsNumberReadsBack(f);
    EsNumberReadsBack(g);
    EsNumberIsNumeral(f);
    EsNumberIsNumeral(g);
  }

  // ---------------------------------------------------------------------------
  // ECMA-262, section 6.1.6.1.20, Number::toString with radix 10

  /** The specification's own steps for digits `s` (no trailing zero), length `k`
      and point place `n`. */
  function EcmaNumberToString(negative: bool, s: Digits, n: int): seq<Unit>
    requires s != []
  {
    var k := |s|;
    if negative then [MINUS] + EcmaNumberToString(false, s, n)
    else if -5 <= n <= 21 then
      if n >= k then DigitText(s) + DigitText(Zeros(n - k))
      else if n > 0 then DigitText(s[..n]) + [POINT] + DigitText(s[n..])
      else [ZERO_CHAR] + [POINT] + DigitText(Zeros(-n)) + DigitText(s)
    else
      var exponentSign := if n < 0 then MINUS else PLUS;
      var e: int := if n < 0 then -(n - 1) else n - 1;
      if k == 1 then DigitText(s) + [LETTER_E] + [exponentSign] + DigitText(DigitsOf(Abs(e)))
      else DigitText(s[..1]) + [POINT] + DigitText(s[1..]) + [LETTER_E] + [exponentSign] + DigitText(DigitsOf(Abs(e)))
  }

  /** `_es_number` is Number::toString. */
  lemma EsNumberIsEcma(f: ValidFloats)
    requires f.Finite?
    ensures var d := DropTrailingZeros(f.digits);
            d != [] && EsNumberText(f) == EcmaNumberToString(f.negative, d, |f.digits| + f.exponent)
  {
    var d, n := DropTrailingZeros(f.digits), |f.digits| + f.exponent;
    EcmaLayout(d, n);
  }

  lemma EcmaLayout(s: Digits, n: int)
    requires s != []
    ensures EcmaNumberToString(false, s, n) == Layout(s, n)
  {
    if -5 <= n <= 0 {
      EcmaSmall(s, n);
    } else if 0 < n <= 21 {
      if n >= |s| {
        assert DigitText(s) + DigitText(Zeros(n - |s|)) == DigitText(s + Zeros(n - |s|));
      }
    } else if |s| == 1 {
      assert DigitText(s) == [ZERO_CHAR + s[0]] + [];
      EcmaSign(DigitText(s), n);
    } else {
      var front := DigitText(s[..1]);
      assert front == [ZERO_CHAR + s[0]];
      Assoc(front, [POINT], DigitText(s[1..]));
      EcmaSign(front + [POINT] + DigitText(s[1..]), n);
    }
  }

  lemma EcmaSmall(s: Digits, n: int)
    requires s != [] && -5 <= n <= 0
    ensures EcmaNumberToString(false, s, n) == [ZERO_CHAR, POINT] + DigitText(Zeros(-n) + s)
  {
    var zeros := Zeros(-n);
    assert DigitText(zeros) + DigitText(s) == DigitText(zeros + s);
    Assoc([ZERO_CHAR] + [POINT], DigitText(zeros), DigitText(s));
    assert [ZERO_CHAR] + [POINT] == [ZERO_CHAR, POINT];
  }

  lemma EcmaSign(mantissa: seq<Unit>, n: int)
    requires n < -5 || n > 21
    ensures mantissa + [LETTER_E] + [if n < 0 then MINUS else PLUS]
         == mantissa + [LETTER_E, if n > 0 then PLUS else MINUS]
  {}
}
