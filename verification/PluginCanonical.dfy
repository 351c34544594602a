/** The plugin's canonical text (`canonicalJson`, `approvalBind` in
    node-approval.ts) and its agreement with the node's, across the JSON that
    carries a call from one to the other. */
module PluginCanonical {
  import opened Text
  import opened Utf16
  import opened JsonNumbers
  import opened JsonStrings
  import opened JsonModel
  import opened CanonicalJson

  datatype JsMember = JsMember(key: seq<Unit>, value: JsValue)

  datatype JsNum = JsNonFinite | JsFinite(d: Num)

  /** What `JSON.parse` can produce (an overflowing numeral parses to Infinity). */
  datatype JsValue =
    | JsNull
    | JsBool(b: bool)
    | JsNumber(n: JsNum)
    | JsString(u: seq<Unit>)
    | JsArray(items: seq<JsValue>)
    | JsObject(members: seq<JsMember>)

  /** `JSON.stringify` of a number. */
  function JsNumberText(n: JsNum): seq<Unit> {
    match n
    case JsNonFinite => NULL_TEXT
    case JsFinite(d) =>
      if d.digits == [] then [ZERO_CHAR]
      else EcmaNumberToString(d.negative, d.digits, |d.digits| + d.exponent)
  }

  /** `parts.join(",")`. */
  function JsJoin(parts: seq<seq<Unit>>): seq<Unit> {
    Join<Unit>(parts, COMMA)
  }

  /** `canonicalJson`: keys sorted by UTF-16 code unit. */
  function JsCanonical(v: JsValue): seq<Unit>
    decreases v, 1
  {
    match v
    case JsArray(items) => [OPEN_BRACKET] + (JsJoin(JsItemTexts(items)) + [CLOSE_BRACKET])
    case JsObject(ms) => [OPEN_BRACE] + (JsJoin(Items(Sort(JsEntries(ms)))) + [CLOSE_BRACE])
    case JsString(u) => JsQuote(u)
    case JsBool(b) => if b then TRUE_TEXT else FALSE_TEXT
    case JsNull => NULL_TEXT
    case JsNumber(n) => JsNumberText(n)
  }

  function JsItemTexts(items: seq<JsValue>): (r: seq<seq<Unit>>)
    ensures |r| == |items|
    decreases items, 0
  {
    if items == [] then [] else [JsCanonical(items[0])] + JsItemTexts(items[1..])
  }

  function JsEntries(ms: seq<JsMember>): (r: seq<Entry<seq<Unit>>>)
    ensures |r| == |ms|
    decreases ms, 0
  {
    if ms == [] then []
    else [Entry(ms[0].key, JsQuote(ms[0].key) + ([COLON] + JsCanonical(ms[0].value)))] + JsEntries(ms[1..])
  }

  // ---------------------------------------------------------------------------
  // One value on both sides

  /** The JavaScript value of a Python value. */
  function ToJs(v: Json): JsValue
    decreases v, 1
  {
    match v
    case JNull => JsNull
    case JBool(b) => JsBool(b)
    case JInt(i) => JsNumber(JsFinite(IntNum(i)))
    case JFloat(f) => JsNumber(if f.NonFinite? then JsNonFinite else JsFinite(FloatNum(f)))
    case JString(s) => JsString(Encode(s))
    case JArray(items) => JsArray(ToJsItems(items))
    case JObject(ms) => JsObject(ToJsMembers(ms))
  }

  function ToJsItems(items: seq<Json>): seq<JsValue>
    decreases items, 0
  {
    if items == [] then [] else [ToJs(items[0])] + ToJsItems(items[1..])
  }

  function ToJsMembers(ms: seq<Member>): seq<JsMember>
    decreases ms, 0
  {
    if ms == [] then [] else [JsMember(Encode(ms[0].key), ToJs(ms[0].value))] + ToJsMembers(ms[1..])
  }

  /** Integers JavaScript prints in plain digits: at most 21 of them. Every safe
      integer is one. */
  predicate PlainInteger(i: int) {
    |DigitsOf(Abs(i))| <= 21
  }

  predicate Portable(v: Json)
    decreases v, 1
  {
    match v
    case JInt(i) => PlainInteger(i)
    case JString(s) => NoSplitPair(s)
    case JArray(items) => PortableItems(items)
    case JObject(ms) => PortableMembers(ms)
    case _ => true
  }

  predicate PortableItems(items: seq<Json>)
    decreases items, 0
  {
    items == [] || (Portable(items[0]) && PortableItems(items[1..]))
  }

  predicate PortableMembers(ms: seq<Member>)
    decreases ms, 0
  {
    ms == [] || (NoSplitPair(ms[0].key) && Portable(ms[0].value) && PortableMembers(ms[1..]))
  }

  lemma {:induction false} DigitCount(n: nat, k: nat, bound: nat)
    requires k > 0 && n < bound && bound == Tens(k)
    ensures |DigitsOf(n)| <= k
    decreases k
  {
    if n >= 10 {
      assert k > 1;
      DigitCount(n / 10, k - 1, Tens(k - 1));
    }
  }

  function Tens(k: nat): nat {
    if k == 0 then 1 else 10 * Tens(k - 1)
  }

  /** Every safe integer is far inside the plain range, so both sides print it alike. */
  lemma SafeIntegersArePlain(i: int)
    requires -0x20_0000_0000_0000 < i < 0x20_0000_0000_0000
    ensures PlainInteger(i) && JsNumberText(JsFinite(IntNum(i))) == IntText(i)
  {
    assert Tens(8) == 100_000_000;
    assert Tens(16) == 10_000_000_000_000_000;
    DigitCount(Abs(i), 16, Tens(16));
    IntegersAgree(i);
  }

  // ---------------------------------------------------------------------------
  // Agreement

  lemma ZeroNum()
    ensures IntNum(0) == Decimal(false, [], 0) && IntText(0) == [ZERO_CHAR]
  {
    assert DigitsOf(0) == [0];
    assert DropLeadingZeros([0]) == [];
  }

  lemma PlainLayout(ds: Digits)
    requires ds != [] && ds[0] != 0 && |ds| <= 21
    ensures DropTrailingZeros(ds) != [] && Layout(DropTrailingZeros(ds), |ds|) == DigitText(ds)
  {
    TrailingZerosRestored(ds);
  }

  lemma JsFiniteText(d: Num, n: int)
    requires d.digits != [] && n == |d.digits| + d.exponent
    ensures JsNumberText(JsFinite(d)) == Signed(d.negative, Layout(d.digits, n))
  {
    EcmaLayout(d.digits, n);
  }

  lemma IntegersAgree(i: int)
    requires PlainInteger(i)
    ensures JsNumberText(JsFinite(IntNum(i))) == IntText(i)
  {
    if i == 0 {
      ZeroNum();
    } else {
      var ds := DigitsOf(Abs(i));
      NormalizeRaw(i < 0, ds, 0);
      PlainLayout(ds);
      JsFiniteText(Decimal(i < 0, DropTrailingZeros(ds), |ds| - |DropTrailingZeros(ds)|), |ds|);
    }
  }

  lemma FiniteFloatsAgree(f: ValidFloats, d: Num)
    requires f.Finite? && d == FloatNum(f)
    ensures JsNumberText(JsFinite(d)) == EsNumberText(f)
  {
    FiniteNum(f);
    JsFiniteText(d, |f.digits| + f.exponent);
  }

  lemma FloatsAgree(f: ValidFloats)
    ensures JsNumberText(if f.NonFinite? then JsNonFinite else JsFinite(FloatNum(f))) == EsNumberText(f)
  {
    if f.Finite? {
      FiniteFloatsAgree(f, FloatNum(f));
    }
  }

  function Encodes(parts: seq<Str>): (r: seq<seq<Unit>>)
    ensures |r| == |parts|
    ensures forall i :: 0 <= i < |parts| ==> r[i] == Encode(parts[i])
  {
    seq(|parts|, i requires 0 <= i < |parts| => Encode(parts[i]))
  }

  lemma {:induction false} EncodeJoin(parts: seq<Str>)
    ensures Encode(JoinComma(parts)) == JsJoin(Encodes(parts))
  {
    if |parts| > 1 {
      EncodeConcat(parts[0], [COMMA] + JoinComma(parts[1..]));
      EncodeConcat([COMMA], JoinComma(parts[1..]));
      EncodeBasic([COMMA]);
      EncodeJoin(parts[1..]);
      assert Encodes(parts)[1..] == Encodes(parts[1..]);
    }
  }

  lemma EncodeBracketed(open: Unit, body: Str, close: Unit)
    ensures Encode([open] + (body + [close])) == [open] + (Encode(body) + [close])
  {
    EncodeConcat([open], body + [close]);
    EncodeConcat(body, [close]);
    EncodeBasic([open]);
    EncodeBasic([close]);
  }

  lemma ArraysAgree(items: seq<Json>)
    requires JsItemTexts(ToJsItems(items)) == Encodes(ItemTexts(items))
    ensures Encode(Canonical(JArray(items))) == JsCanonical(JsArray(ToJsItems(items)))
  {
    EncodeBracketed(OPEN_BRACKET, JoinComma(ItemTexts(items)), CLOSE_BRACKET);
    EncodeJoin(ItemTexts(items));
  }

  /** Main result: the node and the plugin print every portable value alike. */
  lemma {:induction false} PrintersAgree(v: Json)
    requires Portable(v)
    ensures Encode(Canonical(v)) == JsCanonical(ToJs(v))
    decreases v, 1
  {
    match v
    case JObject(ms) =>
      MembersAgree(ms);
      ObjectsAgree(ms);
    case JArray(items) =>
      ItemsAgree(items);
      ArraysAgree(items);
    case JString(s) => StringsAgree(s);
    case JInt(i) =>
      IntegersAgree(i);
      EncodeBasic(IntText(i));
    case JFloat(f) =>
      FloatsAgree(f);
      EncodeBasic(EsNumberText(f));
    case JBool(b) => EncodeBasic(if b then TRUE_TEXT else FALSE_TEXT);
    case JNull => EncodeBasic(NULL_TEXT);
  }

  lemma {:induction false} ItemsAgree(items: seq<Json>)
    requires PortableItems(items)
    ensures JsItemTexts(ToJsItems(items)) == Encodes(ItemTexts(items))
    decreases items, 0
  {
    if items != [] {
      PrintersAgree(items[0]);
      ItemsAgree(items[1..]);
      assert ToJsItems(items)[1..] == ToJsItems(items[1..]);
    }
  }

  /** The node's entries under unit keys instead of byte keys. */
  function UnitEntries(ms: seq<Member>): (r: seq<Entry<Str>>)
    ensures UnitKeyed(r)
  {
    if ms == [] then []
    else
      [Entry(Encode(ms[0].key), EsString(ms[0].key) + ([COLON] + Canonical(ms[0].value)))] + UnitEntries(ms[1..])
  }

  lemma {:induction false} NodeEntriesByteKeyed(ms: seq<Member>)
    ensures MemberEntries(ms) == ByteKeyed(UnitEntries(ms))
  {
    if ms != [] {
      NodeEntriesByteKeyed(ms[1..]);
      assert UnitEntries(ms)[1..] == UnitEntries(ms[1..]);
    }
  }

  lemma MemberTextsAgree(key: Str, text: Str)
    requires NoSplitPair(key)
    ensures Encode(EsString(key) + ([COLON] + text)) == JsQuote(Encode(key)) + ([COLON] + Encode(text))
  {
    EncodeConcat(EsString(key), [COLON] + text);
    EncodeConcat([COLON], text);
    EncodeBasic([COLON]);
    StringsAgree(key);
  }

  lemma {:induction false} MembersAgree(ms: seq<Member>)
    requires PortableMembers(ms)
    ensures JsEntries(ToJsMembers(ms)) == Rendered(UnitEntries(ms), Encode)
    decreases ms, 0
  {
    if ms != [] {
      PrintersAgree(ms[0].value);
      MembersAgree(ms[1..]);
      MemberTextsAgree(ms[0].key, Canonical(ms[0].value));
      assert ToJsMembers(ms)[1..] == ToJsMembers(ms[1..]);
      assert UnitEntries(ms)[1..] == UnitEntries(ms[1..]);
    }
  }

  lemma SortedTextsAgree(ms: seq<Member>)
    ensures Items(Sort(Rendered(UnitEntries(ms), Encode))) == Encodes(Items(Sort(MemberEntries(ms))))
  {
    var units := UnitEntries(ms);
    NodeEntriesByteKeyed(ms);
    SortByteKeyed(units);
    SortRendered(units, Encode);
    assert Items(ByteKeyed(Sort(units))) == Items(Sort(units));
    assert Items(Rendered(Sort(units), Encode)) == Encodes(Items(Sort(units)));
  }

  lemma ObjectText(ms: seq<Member>, texts: seq<Str>)
    requires texts == Items(Sort(MemberEntries(ms)))
    ensures Encode(Canonical(JObject(ms))) == [OPEN_BRACE] + (JsJoin(Encodes(texts)) + [CLOSE_BRACE])
  {
    EncodeBracketed(OPEN_BRACE, JoinComma(texts), CLOSE_BRACE);
    EncodeJoin(texts);
  }

  lemma JsObjectText(ms: seq<JsMember>, texts: seq<seq<Unit>>)
    requires texts == Items(Sort(JsEntries(ms)))
    ensures JsCanonical(JsObject(ms)) == [OPEN_BRACE] + (JsJoin(texts) + [CLOSE_BRACE])
  {}

  lemma ObjectsAgree(ms: seq<Member>)
    requires JsEntries(ToJsMembers(ms)) == Rendered(UnitEntries(ms), Encode)
    ensures Encode(Canonical(JObject(ms))) == JsCanonical(JsObject(ToJsMembers(ms)))
  {
    var texts := Items(Sort(MemberEntries(ms)));
    SortedTextsAgree(ms);
    ObjectText(ms, texts);
    JsObjectText(ToJsMembers(ms), Encodes(texts));
  }

  // ---------------------------------------------------------------------------
  // Transport: the node reads what `JSON.stringify` wrote

  /** `json.loads` of the plugin's number text: an int when it is plain digits. */
  function NumberFromJs(n: JsNum): Json {
    match n
    case JsNonFinite => JNull
    case JsFinite(d) =>
      var point := |d.digits| + d.exponent;
      if d.digits == [] then JInt(0)
      else if |d.digits| <= point <= 21 then
        var magnitude: int := FromDigits(d.digits + Zeros(point - |d.digits|));
        JInt(if d.negative then -magnitude else magnitude)
      else JFloat(Finite(d.negative, d.digits, d.exponent))
  }

  /** The value the node decodes from the plugin's serialized value. */
  function FromJs(v: JsValue): Json
    decreases v, 1
  {
    match v
    case JsNull => JNull
    case JsBool(b) => JBool(b)
    case JsNumber(n) => NumberFromJs(n)
    case JsString(u) => JString(Decode(u))
    case JsArray(items) => JArray(FromJsItems(items))
    case JsObject(ms) => JObject(FromJsMembers(ms))
  }

  function FromJsItems(items: seq<JsValue>): seq<Json>
    decreases items, 0
  {
    if items == [] then [] else [FromJs(items[0])] + FromJsItems(items[1..])
  }

  function FromJsMembers(ms: seq<JsMember>): seq<Member>
    decreases ms, 0
  {
    if ms == [] then [] else [Member(Decode(ms[0].key), FromJs(ms[0].value))] + FromJsMembers(ms[1..])
  }

  lemma IntNumOfDigits(negative: bool, ds: Digits, i: int)
    requires ds != [] && ds[0] != 0
    requires i == SignedInt(negative, FromDigits(ds))
    ensures DigitsOf(Abs(i)) == ds && IntNum(i) == Normalize(negative, ds, 0)
  {
    DigitsOfFrom(ds);
  }

  function SignedInt(negative: bool, magnitude: nat): int {
    if negative then -(magnitude as int) else magnitude
  }

  lemma PlainNumberFromJs(d: Num, ds: Digits)
    requires d.digits != [] && |d.digits| <= |ds| <= 21
    requires d.exponent == |ds| - |d.digits| && ds == d.digits + Zeros(|ds| - |d.digits|)
    ensures NumberFromJs(JsFinite(d)) == JInt(SignedInt(d.negative, FromDigits(ds)))
  {}

  lemma PaddedNormal(d: Num, ds: Digits)
    requires d.digits != [] && d.exponent >= 0 && ds == d.digits + Zeros(d.exponent)
    ensures ds[0] != 0 && Normalize(d.negative, ds, 0) == d
  {
    assert Zeros(0) + d.digits + Zeros(d.exponent) == ds;
    NormalizePadded(d.negative, 0, d.digits, d.exponent, 0);
  }

  lemma TransportInteger(d: Num)
    requires d.digits != [] && |d.digits| <= |d.digits| + d.exponent <= 21
    ensures var v := NumberFromJs(JsFinite(d));
            v.JInt? && IntNum(v.i) == d && PlainInteger(v.i)
  {
    var ds := d.digits + Zeros(d.exponent);
    var i := SignedInt(d.negative, FromDigits(ds));
    PlainNumberFromJs(d, ds);
    PaddedNormal(d, ds);
    IntNumOfDigits(d.negative, ds, i);
  }

  lemma TransportFloat(d: Num)
    requires d.digits != []
    ensures FloatNum(Finite(d.negative, d.digits, d.exponent)) == d
  {
    NormalizePadded(d.negative, 0, d.digits, 0, d.exponent);
    assert Zeros(0) + d.digits + Zeros(0) == d.digits;
  }

  lemma TransportNumber(n: JsNum)
    ensures Portable(NumberFromJs(n))
    ensures JsCanonical(ToJs(NumberFromJs(n))) == JsNumberText(n)
  {
    if n.JsFinite? {
      if n.d.digits == [] {
        ZeroNum();
      } else if |n.d.digits| <= |n.d.digits| + n.d.exponent <= 21 {
        TransportInteger(n.d);
      } else {
        TransportFloat(n.d);
      }
    }
  }

  /** Transport keeps the plugin's text, and only produces portable values. */
  lemma {:induction false} Transport(v: JsValue)
    ensures Portable(FromJs(v))
    ensures JsCanonical(ToJs(FromJs(v))) == JsCanonical(v)
    decreases v, 1
  {
    match v
    case JsNumber(n) => TransportNumber(n);
    case JsString(u) => EncodeDecode(u);
    case JsArray(items) => TransportItems(items);
    case JsObject(ms) => TransportMembers(ms);
    case _ =>
  }

  lemma {:induction false} TransportItems(items: seq<JsValue>)
    ensures PortableItems(FromJsItems(items))
    ensures JsItemTexts(ToJsItems(FromJsItems(items))) == JsItemTexts(items)
    decreases items, 0
  {
    if items != [] {
      Transport(items[0]);
      TransportItems(items[1..]);
      assert FromJsItems(items)[1..] == FromJsItems(items[1..]);
      assert ToJsItems(FromJsItems(items))[1..] == ToJsItems(FromJsItems(items[1..]));
    }
  }

  lemma {:induction false} TransportMembers(ms: seq<JsMember>)
    ensures PortableMembers(FromJsMembers(ms))
    ensures JsEntries(ToJsMembers(FromJsMembers(ms))) == JsEntries(ms)
    decreases ms, 0
  {
    if ms != [] {
      Transport(ms[0].value);
      TransportMembers(ms[1..]);
      EncodeDecode(ms[0].key);
      assert FromJsMembers(ms)[1..] == FromJsMembers(ms[1..]);
      assert ToJsMembers(FromJsMembers(ms))[1..] == ToJsMembers(FromJsMembers(ms[1..]));
    }
  }

  /** The node's text of a received value is the plugin's text of the sent one. */
  lemma ReceivedTextAgrees(v: JsValue)
    ensures Encode(Canonical(FromJs(v))) == JsCanonical(v)
  {
    Transport(v);
    PrintersAgree(FromJs(v));
  }

  lemma {:induction false} FromJsMembersCount(ms: seq<JsMember>)
    ensures |FromJsMembers(ms)| == |ms|
  {
    if ms != [] {
      FromJsMembersCount(ms[1..]);
    }
  }

  lemma {:induction false} FromJsMembersAt(ms: seq<JsMember>, i: nat)
    requires i < |ms|
    ensures |FromJsMembers(ms)| == |ms| && FromJsMembers(ms)[i].key == Decode(ms[i].key)
  {
    FromJsMembersCount(ms);
    if i > 0 {
      FromJsMembersAt(ms[1..], i - 1);
    }
  }

  lemma BigEndianInjective(a: seq<Unit>, b: seq<Unit>)
    ensures BigEndian(a) == BigEndian(b) <==> a == b
  {
    LexTotal(BigEndian(a), BigEndian(b));
    ByteOrderIsUnitOrder(a, b);
    ByteOrderIsUnitOrder(b, a);
    LexTotal(a, b);
  }

  lemma ReceivedKeyForm(ms: seq<JsMember>, i: nat)
    requires i < |ms|
    ensures |FromJsMembers(ms)| == |ms| && Utf16Key(FromJsMembers(ms)[i].key) == BigEndian(ms[i].key)
  {
    FromJsMembersAt(ms, i);
    EncodeDecode(ms[i].key);
  }

  ghost predicate DistinctJsKeys(ms: seq<JsMember>) {
    forall i, j :: 0 <= i < j < |ms| ==> ms[i].key != ms[j].key
  }

  /** A JavaScript object holds each key once, so a received dict has distinct UTF-16
      keys: on what the node receives, insertion order never shows. */
  lemma ReceivedKeysDistinct(ms: seq<JsMember>)
    requires DistinctJsKeys(ms)
    ensures DistinctUtf16(FromJsMembers(ms)) && OrderInvisible(FromJsMembers(ms))
  {
    var received := FromJsMembers(ms);
    FromJsMembersCount(ms);
    forall i, j | 0 <= i < j < |received|
      ensures Utf16Key(received[i].key) != Utf16Key(received[j].key)
    {
      ReceivedKeyForm(ms, i);
      ReceivedKeyForm(ms, j);
      BigEndianInjective(ms[i].key, ms[j].key);
    }
    forall ns: seq<Member> | multiset(ns) == multiset(received)
      ensures Canonical(JObject(ns)) == Canonical(JObject(received))
    {
      InsertionOrderInvisible(received, ns);
    }
  }

  // ---------------------------------------------------------------------------
  // `approvalBind`

  function JsWithout(ms: seq<JsMember>, key: seq<Unit>): (r: seq<JsMember>)
    ensures forall m :: m in r <==> m in ms && m.key != key
  {
    if ms == [] then []
    else if ms[0].key == key then JsWithout(ms[1..], key)
    else [ms[0]] + JsWithout(ms[1..], key)
  }

  function JsCallBody(params: seq<JsMember>): seq<JsMember> {
    JsWithout(JsWithout(params, APPROVAL_PARAM), CALLER_PARAM)
  }

  function JsCallMembers(command: seq<Unit>, action: seq<Unit>, params: seq<JsMember>): seq<JsMember> {
    [JsMember(COMMAND_KEY, JsString(command)),
     JsMember(ACTION_KEY, JsString(action)),
     JsMember(PARAMS_KEY, JsObject(JsCallBody(params)))]
  }

  /** The text `approvalBind` hashes. */
  function JsBindText(command: seq<Unit>, action: seq<Unit>, params: seq<JsMember>): seq<Unit> {
    JsCanonical(JsObject(JsCallMembers(command, action, params)))
  }

  predicate NoSurrogates(u: seq<Unit>) {
    forall i :: 0 <= i < |u| ==> !IsSurrogate(u[i])
  }

  lemma {:induction false} DecodeBasic(u: seq<Unit>)
    requires NoSurrogates(u)
    ensures Decode(u) == u
  {
    if u != [] {
      DecodeBasic(u[1..]);
      assert u == [u[0]] + u[1..];
    }
  }

  lemma DecodedKey(u: seq<Unit>, key: seq<Unit>)
    requires NoSurrogates(key)
    ensures Decode(u) == key <==> u == key
  {
    EncodeDecode(u);
    EncodeBasic(key);
    DecodeBasic(key);
  }

  lemma {:induction false} TransportWithout(ms: seq<JsMember>, key: seq<Unit>)
    requires NoSurrogates(key)
    ensures FromJsMembers(JsWithout(ms, key)) == Without(FromJsMembers(ms), key)
  {
    if ms != [] {
      TransportWithout(ms[1..], key);
      DecodedKey(ms[0].key, key);
      assert FromJsMembers(ms)[1..] == FromJsMembers(ms[1..]);
    }
  }

  lemma ReservedNamesPlain()
    ensures NoSurrogates(APPROVAL_PARAM) && NoSurrogates(CALLER_PARAM)
  {}

  lemma CallKeysPlain()
    ensures NoSurrogates(COMMAND_KEY) && NoSurrogates(ACTION_KEY) && NoSurrogates(PARAMS_KEY)
  {}

  lemma TransportWithoutBoth(params: seq<JsMember>, a: seq<Unit>, b: seq<Unit>)
    requires NoSurrogates(a) && NoSurrogates(b)
    ensures FromJsMembers(JsWithout(JsWithout(params, a), b)) == Without(Without(FromJsMembers(params), a), b)
  {
    TransportWithout(params, a);
    TransportWithout(JsWithout(params, a), b);
  }

  lemma TransportCallBody(params: seq<JsMember>)
    ensures FromJsMembers(JsCallBody(params)) == CallBody(FromJsMembers(params))
  {
    ReservedNamesPlain();
    TransportWithoutBoth(params, APPROVAL_PARAM, CALLER_PARAM);
  }

  lemma {:induction false} TransportThree(a: JsMember, b: JsMember, c: JsMember)
    ensures FromJsMembers([a, b, c]) == [Member(Decode(a.key), FromJs(a.value)),
                                         Member(Decode(b.key), FromJs(b.value)),
                                         Member(Decode(c.key), FromJs(c.value))]
  {
    assert [a, b, c][1..] == [b, c] && [b, c][1..] == [c] && [c][1..] == [];
    assert FromJsMembers([c]) == [Member(Decode(c.key), FromJs(c.value))];
    assert FromJsMembers([b, c]) == [Member(Decode(b.key), FromJs(b.value))] + FromJsMembers([c]);
  }

  lemma CallTransport(command: seq<Unit>, action: seq<Unit>, params: seq<JsMember>)
    ensures FromJsMembers(JsCallMembers(command, action, params))
         == CallMembers(Decode(command), Decode(action), FromJsMembers(params))
  {
    var c := JsMember(COMMAND_KEY, JsString(command));
    var a := JsMember(ACTION_KEY, JsString(action));
    var p := JsMember(PARAMS_KEY, JsObject(JsCallBody(params)));
    CallKeysPlain();
    DecodeBasic(c.key);
    DecodeBasic(a.key);
    DecodeBasic(p.key);
    TransportThree(c, a, p);
    TransportCallBody(params);
    ScalarTransport(command);
    ScalarTransport(action);
    ObjectTransport(JsCallBody(params));
  }

  lemma ScalarTransport(u: seq<Unit>)
    ensures FromJs(JsString(u)) == JString(Decode(u))
  {}

  lemma ObjectTransport(ms: seq<JsMember>)
    ensures FromJs(JsObject(ms)) == JObject(FromJsMembers(ms))
  {}

  /** Main result: what the node binds on receipt is what the plugin bound when
      it asked for approval, whatever the call holds. */
  lemma BindTextsAgree(command: seq<Unit>, action: seq<Unit>, params: seq<JsMember>)
    ensures Encode(BindText(Decode(command), Decode(action), FromJsMembers(params)))
         == JsBindText(command, action, params)
  {
    var ms := JsCallMembers(command, action, params);
    CallTransport(command, action, params);
    ReceivedObjectAgrees(ms);
  }

  lemma ReceivedObjectAgrees(ms: seq<JsMember>)
    ensures Encode(Canonical(JObject(FromJsMembers(ms)))) == JsCanonical(JsObject(ms))
  {
    ReceivedTextAgrees(JsObject(ms));
  }

  /** The plugin's texts of two objects agree exactly when, as received, every member of
      each has one in the other with its key and a value of the same text. */
  lemma ReceivedSameMembers(ms: seq<JsMember>, ns: seq<JsMember>)
    requires DistinctJsKeys(ms) && DistinctJsKeys(ns)
    ensures var a, b := FromJsMembers(ms), FromJsMembers(ns);
            JsCanonical(JsObject(ms)) == JsCanonical(JsObject(ns)) <==> MembersWithin(a, b) && MembersWithin(b, a)
  {
    var a, b := FromJsMembers(ms), FromJsMembers(ns);
    ReceivedKeysDistinct(ms);
    ReceivedKeysDistinct(ns);
    SameTextDistinctMembers(a, b);
    ReceivedObjectAgrees(ms);
    ReceivedObjectAgrees(ns);
    CanonicalEncodable(JObject(a));
    CanonicalEncodable(JObject(b));
    DecodeOfEncode(Canonical(JObject(a)));
    DecodeOfEncode(Canonical(JObject(b)));
  }
}
