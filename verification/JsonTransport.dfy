/** The wire between the two sides: the plugin writes a value with `JSON.stringify`,
    members in the object's own order, and the node's reader gives back the value
    `FromJs` names. */
module JsonTransport {
  import opened Text
  import opened Utf16
  import opened JsonNumbers
  import opened JsonStrings
  import opened JsonModel
  import opened CanonicalJson
  import opened PluginCanonical

  /** `JSON.stringify`. */
  function JsStringify(v: JsValue): seq<Unit>
    decreases v, 1
  {
    match v
    case JsNull => NULL_TEXT
    case JsBool(b) => if b then TRUE_TEXT else FALSE_TEXT
    case JsNumber(n) => JsNumberText(n)
    case JsString(u) => JsQuote(u)
    case JsArray(items) => [OPEN_BRACKET] + (JsJoin(JsTexts(items)) + [CLOSE_BRACKET])
    case JsObject(ms) => [OPEN_BRACE] + (JsJoin(JsMemberTexts(ms)) + [CLOSE_BRACE])
  }

  function JsTexts(items: seq<JsValue>): seq<seq<Unit>>
    decreases items, 0
  {
    if items == [] then [] else [JsStringify(items[0])] + JsTexts(items[1..])
  }

  function JsMemberTexts(ms: seq<JsMember>): seq<seq<Unit>>
    decreases ms, 0
  {
    if ms == [] then []
    else [JsQuote(ms[0].key) + ([COLON] + JsStringify(ms[0].value))] + JsMemberTexts(ms[1..])
  }

  /** What is written, as the parser will see it. */
  function Written(v: JsValue): Tree
    decreases v, 1
  {
    match v
    case JsNull => TNull
    case JsBool(b) => TBool(b)
    case JsNumber(n) => if n.JsNonFinite? then TNull else TNumber(Token(n.d, Scientific(n.d)))
    case JsString(u) => TString(Decode(u))
    case JsArray(items) => TArray(WrittenItems(items))
    case JsObject(ms) => TObject(WrittenMembers(ms))
  }

  function WrittenItems(items: seq<JsValue>): seq<Tree>
    decreases items, 0
  {
    if items == [] then [] else [Written(items[0])] + WrittenItems(items[1..])
  }

  function WrittenMembers(ms: seq<JsMember>): (r: seq<TreeMember>)
    ensures |r| == |ms|
    decreases ms, 0
  {
    if ms == [] then [] else [TreeMember(Decode(ms[0].key), Written(ms[0].value))] + WrittenMembers(ms[1..])
  }

  /** Every object holds each key once, as a JavaScript object does. */
  ghost predicate KeysOnce(v: JsValue)
    decreases v, 1
  {
    match v
    case JsArray(items) => ItemsOnce(items)
    case JsObject(ms) => DistinctJsKeys(ms) && MembersOnce(ms)
    case _ => true
  }

  ghost predicate ItemsOnce(items: seq<JsValue>)
    decreases items, 0
  {
    items == [] || (KeysOnce(items[0]) && ItemsOnce(items[1..]))
  }

  ghost predicate MembersOnce(ms: seq<JsMember>)
    decreases ms, 0
  {
    ms == [] || (KeysOnce(ms[|ms| - 1].value) && MembersOnce(ms[..|ms| - 1]))
  }

  // ---------------------------------------------------------------------------
  // The text

  lemma NumberWritten(n: JsNum)
    ensures TreeText(Written(JsNumber(n))) == JsNumberText(n) && Encode(JsNumberText(n)) == JsNumberText(n)
  {
    EncodeBasic(JsNumberText(n));
    if n.JsFinite? {
      if n.d.digits == [] {
        ZeroParts();
      } else {
        JsFiniteText(n.d, |n.d.digits| + n.d.exponent);
        NumeralLayout(n.d, |n.d.digits| + n.d.exponent);
      }
    }
  }

  lemma {:induction false} TextIsWritten(v: JsValue)
    ensures Encode(TreeText(Written(v))) == JsStringify(v)
    decreases v, 1
  {
    match v
    case JsArray(items) =>
      ItemTextsWritten(items);
      ArrayWritten(items);
    case JsObject(ms) =>
      MemberTextsWritten(ms);
      ObjectWritten(ms);
    case _ => ScalarWritten(v);
  }

  lemma ScalarWritten(v: JsValue)
    requires !v.JsArray? && !v.JsObject?
    ensures Encode(TreeText(Written(v))) == JsStringify(v)
  {
    match v
    case JsNull => EncodeBasic(NULL_TEXT);
    case JsBool(b) => EncodeBasic(if b then TRUE_TEXT else FALSE_TEXT);
    case JsNumber(n) => NumberWritten(n);
    case JsString(u) => JsQuoteIsDecoded(u);
  }

  lemma ArrayWritten(items: seq<JsValue>)
    requires Encodes(TreeTexts(WrittenItems(items))) == JsTexts(items)
    ensures Encode(TreeText(TArray(WrittenItems(items)))) == JsStringify(JsArray(items))
  {
    var texts := TreeTexts(WrittenItems(items));
    EncodeBracketed(OPEN_BRACKET, JoinComma(texts), CLOSE_BRACKET);
    EncodeJoin(texts);
  }

  lemma ObjectWritten(ms: seq<JsMember>)
    requires Encodes(TreeMemberTexts(WrittenMembers(ms))) == JsMemberTexts(ms)
    ensures Encode(TreeText(TObject(WrittenMembers(ms)))) == JsStringify(JsObject(ms))
  {
    var texts := TreeMemberTexts(WrittenMembers(ms));
    EncodeBracketed(OPEN_BRACE, JoinComma(texts), CLOSE_BRACE);
    EncodeJoin(texts);
  }

  lemma EncodesMore(first: Str, rest: seq<Str>)
    ensures Encodes([first] + rest) == [Encode(first)] + Encodes(rest)
  {}

  lemma {:induction false} ItemTextsWritten(items: seq<JsValue>)
    ensures Encodes(TreeTexts(WrittenItems(items))) == JsTexts(items)
    decreases items, 0
  {
    if items != [] {
      TextIsWritten(items[0]);
      ItemTextsWritten(items[1..]);
      assert WrittenItems(items)[1..] == WrittenItems(items[1..]);
      EncodesMore(TreeText(Written(items[0])), TreeTexts(WrittenItems(items[1..])));
    }
  }

  lemma {:induction false} MemberTextsWritten(ms: seq<JsMember>)
    ensures Encodes(TreeMemberTexts(WrittenMembers(ms))) == JsMemberTexts(ms)
    decreases ms, 0
  {
    if ms != [] {
      TextIsWritten(ms[0].value);
      MemberTextsWritten(ms[1..]);
      EncodeDecode(ms[0].key);
      MemberTextsAgree(Decode(ms[0].key), TreeText(Written(ms[0].value)));
      assert WrittenMembers(ms)[1..] == WrittenMembers(ms[1..]);
      var first := WrittenMembers(ms)[0];
      EncodesMore(TreeMemberText(first), TreeMemberTexts(WrittenMembers(ms[1..])));
    }
  }

  lemma DecodedText(v: JsValue)
    ensures Decode(JsStringify(v)) == TreeText(Written(v))
  {
    TextIsWritten(v);
    TreeTextEncodable(Written(v));
    DecodeEncode(TreeText(Written(v)));
  }

  // ---------------------------------------------------------------------------
  // The value

  lemma NumberLoaded(n: JsNum)
    ensures Loads(Written(JsNumber(n))) == NumberFromJs(n)
  {
    if n.JsFinite? && n.d.digits == [] {
      assert n.d.digits + Zeros(0) == [];
    }
  }

  lemma StringLoaded(u: seq<Unit>)
    ensures Joined(Decode(u)) == Decode(u)
  {
    EncodeDecode(u);
  }

  lemma {:induction false} LoadsWritten(v: JsValue)
    requires KeysOnce(v)
    ensures Loads(Written(v)) == FromJs(v)
    decreases v, 1
  {
    match v
    case JsNumber(n) => NumberLoaded(n);
    case JsString(u) => StringLoaded(u);
    case JsArray(items) => LoadsWrittenItems(items);
    case JsObject(ms) => LoadsWrittenMembers(ms);
    case _ =>
  }

  lemma {:induction false} LoadsWrittenItems(items: seq<JsValue>)
    requires ItemsOnce(items)
    ensures LoadsItems(WrittenItems(items)) == FromJsItems(items)
    decreases items, 0
  {
    if items != [] {
      LoadsWritten(items[0]);
      LoadsWrittenItems(items[1..]);
      assert WrittenItems(items)[1..] == WrittenItems(items[1..]);
    }
  }

  lemma {:induction false} MembersConcat(a: seq<JsMember>, b: seq<JsMember>)
    ensures WrittenMembers(a + b) == WrittenMembers(a) + WrittenMembers(b)
    ensures FromJsMembers(a + b) == FromJsMembers(a) + FromJsMembers(b)
  {
    if a == [] {
      assert a + b == b;
    } else {
      assert (a + b)[0] == a[0] && (a + b)[1..] == a[1..] + b;
      MembersConcat(a[1..], b);
    }
  }

  lemma {:induction false} PutNew(ms: seq<Member>, key: Str, value: Json)
    requires !HasKey(ms, key)
    ensures Put(ms, key, value) == ms + [Member(key, value)]
  {
    if ms != [] {
      assert ms[0].key != key;
      assert forall i :: 0 <= i < |ms| - 1 ==> ms[1..][i] == ms[i + 1];
      PutNew(ms[1..], key, value);
    }
  }

  /** The last key is new among the received ones. */
  lemma LastKeyNew(ms: seq<JsMember>)
    requires ms != [] && DistinctJsKeys(ms)
    ensures DistinctJsKeys(ms[..|ms| - 1])
    ensures !HasKey(FromJsMembers(ms[..|ms| - 1]), Decode(ms[|ms| - 1].key))
  {
    var front, last := ms[..|ms| - 1], ms[|ms| - 1];
    FromJsMembersCount(front);
    forall i | 0 <= i < |front|
      ensures FromJsMembers(front)[i].key != Decode(last.key)
    {
      FromJsMembersAt(front, i);
      EncodeDecode(front[i].key);
      EncodeDecode(last.key);
    }
  }

  lemma {:induction false} LoadsWrittenMembers(ms: seq<JsMember>)
    requires DistinctJsKeys(ms) && MembersOnce(ms)
    ensures LoadsMembers(WrittenMembers(ms)) == FromJsMembers(ms)
    decreases ms, 0
  {
    if ms != [] {
      var front, last := ms[..|ms| - 1], ms[|ms| - 1];
      assert ms == front + [last];
      LastKeyNew(ms);
      LoadsWrittenMembers(front);
      LoadsWritten(last.value);
      StringLoaded(last.key);
      MembersConcat(front, [last]);
      assert WrittenMembers(ms)[..|front|] == WrittenMembers(front);
      PutNew(FromJsMembers(front), Decode(last.key), FromJs(last.value));
    }
  }

  /** Main result: reading what the plugin wrote gives the value received from it. */
  lemma ReadsWhatWasWritten(v: JsValue)
    requires KeysOnce(v)
    ensures LoadsText(Decode(JsStringify(v))) == Some(FromJs(v))
    ensures LoadsText(Decode(JsStringify(v)) + Name(",")) == None
  {
    DecodedText(v);
    ParseBack(Written(v), []);
    ParseBack(Written(v), Name(","));
    assert TreeText(Written(v)) + [] == TreeText(Written(v));
    LoadsWritten(v);
  }
}
