/** The canonical text an approval is bound to (`_canonical`, `approval_bind`) and
    the parser that undoes it, so that one text names one call. */
module CanonicalJson {
  import opened Text
  import opened Utf16
  import opened JsonNumbers
  import opened JsonStrings
  import opened JsonModel

  const TRUE_TEXT: seq<Unit> := [0x74, 0x72, 0x75, 0x65]
  const FALSE_TEXT: seq<Unit> := [0x66, 0x61, 0x6C, 0x73, 0x65]

  /** `_utf16_key`. */
  function Utf16Key(key: Str): seq<Byte> {
    BigEndian(Encode(key))
  }

  /** `",".join(parts)`. */
  function JoinComma(parts: seq<Str>): Str {
    Join<CodePoint>(parts, COMMA)
  }

  /** `_canonical`. */
  function Canonical(v: Json): Str
    decreases v, 1
  {
    match v
    case JObject(ms) => [OPEN_BRACE] + (JoinComma(Items(Sort(MemberEntries(ms)))) + [CLOSE_BRACE])
    case JArray(items) => [OPEN_BRACKET] + (JoinComma(ItemTexts(items)) + [CLOSE_BRACKET])
    case JString(s) => EsString(s)
    case JBool(b) => if b then TRUE_TEXT else FALSE_TEXT
    case JNull => NULL_TEXT
    case JInt(i) => IntText(i)
    case JFloat(f) => EsNumberText(f)
  }

  function ItemTexts(items: seq<Json>): (r: seq<Str>)
    ensures |r| == |items|
    decreases items, 0
  {
    if items == [] then [] else [Canonical(items[0])] + ItemTexts(items[1..])
  }

  /** Each member's text with its sort key. */
  function MemberEntries(ms: seq<Member>): (r: seq<Entry<Str>>)
    ensures |r| == |ms|
    decreases ms, 0
  {
    if ms == [] then []
    else
      [Entry(Utf16Key(ms[0].key), EsString(ms[0].key) + ([COLON] + Canonical(ms[0].value)))] + MemberEntries(ms[1..])
  }

  // ---------------------------------------------------------------------------
  // Normal form: what the text keeps of a value

  datatype TreeMember = TreeMember(key: Str, value: Tree)

  /** A value up to member order, number type and non-finite floats. */
  datatype Tree =
    | TNull
    | TBool(b: bool)
    | TNumber(n: Numeral)
    | TString(s: Str)
    | TArray(items: seq<Tree>)
    | TObject(members: seq<TreeMember>)

  function Normal(v: Json): Tree
    decreases v, 1
  {
    match v
    case JObject(ms) => TObject(Items(Sort(NormalEntries(ms))))
    case JArray(items) => TArray(NormalItems(items))
    case JString(s) => TString(s)
    case JBool(b) => TBool(b)
    case JNull => TNull
    case JInt(i) => TNumber(IntNumeral(i))
    case JFloat(f) => if f.NonFinite? then TNull else TNumber(FloatNumeral(f))
  }

  function NormalItems(items: seq<Json>): (r: seq<Tree>)
    ensures |r| == |items|
    decreases items, 0
  {
    if items == [] then [] else [Normal(items[0])] + NormalItems(items[1..])
  }

  function NormalEntries(ms: seq<Member>): (r: seq<Entry<TreeMember>>)
    ensures |r| == |ms|
    ensures forall i :: 0 <= i < |ms| ==> r[i].order == Utf16Key(ms[i].key)
    ensures forall i :: 0 <= i < |ms| ==> r[i].item == TreeMember(ms[i].key, Normal(ms[i].value))
    decreases ms, 0
  {
    if ms == [] then []
    else [Entry(Utf16Key(ms[0].key), TreeMember(ms[0].key, Normal(ms[0].value)))] + NormalEntries(ms[1..])
  }

  function TreeText(t: Tree): Str
    decreases t, 2
  {
    match t
    case TNull => NULL_TEXT
    case TBool(b) => if b then TRUE_TEXT else FALSE_TEXT
    case TNumber(n) => NumeralText(n)
    case TString(s) => EsString(s)
    case TArray(items) => [OPEN_BRACKET] + (JoinComma(TreeTexts(items)) + [CLOSE_BRACKET])
    case TObject(ms) => [OPEN_BRACE] + (JoinComma(TreeMemberTexts(ms)) + [CLOSE_BRACE])
  }

  function TreeTexts(items: seq<Tree>): (r: seq<Str>)
    ensures |r| == |items|
    decreases items, 0
  {
    if items == [] then [] else [TreeText(items[0])] + TreeTexts(items[1..])
  }

  function TreeMemberText(m: TreeMember): Str
    decreases m, 1
  {
    EsString(m.key) + ([COLON] + TreeText(m.value))
  }

  function TreeMemberTexts(ms: seq<TreeMember>): (r: seq<Str>)
    ensures |r| == |ms|
    ensures forall i :: 0 <= i < |ms| ==> r[i] == TreeMemberText(ms[i])
    decreases ms, 0
  {
    if ms == [] then [] else [TreeMemberText(ms[0])] + TreeMemberTexts(ms[1..])
  }

  /** The canonical text depends on a value only through its normal form. */
  lemma {:induction false} CanonicalIsTreeText(v: Json)
    ensures Canonical(v) == TreeText(Normal(v))
    decreases v, 1
  {
    match v
    case JObject(ms) =>
      MembersAreTreeMembers(ms);
      SortedMembersAreTreeMembers(ms);
    case JArray(items) => ItemsAreTrees(items);
    case JInt(i) => IntTextIsNumeral(i);
    case JFloat(f) =>
      if !f.NonFinite? {
        EsNumberIsNumeral(f);
      }
    case _ =>
  }

  lemma SortedMembersAreTreeMembers(ms: seq<Member>)
    requires MemberEntries(ms) == Rendered(NormalEntries(ms), TreeMemberText)
    ensures Items(Sort(MemberEntries(ms))) == TreeMemberTexts(Items(Sort(NormalEntries(ms))))
  {
    SortRendered(NormalEntries(ms), TreeMemberText);
  }

  lemma {:induction false} ItemsAreTrees(items: seq<Json>)
    ensures ItemTexts(items) == TreeTexts(NormalItems(items))
    decreases items, 0
  {
    if items != [] {
      CanonicalIsTreeText(items[0]);
      ItemsAreTrees(items[1..]);
      assert NormalItems(items)[1..] == NormalItems(items[1..]);
    }
  }

  lemma {:induction false} MembersAreTreeMembers(ms: seq<Member>)
    ensures MemberEntries(ms) == Rendered(NormalEntries(ms), TreeMemberText)
    decreases ms, 0
  {
    if ms != [] {
      CanonicalIsTreeText(ms[0].value);
      MembersAreTreeMembers(ms[1..]);
      assert NormalEntries(ms)[1..] == NormalEntries(ms[1..]);
    }
  }

  // ---------------------------------------------------------------------------
  // The parser

  predicate NumberChar(c: CodePoint) {
    IsDigitChar(c) || c in {MINUS, PLUS, POINT, LETTER_E}
  }

  function NumberLength(t: Str): (n: nat)
    ensures n <= |t|
    ensures t != [] && NumberChar(t[0]) ==> n > 0
  {
    if t != [] && NumberChar(t[0]) then 1 + NumberLength(t[1..]) else 0
  }

  function ParseValue(t: Str): (r: Parsed<Tree>)
    ensures r.Parsed? ==> |r.rest| < |t|
    decreases |t|, 0
  {
    if t == [] then Failed
    else if t[0] == QUOTE then
      match ReadBody(t[1..])
      case Failed => Failed
      case Parsed(s, rest) => Parsed(TString(s), rest)
    else if t[0] == OPEN_BRACKET then
      if |t| > 1 && t[1] == CLOSE_BRACKET then Parsed(TArray([]), t[2..])
      else
        match ParseItems(t[1..])
        case Failed => Failed
        case Parsed(items, rest) => Parsed(TArray(items), rest)
    else if t[0] == OPEN_BRACE then
      if |t| > 1 && t[1] == CLOSE_BRACE then Parsed(TObject([]), t[2..])
      else
        match ParseMembers(t[1..])
        case Failed => Failed
        case Parsed(ms, rest) => Parsed(TObject(ms), rest)
    else ParseScalar(t)
  }

  function ParseScalar(t: Str): (r: Parsed<Tree>)
    requires t != []
    ensures r.Parsed? ==> |r.rest| < |t|
  {
    if NumberChar(t[0]) then Parsed(TNumber(ReadNumeral(t[..NumberLength(t)])), t[NumberLength(t)..])
    else if NULL_TEXT <= t then Parsed(TNull, t[4..])
    else if TRUE_TEXT <= t then Parsed(TBool(true), t[4..])
    else if FALSE_TEXT <= t then Parsed(TBool(false), t[5..])
    else Failed
  }

  function ParseItems(t: Str): (r: Parsed<seq<Tree>>)
    ensures r.Parsed? ==> |r.rest| < |t|
    decreases |t|, 1
  {
    match ParseValue(t)
    case Failed => Failed
    case Parsed(v, rest) =>
      if rest == [] then Failed
      else if rest[0] == CLOSE_BRACKET then Parsed([v], rest[1..])
      else if rest[0] != COMMA then Failed
      else
        match ParseItems(rest[1..])
        case Failed => Failed
        case Parsed(vs, after) => Parsed([v] + vs, after)
  }

  function ParseMember(t: Str): (r: Parsed<TreeMember>)
    ensures r.Parsed? ==> |r.rest| < |t|
    decreases |t|, 1
  {
    if t == [] || t[0] != QUOTE then Failed
    else
      match ReadBody(t[1..])
      case Failed => Failed
      case Parsed(key, rest) =>
        if rest == [] || rest[0] != COLON then Failed
        else
          match ParseValue(rest[1..])
          case Failed => Failed
          case Parsed(v, after) => Parsed(TreeMember(key, v), after)
  }

  function ParseMembers(t: Str): (r: Parsed<seq<TreeMember>>)
    ensures r.Parsed? ==> |r.rest| < |t|
    decreases |t|, 2
  {
    match ParseMember(t)
    case Failed => Failed
    case Parsed(m, rest) =>
      if rest == [] then Failed
      else if rest[0] == CLOSE_BRACE then Parsed([m], rest[1..])
      else if rest[0] != COMMA then Failed
      else
        match ParseMembers(rest[1..])
        case Failed => Failed
        case Parsed(ms, after) => Parsed([m] + ms, after)
  }

  // ---------------------------------------------------------------------------
  // What `json.loads` makes of a parsed text

  /** Plain digits are an int, any other numeral a float. A zero fraction, which
      neither side prints, would be read as an int here. */
  function LoadsNumber(n: Numeral): Json {
    if n.scientific || n.num.exponent < 0 then JFloat(Finite(n.num.negative, n.num.digits, n.num.exponent))
    else
      var magnitude: int := FromDigits(n.num.digits + Zeros(n.num.exponent));
      JInt(if n.num.negative then -magnitude else magnitude)
  }

  function Loads(t: Tree): Json
    decreases t, 1
  {
    match t
    case TNull => JNull
    case TBool(b) => JBool(b)
    case TNumber(n) => LoadsNumber(n)
    case TString(s) => JString(Joined(s))
    case TArray(items) => JArray(LoadsItems(items))
    case TObject(ms) => JObject(LoadsMembers(ms))
  }

  function LoadsItems(items: seq<Tree>): (r: seq<Json>)
    decreases items, 0
  {
    if items == [] then [] else [Loads(items[0])] + LoadsItems(items[1..])
  }

  /** A repeated key keeps its first place and takes its last value. */
  function LoadsMembers(ms: seq<TreeMember>): (r: seq<Member>)
    decreases ms, 0
  {
    if ms == [] then []
    else
      var last := ms[|ms| - 1];
      Put(LoadsMembers(ms[..|ms| - 1]), Joined(last.key), Loads(last.value))
  }

  /** `json.loads`. */
  function LoadsText(text: Str): Option<Json> {
    match ParseValue(text)
    case Failed => None
    case Parsed(t, rest) => if rest == [] then Some(Loads(t)) else None
  }

  // ---------------------------------------------------------------------------
  // The parser undoes the printer

  /** What can follow a value. */
  predicate Follows(rest: Str) {
    rest == [] || rest[0] in {COMMA, CLOSE_BRACKET, CLOSE_BRACE}
  }

  lemma DigitTextChars(ds: Digits)
    ensures forall i :: 0 <= i < |DigitText(ds)| ==> NumberChar(DigitText(ds)[i])
  {}

  lemma NumeralChars(n: Numeral)
    ensures forall i :: 0 <= i < |NumeralText(n)| ==> NumberChar(NumeralText(n)[i])
  {
    var p := NumeralParts(n);
    DigitTextChars(p.whole);
    DigitTextChars(p.fraction);
    if p.exponent.Power? {
      DigitTextChars(DigitsOf(Abs(p.exponent.value)));
    }
  }

  lemma {:induction false} NumberLengthOf(s: Str, rest: Str)
    requires forall i :: 0 <= i < |s| ==> NumberChar(s[i])
    requires Follows(rest)
    ensures NumberLength(s + rest) == |s|
  {
    if s == [] {
      assert s + rest == rest;
    } else {
      assert (s + rest)[1..] == s[1..] + rest;
      NumberLengthOf(s[1..], rest);
    }
  }

  lemma ParseNumberToken(s: Str, rest: Str)
    requires s != [] && forall i :: 0 <= i < |s| ==> NumberChar(s[i])
    requires Follows(rest)
    ensures ParseValue(s + rest) == Parsed(TNumber(ReadNumeral(s)), rest)
  {
    var t := s + rest;
    NumberLengthOf(s, rest);
    assert t[0] == s[0];
    assert ParseValue(t) == ParseScalar(t);
    SplitAt(s, rest);
  }

  lemma SplitAt(s: Str, rest: Str)
    ensures (s + rest)[..|s|] == s && (s + rest)[|s|..] == rest
  {}

  lemma ParseNumberBack(n: Numeral, rest: Str)
    requires Follows(rest)
    ensures ParseValue(NumeralText(n) + rest) == Parsed(TNumber(n), rest)
  {
    NumeralStart(n);
    NumeralChars(n);
    NumeralRoundTrip(n);
    ParseNumberToken(NumeralText(n), rest);
  }

  lemma ParseLiteralBack(v: Tree, rest: Str)
    requires v.TNull? || v.TBool?
    ensures ParseValue(TreeText(v) + rest) == Parsed(v, rest)
  {
    var s := TreeText(v);
    var t := s + rest;
    assert t[0] == s[0];
    assert t[|s|..] == rest;
    assert s <= t;
  }

  lemma ParseStringBack(s: Str, rest: Str)
    ensures ParseValue(EsString(s) + rest) == Parsed(TString(s), rest)
  {
    EsStringSplit(s, rest);
    ReadBackBody(s, rest);
  }

  lemma {:induction false} ParseBack(v: Tree, rest: Str)
    requires Follows(rest)
    ensures ParseValue(TreeText(v) + rest) == Parsed(v, rest)
    decreases v, 2
  {
    match v
    case TNumber(n) => ParseNumberBack(n, rest);
    case TString(s) => ParseStringBack(s, rest);
    case TNull => ParseLiteralBack(v, rest);
    case TBool(b) => ParseLiteralBack(v, rest);
    case TArray(items) =>
      Assoc([OPEN_BRACKET], JoinComma(TreeTexts(items)) + [CLOSE_BRACKET], rest);
      Assoc(JoinComma(TreeTexts(items)), [CLOSE_BRACKET], rest);
      if items == [] {
        ParseEmpty(OPEN_BRACKET, CLOSE_BRACKET, rest);
      } else {
        ParseItemsBack(items, rest);
        ValueStart(items[0]);
        JoinStart(TreeTexts(items));
        ParseOpen(OPEN_BRACKET, JoinComma(TreeTexts(items)) + ([CLOSE_BRACKET] + rest));
      }
    case TObject(ms) =>
      Assoc([OPEN_BRACE], JoinComma(TreeMemberTexts(ms)) + [CLOSE_BRACE], rest);
      Assoc(JoinComma(TreeMemberTexts(ms)), [CLOSE_BRACE], rest);
      if ms == [] {
        ParseEmpty(OPEN_BRACE, CLOSE_BRACE, rest);
      } else {
        ParseMembersBack(ms, rest);
        JoinStart(TreeMemberTexts(ms));
        ParseOpen(OPEN_BRACE, JoinComma(TreeMemberTexts(ms)) + ([CLOSE_BRACE] + rest));
      }
  }

  lemma ParseEmpty(open: Unit, close: Unit, rest: Str)
    requires (open == OPEN_BRACKET && close == CLOSE_BRACKET) || (open == OPEN_BRACE && close == CLOSE_BRACE)
    ensures ParseValue([open] + ([] + ([close] + rest)))
         == Parsed(if open == OPEN_BRACE then TObject([]) else TArray([]), rest)
  {
    var t := [open] + ([] + ([close] + rest));
    assert t[1] == close;
    assert t[2..] == rest;
  }

  lemma ParseOpen(open: Unit, body: Str)
    requires body != [] && open in {OPEN_BRACKET, OPEN_BRACE}
    requires body[0] != if open == OPEN_BRACKET then CLOSE_BRACKET else CLOSE_BRACE
    ensures open == OPEN_BRACKET && ParseItems(body).Parsed?
            ==> ParseValue([open] + body) == Parsed(TArray(ParseItems(body).value), ParseItems(body).rest)
    ensures open == OPEN_BRACE && ParseMembers(body).Parsed?
            ==> ParseValue([open] + body) == Parsed(TObject(ParseMembers(body).value), ParseMembers(body).rest)
  {
    var t := [open] + body;
    assert t[1] == body[0];
    assert t[1..] == body;
  }

  /** A value's text never starts with a closing bracket. */
  lemma ValueStart(v: Tree)
    ensures TreeText(v) != [] && TreeText(v)[0] != CLOSE_BRACKET
  {
    if v.TNumber? {
      NumeralStart(v.n);
    }
  }

  lemma JoinStart(parts: seq<Str>)
    requires parts != [] && parts[0] != []
    ensures JoinComma(parts) != [] && JoinComma(parts)[0] == parts[0][0]
  {}

  lemma JoinMore(parts: seq<Str>, after: Str)
    requires |parts| > 1
    ensures JoinComma(parts) + after == parts[0] + ([COMMA] + (JoinComma(parts[1..]) + after))
  {
    Assoc(parts[0], [COMMA] + JoinComma(parts[1..]), after);
    Assoc([COMMA], JoinComma(parts[1..]), after);
  }

  lemma {:induction false} ParseItemsBack(items: seq<Tree>, rest: Str)
    requires items != []
    ensures ParseItems(JoinComma(TreeTexts(items)) + ([CLOSE_BRACKET] + rest)) == Parsed(items, rest)
    decreases items, 0
  {
    var close := [CLOSE_BRACKET] + rest;
    var texts := TreeTexts(items);
    assert texts[0] == TreeText(items[0]);
    assert texts[1..] == TreeTexts(items[1..]);
    if |items| == 1 {
      ParseBack(items[0], close);
      assert items == [items[0]];
    } else {
      var more := JoinComma(texts[1..]) + close;
      JoinMore(texts, close);
      ParseBack(items[0], [COMMA] + more);
      assert ([COMMA] + more)[1..] == more;
      ParseItemsBack(items[1..], rest);
      assert items == [items[0]] + items[1..];
    }
  }

  lemma {:induction false} ParseMemberBack(m: TreeMember, rest: Str)
    requires Follows(rest)
    ensures ParseMember(TreeMemberText(m) + rest) == Parsed(m, rest)
    decreases m, 0
  {
    var colon := [COLON] + TreeText(m.value);
    Assoc(EsString(m.key), colon, rest);
    Assoc([COLON], TreeText(m.value), rest);
    EsStringSplit(m.key, colon + rest);
    ReadBackBody(m.key, colon + rest);
    assert (colon + rest)[1..] == TreeText(m.value) + rest;
    ParseBack(m.value, rest);
  }

  lemma {:induction false} ParseMembersBack(ms: seq<TreeMember>, rest: Str)
    requires ms != []
    ensures ParseMembers(JoinComma(TreeMemberTexts(ms)) + ([CLOSE_BRACE] + rest)) == Parsed(ms, rest)
    decreases ms, 0
  {
    var close := [CLOSE_BRACE] + rest;
    var texts := TreeMemberTexts(ms);
    assert texts[1..] == TreeMemberTexts(ms[1..]);
    if |ms| == 1 {
      ParseMemberBack(ms[0], close);
      assert ms == [ms[0]];
    } else {
      var more := JoinComma(texts[1..]) + close;
      JoinMore(texts, close);
      ParseMemberBack(ms[0], [COMMA] + more);
      assert ([COMMA] + more)[1..] == more;
      ParseMembersBack(ms[1..], rest);
      assert ms == [ms[0]] + ms[1..];
    }
  }

  /** Main result: the canonical text of any value parses to its normal form. */
  lemma CanonicalParses(v: Json)
    ensures ParseValue(Canonical(v)) == Parsed(Normal(v), [])
  {
    CanonicalIsTreeText(v);
    ParseBack(Normal(v), []);
    assert Canonical(v) + [] == Canonical(v);
  }

  /** Two values have one text exactly when they have one normal form. */
  lemma CanonicalInjective(v: Json, w: Json)
    ensures Canonical(v) == Canonical(w) <==> Normal(v) == Normal(w)
  {
    CanonicalParses(v);
    CanonicalParses(w);
    CanonicalIsTreeText(v);
    CanonicalIsTreeText(w);
  }

  // ---------------------------------------------------------------------------
  // What the text forgets

  /** A float and an integer print alike only when they are the same number. */
  lemma IntFloatSameNumber(i: int, f: ValidFloats)
    requires Canonical(JInt(i)) == Canonical(JFloat(f)) && !f.NonFinite?
    ensures var d := FloatNum(f); Denoted(d.negative, d.digits, d.exponent) == i as real
  {
    CanonicalInjective(JInt(i), JFloat(f));
    IntTextReadsBack(i);
  }

  ghost predicate DistinctUtf16(ms: seq<Member>) {
    forall i, j :: 0 <= i < j < |ms| ==> Utf16Key(ms[i].key) != Utf16Key(ms[j].key)
  }

  lemma Utf16KeyInjective(a: Str, b: Str)
    requires NoSplitPair(a) && NoSplitPair(b)
    ensures Utf16Key(a) == Utf16Key(b) <==> a == b
  {
    if Utf16Key(a) == Utf16Key(b) {
      LexTotal(Utf16Key(a), Utf16Key(b));
      ByteOrderIsUnitOrder(Encode(a), Encode(b));
      ByteOrderIsUnitOrder(Encode(b), Encode(a));
      LexTotal(Encode(a), Encode(b));
      EncodeInjective(a, b);
    }
  }

  lemma {:induction false} NormalEntriesConcat(a: seq<Member>, b: seq<Member>)
    ensures NormalEntries(a + b) == NormalEntries(a) + NormalEntries(b)
  {}

  lemma MultisetMiddle<T>(a: seq<T>, x: seq<T>, b: seq<T>)
    ensures multiset(a + (x + b)) == multiset(x) + multiset(a + b)
  {}

  lemma RemoveAt<T>(s: seq<T>, i: nat)
    requires i < |s|
    ensures s == s[..i] + ([s[i]] + s[i + 1..])
    ensures multiset(s) == multiset([s[i]]) + multiset(s[..i] + s[i + 1..])
  {
    assert s == s[..i] + ([s[i]] + s[i + 1..]);
    MultisetMiddle(s[..i], [s[i]], s[i + 1..]);
  }

  lemma CancelMultiset<T>(x: multiset<T>, a: multiset<T>, b: multiset<T>)
    requires x + a == x + b
    ensures a == b
  {
    assert x + a - x == a && x + b - x == b;
  }

  lemma EntriesRemoveAt(ms: seq<Member>, i: nat)
    requires i < |ms|
    ensures var rest := ms[..i] + ms[i + 1..];
            multiset(NormalEntries(ms)) == multiset(NormalEntries([ms[i]])) + multiset(NormalEntries(rest))
  {
    var left, right := ms[..i], ms[i + 1..];
    RemoveAt(ms, i);
    NormalEntriesConcat(left, [ms[i]] + right);
    NormalEntriesConcat([ms[i]], right);
    NormalEntriesConcat(left, right);
    MultisetMiddle(NormalEntries(left), NormalEntries([ms[i]]), NormalEntries(right));
  }

  lemma {:induction false} EntriesPermuted(ms: seq<Member>, ns: seq<Member>)
    requires multiset(ms) == multiset(ns)
    ensures multiset(NormalEntries(ms)) == multiset(NormalEntries(ns))
  {
    assert |ms| == |multiset(ms)| && |ns| == |multiset(ns)|;
    if ms != [] {
      assert ms[0] in multiset(ns);
      var i :| 0 <= i < |ns| && ns[i] == ms[0];
      RemoveAt(ns, i);
      RemoveAt(ms, 0);
      EntriesRemoveAt(ns, i);
      EntriesRemoveAt(ms, 0);
      CancelMultiset(multiset([ms[0]]), multiset(ms[..0] + ms[1..]), multiset(ns[..i] + ns[i + 1..]));
      EntriesPermuted(ms[..0] + ms[1..], ns[..i] + ns[i + 1..]);
    }
  }

  lemma {:induction false} SortKeepsKeys(es: seq<Entry<TreeMember>>)
    requires forall e :: e in es ==> e.order == Utf16Key(e.item.key)
    ensures forall e :: e in Sort(es) ==> e.order == Utf16Key(e.item.key)
  {
    SortSorts(es);
    forall e | e in Sort(es)
      ensures e.order == Utf16Key(e.item.key)
    {
      assert e in multiset(Sort(es));
    }
  }

  lemma SameItemsSameEntries(a: seq<Entry<TreeMember>>, b: seq<Entry<TreeMember>>)
    requires forall e :: e in a ==> e.order == Utf16Key(e.item.key)
    requires forall e :: e in b ==> e.order == Utf16Key(e.item.key)
    requires Items(a) == Items(b)
    ensures a == b
  {
    assert |a| == |Items(a)| == |b|;
    forall i | 0 <= i < |a|
      ensures a[i] == b[i]
    {
      assert a[i] in a && b[i] in b;
      assert Items(a)[i] == Items(b)[i];
    }
  }

  /** Objects print alike exactly when their sorted entries are the same. */
  lemma ObjectTexts(ms: seq<Member>, ns: seq<Member>)
    ensures Canonical(JObject(ms)) == Canonical(JObject(ns))
        <==> Sort(NormalEntries(ms)) == Sort(NormalEntries(ns))
  {
    CanonicalInjective(JObject(ms), JObject(ns));
    var a, b := Sort(NormalEntries(ms)), Sort(NormalEntries(ns));
    assert Normal(JObject(ms)) == TObject(Items(a));
    assert Normal(JObject(ns)) == TObject(Items(b));
    SortKeepsKeys(NormalEntries(ms));
    SortKeepsKeys(NormalEntries(ns));
    if Items(a) == Items(b) {
      SameItemsSameEntries(a, b);
    }
  }

  /** Insertion order is invisible when the keys' UTF-16 forms are distinct. */
  lemma InsertionOrderInvisible(ms: seq<Member>, ns: seq<Member>)
    requires multiset(ms) == multiset(ns) && DistinctUtf16(ms)
    ensures Canonical(JObject(ms)) == Canonical(JObject(ns))
  {
    var a, b := NormalEntries(ms), NormalEntries(ns);
    EntriesPermuted(ms, ns);
    assert DistinctOrders(a);
    SortIgnoresOrder(a, b);
    ObjectTexts(ms, ns);
  }

  /** Every member of one object has a member of the other with its key and a value
      of the same text. */
  ghost predicate MembersWithin(ms: seq<Member>, ns: seq<Member>) {
    forall i :: 0 <= i < |ms| ==> HasMember(ns, ms[i].key, Normal(ms[i].value))
  }

  ghost predicate HasMember(ns: seq<Member>, key: Str, value: Tree) {
    exists j :: 0 <= j < |ns| && ns[j].key == key && Normal(ns[j].value) == value
  }

  lemma {:induction false} DistinctCounts<T>(es: seq<Entry<T>>, e: Entry<T>)
    requires DistinctOrders(es)
    ensures multiset(es)[e] == if e in es then 1 else 0
  {
    if es != [] {
      var rest := es[1..];
      assert es == [es[0]] + rest;
      forall i, j | 0 <= i < j < |rest|
        ensures rest[i].order != rest[j].order
      {
        assert rest[i] == es[i + 1] && rest[j] == es[j + 1];
      }
      DistinctCounts(rest, e);
      assert forall k :: 0 <= k < |rest| ==> rest[k].order != es[0].order;
    }
  }

  ghost predicate Within<T>(a: seq<Entry<T>>, b: seq<Entry<T>>) {
    forall i :: 0 <= i < |a| ==> a[i] in b
  }

  lemma EntriesWithin(ms: seq<Member>, ns: seq<Member>)
    ensures MembersWithin(ms, ns) <==> Within(NormalEntries(ms), NormalEntries(ns))
  {
    var a, b := NormalEntries(ms), NormalEntries(ns);
    if MembersWithin(ms, ns) {
      forall i | 0 <= i < |a|
        ensures a[i] in b
      {
        assert HasMember(ns, ms[i].key, Normal(ms[i].value));
        var j :| 0 <= j < |ns| && ns[j].key == ms[i].key && Normal(ns[j].value) == Normal(ms[i].value);
        assert b[j] == a[i];
      }
    }
    if Within(a, b) {
      forall i | 0 <= i < |ms|
        ensures HasMember(ns, ms[i].key, Normal(ms[i].value))
      {
        assert a[i] in b;
        var j :| 0 <= j < |b| && b[j] == a[i];
        assert ns[j].key == ms[i].key;
      }
    }
  }

  /** So when the UTF-16 forms are distinct only the order of the members is left open. */
  lemma SameTextDistinctMembers(ms: seq<Member>, ns: seq<Member>)
    requires DistinctUtf16(ms) && DistinctUtf16(ns)
    ensures Canonical(JObject(ms)) == Canonical(JObject(ns)) <==> MembersWithin(ms, ns) && MembersWithin(ns, ms)
  {
    var a, b := NormalEntries(ms), NormalEntries(ns);
    ObjectTexts(ms, ns);
    EntriesWithin(ms, ns);
    EntriesWithin(ns, ms);
    SortSorts(a);
    SortSorts(b);
    assert DistinctOrders(a) && DistinctOrders(b);
    if Sort(a) == Sort(b) {
      assert multiset(a) == multiset(b);
      SameMultisetWithin(a, b);
      SameMultisetWithin(b, a);
    }
    if Within(a, b) && Within(b, a) {
      SameEntriesSameMultiset(a, b);
      SortIgnoresOrder(a, b);
    }
  }

  lemma SameMultisetWithin<T>(a: seq<Entry<T>>, b: seq<Entry<T>>)
    requires multiset(a) == multiset(b)
    ensures Within(a, b)
  {
    forall i | 0 <= i < |a|
      ensures a[i] in b
    {
      assert a[i] in multiset(a);
    }
  }

  lemma SameEntriesSameMultiset<T>(a: seq<Entry<T>>, b: seq<Entry<T>>)
    requires DistinctOrders(a) && DistinctOrders(b)
    requires Within(a, b) && Within(b, a)
    ensures multiset(a) == multiset(b)
  {
    forall e
      ensures multiset(a)[e] == multiset(b)[e]
    {
      DistinctCounts(a, e);
      DistinctCounts(b, e);
    }
  }

  /** What one text leaves open about a number: the sign of zero, an integer against
      the float of the same value printed without an exponent, and which non-finite
      float (or null) it was. */
  lemma SameTextSameNumber(i: int, j: int, f: ValidFloats, g: ValidFloats)
    ensures Canonical(JInt(i)) == Canonical(JInt(j)) <==> i == j
    ensures Canonical(JFloat(f)) == Canonical(JNull) <==> f.NonFinite?
    ensures Canonical(JFloat(f)) == Canonical(JFloat(g)) <==>
            (f.NonFinite? && g.NonFinite?) || (!f.NonFinite? && !g.NonFinite? && FloatNum(f) == FloatNum(g))
    ensures Canonical(JInt(i)) == Canonical(JFloat(f)) <==>
            !f.NonFinite? && FloatNum(f) == IntNum(i) && !Scientific(FloatNum(f))
  {
    CanonicalInjective(JInt(i), JInt(j));
    CanonicalInjective(JFloat(f), JNull);
    CanonicalInjective(JFloat(f), JFloat(g));
    CanonicalInjective(JInt(i), JFloat(f));
    IntTextReadsBack(i);
    IntTextReadsBack(j);
  }

  /** The entries with one sort key, in order. */
  function WithOrder<T>(es: seq<Entry<T>>, order: seq<int>): seq<Entry<T>> {
    if es == [] then []
    else if es[0].order == order then [es[0]] + WithOrder(es[1..], order)
    else WithOrder(es[1..], order)
  }

  lemma {:induction false} InsertStable<T>(e: Entry<T>, es: seq<Entry<T>>, order: seq<int>)
    ensures WithOrder(Insert(e, es), order) == WithOrder([e] + es, order)
  {
    if es != [] && !LexLeq(e.order, es[0].order) {
      InsertStable(e, es[1..], order);
      LexTotal(es[0].order, es[0].order);
      assert ([e] + es)[1..] == es && ([e] + es[1..])[1..] == es[1..];
    }
  }

  lemma {:induction false} SortStable<T>(es: seq<Entry<T>>, order: seq<int>)
    ensures WithOrder(Sort(es), order) == WithOrder(es, order)
  {
    if es != [] {
      SortStable(es[1..], order);
      InsertStable(es[0], Sort(es[1..]), order);
      assert ([es[0]] + Sort(es[1..]))[1..] == Sort(es[1..]);
    }
  }

  lemma {:induction false} FirstWithOrder<T>(es: seq<Entry<T>>, i: nat, order: seq<int>)
    requires i < |es| && es[i].order == order && forall k :: 0 <= k < i ==> es[k].order != order
    ensures WithOrder(es, order) != [] && WithOrder(es, order)[0] == es[i]
  {
    if i > 0 {
      FirstWithOrder(es[1..], i - 1, order);
    }
  }

  lemma {:induction false} GroupMember<T>(es: seq<Entry<T>>, order: seq<int>) returns (i: nat)
    requires WithOrder(es, order) != []
    ensures i < |es| && es[i].order == order
  {
    if es[0].order == order {
      i := 0;
    } else {
      i := GroupMember(es[1..], order);
      i := i + 1;
    }
  }

  ghost predicate SameGroups<T>(a: seq<Entry<T>>, b: seq<Entry<T>>) {
    forall order :: WithOrder(a, order) == WithOrder(b, order)
  }

  lemma SameGroupsHead<T>(a: seq<Entry<T>>, b: seq<Entry<T>>)
    requires Sorted(a) && Sorted(b) && SameGroups(a, b) && a != []
    ensures b != [] && a[0] == b[0]
  {
    FirstWithOrder(a, 0, a[0].order);
    var i := GroupMember(b, a[0].order);
    FirstWithOrder(b, 0, b[0].order);
    var j := GroupMember(a, b[0].order);
    LexTotal(a[0].order, b[0].order);
  }

  lemma SameGroupsTail<T>(a: seq<Entry<T>>, b: seq<Entry<T>>)
    requires SameGroups(a, b) && a != [] && b != [] && a[0] == b[0]
    ensures SameGroups(a[1..], b[1..])
  {
    forall order
      ensures WithOrder(a[1..], order) == WithOrder(b[1..], order)
    {
      var x, y := WithOrder(a[1..], order), WithOrder(b[1..], order);
      assert WithOrder(a, order) == WithOrder(b, order);
      if a[0].order == order {
        assert ([a[0]] + x)[1..] == x && ([b[0]] + y)[1..] == y;
      }
    }
  }

  /** A sorted list is determined by its groups of one key. */
  lemma {:induction false} SortedByGroups<T>(a: seq<Entry<T>>, b: seq<Entry<T>>)
    requires Sorted(a) && Sorted(b) && SameGroups(a, b)
    ensures a == b
    decreases |a|
  {
    if a != [] {
      SameGroupsHead(a, b);
      SameGroupsTail(a, b);
      SortedByGroups(a[1..], b[1..]);
      assert a == [a[0]] + a[1..] && b == [b[0]] + b[1..];
    } else if b != [] {
      SameGroupsHead(b, a);
    }
  }

  /** What one text leaves open about an object, for all dicts: the order of members
      with different UTF-16 keys, and within each value what that value's own text
      leaves open. The order of members that share a UTF-16 key is not left open. */
  lemma SameTextSameMembers(ms: seq<Member>, ns: seq<Member>)
    ensures Canonical(JObject(ms)) == Canonical(JObject(ns)) <==> SameGroups(NormalEntries(ms), NormalEntries(ns))
  {
    var a, b := NormalEntries(ms), NormalEntries(ns);
    ObjectTexts(ms, ns);
    SortSorts(a);
    SortSorts(b);
    forall order
      ensures WithOrder(Sort(a), order) == WithOrder(a, order)
      ensures WithOrder(Sort(b), order) == WithOrder(b, order)
    {
      SortStable(a, order);
      SortStable(b, order);
    }
    if SameGroups(a, b) {
      SortedByGroups(Sort(a), Sort(b));
    }
  }

  /** Two members whose keys share a UTF-16 form, the first of them at `i`: moving
      the other one to the front changes the text. */
  lemma InsertionOrderVisible(ms: seq<Member>, i: nat, j: nat)
    requires i < j < |ms| && ms[i].key != ms[j].key && Utf16Key(ms[i].key) == Utf16Key(ms[j].key)
    requires forall k :: 0 <= k < i ==> Utf16Key(ms[k].key) != Utf16Key(ms[j].key)
    ensures var ns := [ms[j]] + (ms[..j] + ms[j + 1..]);
            multiset(ns) == multiset(ms) && Canonical(JObject(ns)) != Canonical(JObject(ms))
  {
    var ns := [ms[j]] + (ms[..j] + ms[j + 1..]);
    RemoveAt(ms, j);
    assert multiset(ns) == multiset([ms[j]]) + multiset(ms[..j] + ms[j + 1..]);
    var order := Utf16Key(ms[j].key);
    var a, b := NormalEntries(ms), NormalEntries(ns);
    FirstWithOrder(a, i, order);
    FirstWithOrder(b, 0, order);
    SortStable(a, order);
    SortStable(b, order);
    assert a[i].item.key != b[0].item.key;
    ObjectTexts(ns, ms);
  }

  ghost predicate OrderInvisible(ms: seq<Member>) {
    forall ns: seq<Member> :: multiset(ns) == multiset(ms) ==> Canonical(JObject(ns)) == Canonical(JObject(ms))
  }

  /** Exactly when insertion order is irrelevant: no two keys share a UTF-16 form,
      as a split surrogate pair and its joined character do. */
  lemma InsertionOrderCondition(ms: seq<Member>)
    requires DistinctKeys(ms)
    ensures OrderInvisible(ms) <==> DistinctUtf16(ms)
    ensures (forall m :: m in ms ==> NoSplitPair(m.key)) ==> DistinctUtf16(ms)
  {
    if DistinctUtf16(ms) {
      forall ns: seq<Member> | multiset(ns) == multiset(ms)
        ensures Canonical(JObject(ns)) == Canonical(JObject(ms))
      {
        InsertionOrderInvisible(ms, ns);
      }
    } else {
      var i, j := FirstClash(ms);
      InsertionOrderVisible(ms, i, j);
      if forall m :: m in ms ==> NoSplitPair(m.key) {
        Utf16KeyInjective(ms[i].key, ms[j].key);
      }
    }
  }

  lemma FirstClash(ms: seq<Member>) returns (i: nat, j: nat)
    requires !DistinctUtf16(ms)
    ensures i < j < |ms| && Utf16Key(ms[i].key) == Utf16Key(ms[j].key)
    ensures forall k :: 0 <= k < i ==> Utf16Key(ms[k].key) != Utf16Key(ms[j].key)
  {
    var p, q :| 0 <= p < q < |ms| && Utf16Key(ms[p].key) == Utf16Key(ms[q].key);
    i, j := 0, q;
    while Utf16Key(ms[i].key) != Utf16Key(ms[j].key)
      invariant i <= p
      invariant forall k :: 0 <= k < i ==> Utf16Key(ms[k].key) != Utf16Key(ms[j].key)
      decreases p - i
    {
      i := i + 1;
    }
  }

  // ---------------------------------------------------------------------------
  // `approval_bind`

  const APPROVAL_PARAM: seq<Unit> := // _openclaw_approval
    [0x5F, 0x6F, 0x70, 0x65, 0x6E, 0x63, 0x6C, 0x61, 0x77, 0x5F, 0x61, 0x70, 0x70, 0x72, 0x6F, 0x76, 0x61, 0x6C]
  const CALLER_PARAM: seq<Unit> := // _openclaw_caller
    [0x5F, 0x6F, 0x70, 0x65, 0x6E, 0x63, 0x6C, 0x61, 0x77, 0x5F, 0x63, 0x61, 0x6C, 0x6C, 0x65, 0x72]
  const COMMAND_KEY: seq<Unit> := [0x63, 0x6F, 0x6D, 0x6D, 0x61, 0x6E, 0x64]
  const ACTION_KEY: seq<Unit> := [0x61, 0x63, 0x74, 0x69, 0x6F, 0x6E]
  const PARAMS_KEY: seq<Unit> := [0x70, 0x61, 0x72, 0x61, 0x6D, 0x73]

  /** The params without the reserved fields. */
  function CallBody(params: seq<Member>): seq<Member> {
    Without(Without(params, APPROVAL_PARAM), CALLER_PARAM)
  }

  function CallMembers(command: Str, action: Str, params: seq<Member>): seq<Member> {
    [Member(COMMAND_KEY, JString(command)),
     Member(ACTION_KEY, JString(action)),
     Member(PARAMS_KEY, JObject(CallBody(params)))]
  }

  /** The text `approval_bind` hashes. */
  function BindText(command: Str, action: Str, params: seq<Member>): Str {
    Canonical(JObject(CallMembers(command, action, params)))
  }

  lemma FirstUnitDecides(a: seq<Unit>, b: seq<Unit>)
    requires a != [] && b != [] && a[0] < b[0]
    ensures LexLeq(Utf16Key(a), Utf16Key(b)) && !LexLeq(Utf16Key(b), Utf16Key(a))
  {
    EncodeBasic(a);
    EncodeBasic(b);
    ByteOrderIsUnitOrder(a, b);
    ByteOrderIsUnitOrder(b, a);
  }

  lemma SortThree<T>(c: Entry<T>, a: Entry<T>, p: Entry<T>)
    requires LexLeq(a.order, p.order) && LexLeq(c.order, p.order) && !LexLeq(c.order, a.order)
    ensures Sort([c, a, p]) == [a, c, p]
  {
    assert [p][1..] == [] && [a, p][1..] == [p] && [c, a, p][1..] == [a, p];
    assert Insert(c, [p]) == [c, p] && Insert(a, [p]) == [a, p];
    assert Insert(c, [a, p]) == [a] + Insert(c, [p]);
    assert Sort([p]) == [p];
    assert Sort([a, p]) == [a, p];
  }

  lemma NormalObject(ms: seq<Member>)
    ensures Normal(JObject(ms)) == TObject(Items(Sort(NormalEntries(ms))))
  {}

  /** Three members that sort as second, first, third. */
  ghost predicate CallOrder(ms: seq<Member>) {
    && |ms| == 3
    && LexLeq(Utf16Key(ms[1].key), Utf16Key(ms[2].key))
    && LexLeq(Utf16Key(ms[0].key), Utf16Key(ms[2].key))
    && !LexLeq(Utf16Key(ms[0].key), Utf16Key(ms[1].key))
  }

  lemma NormalThree(ms: seq<Member>)
    requires CallOrder(ms)
    ensures Normal(JObject(ms))
         == TObject([TreeMember(ms[1].key, Normal(ms[1].value)),
                     TreeMember(ms[0].key, Normal(ms[0].value)),
                     TreeMember(ms[2].key, Normal(ms[2].value))])
  {
    var es := NormalEntries(ms);
    assert es == [es[0], es[1], es[2]];
    SortThree(es[0], es[1], es[2]);
    NormalObject(ms);
    assert Items([es[1], es[0], es[2]]) == [es[1].item, es[0].item, es[2].item];
  }

  lemma SameCall(ms: seq<Member>, ns: seq<Member>)
    requires CallOrder(ms) && CallOrder(ns)
    requires ms[0].key == ns[0].key && ms[1].key == ns[1].key && ms[2].key == ns[2].key
    ensures Canonical(JObject(ms)) == Canonical(JObject(ns))
        <==> (Normal(ms[0].value) == Normal(ns[0].value)
              && Normal(ms[1].value) == Normal(ns[1].value)
              && Normal(ms[2].value) == Normal(ns[2].value))
  {
    CanonicalInjective(JObject(ms), JObject(ns));
    NormalThree(ms);
    NormalThree(ns);
    var a, b := Normal(JObject(ms)).members, Normal(JObject(ns)).members;
    if a == b {
      assert a[0] == b[0] && a[1] == b[1] && a[2] == b[2];
    }
  }

  lemma CallKeysInOrder(ms: seq<Member>)
    requires |ms| == 3 && ms[0].key == COMMAND_KEY && ms[1].key == ACTION_KEY && ms[2].key == PARAMS_KEY
    ensures CallOrder(ms)
  {
    FirstUnitDecides(ACTION_KEY, COMMAND_KEY);
    FirstUnitDecides(ACTION_KEY, PARAMS_KEY);
    FirstUnitDecides(COMMAND_KEY, PARAMS_KEY);
  }

  lemma NormalString(s: Str)
    ensures Normal(JString(s)) == TString(s)
  {}

  lemma CallMembersShape(command: Str, action: Str, params: seq<Member>)
    ensures var ms := CallMembers(command, action, params);
            && CallOrder(ms)
            && ms[0].key == COMMAND_KEY && ms[1].key == ACTION_KEY && ms[2].key == PARAMS_KEY
            && Normal(ms[0].value) == TString(command)
            && Normal(ms[1].value) == TString(action)
            && ms[2].value == JObject(CallBody(params))
  {
    CallKeysInOrder(CallMembers(command, action, params));
    NormalString(command);
    NormalString(action);
  }

  lemma LiteralsSpelled()
    ensures Name("true") == TRUE_TEXT && Name("false") == FALSE_TEXT && Name("null") == NULL_TEXT
    ensures Name("command") == COMMAND_KEY && Name("action") == ACTION_KEY && Name("params") == PARAMS_KEY
  {}

  /** The key of a member with its colon, for a plain key. */
  function KeyText(key: Str): Str {
    [QUOTE] + key + [QUOTE] + [COLON]
  }

  lemma MemberText(key: Str, text: Str)
    requires PlainText(key)
    ensures EsString(key) + ([COLON] + text) == KeyText(key) + text
  {
    EsBodyPlain(key);
    Assoc(EsString(key), [COLON], text);
  }

  lemma CanonicalThree(ms: seq<Member>)
    requires CallOrder(ms)
    ensures var es := MemberEntries(ms);
            Canonical(JObject(ms)) == [OPEN_BRACE] + (JoinComma([es[1].item, es[0].item, es[2].item]) + [CLOSE_BRACE])
  {
    var es := MemberEntries(ms);
    MemberEntriesAt(ms);
    assert es == [es[0], es[1], es[2]];
    SortThree(es[0], es[1], es[2]);
    assert Items([es[1], es[0], es[2]]) == [es[1].item, es[0].item, es[2].item];
  }

  lemma MemberEntriesAt(ms: seq<Member>)
    requires |ms| == 3
    ensures forall i :: 0 <= i < 3 ==>
              var text := EsString(ms[i].key) + ([COLON] + Canonical(ms[i].value));
              MemberEntries(ms)[i] == Entry(Utf16Key(ms[i].key), text)
  {
    var es := MemberEntries(ms);
    assert es[1..] == MemberEntries(ms[1..]) && es[1..][1..] == MemberEntries(ms[1..][1..]);
    assert ms[1..][0] == ms[1] && ms[1..][1..][0] == ms[2];
    assert es[1..][0] == es[1] && es[1..][1..][0] == es[2];
  }

  lemma JoinThree(a: Str, b: Str, c: Str)
    ensures JoinComma([a, b, c]) == a + ([COMMA] + (b + ([COMMA] + c)))
  {
    assert [a, b, c][1..] == [b, c] && [b, c][1..] == [c];
    assert Join<CodePoint>([c], COMMA) == c;
    assert Join<CodePoint>([b, c], COMMA) == b + ([COMMA] + c);
  }

  lemma FrontsSpelled()
    ensures Name("{\"action\":") == [OPEN_BRACE] + KeyText(ACTION_KEY)
    ensures Name(",\"command\":") == [COMMA] + KeyText(COMMAND_KEY)
    ensures Name(",\"params\":") == [COMMA] + KeyText(PARAMS_KEY)
    ensures Name("}") == [CLOSE_BRACE]
    ensures PlainText(ACTION_KEY) && PlainText(COMMAND_KEY) && PlainText(PARAMS_KEY)
  {
    var a, c, p := "{\"action\":", ",\"command\":", ",\"params\":";
    assert Name(a) == [OPEN_BRACE] + KeyText(ACTION_KEY);
    assert Name(c) == [COMMA] + KeyText(COMMAND_KEY);
    assert Name(p) == [COMMA] + KeyText(PARAMS_KEY);
  }

  /** The same three fields, read from the front. */
  lemma Unfolded(o: Str, ka: Str, a: Str, comma: Str, kc: Str, c: Str, kp: Str, p: Str, e: Str)
    ensures o + ((ka + a + (comma + (kc + c + (comma + (kp + p))))) + e)
         == (o + ka) + (a + ((comma + kc) + (c + ((comma + kp) + (p + e)))))
  {
    Assoc(kp, p, e);
    Assoc(comma, kp, p);
  }

  /** Three texts as the fields of one call. */
  function CallLine(action: Str, command: Str, params: Str): Str {
    Name("{\"action\":") + (action
    + (Name(",\"command\":") + (command
    + (Name(",\"params\":") + (params + Name("}"))))))
  }

  lemma CanonicalString(s: Str)
    ensures Canonical(JString(s)) == EsString(s)
  {}

  /** The text that is hashed, spelled out: action, command and the params without the
      reserved fields, in this order and with nothing between. */
  lemma BindTextSpelled(command: Str, action: Str, params: seq<Member>)
    ensures BindText(command, action, params)
         == CallLine(EsString(action), EsString(command), Canonical(JObject(CallBody(params))))
  {
    var ms := CallMembers(command, action, params);
    CallKeysInOrder(ms);
    CanonicalString(command);
    CanonicalString(action);
    CallTextSpelled(ms, EsString(command), EsString(action), Canonical(JObject(CallBody(params))));
  }

  lemma LineFolded(a: Str, c: Str, p: Str)
    ensures CallLine(a, c, p)
         == ([OPEN_BRACE] + KeyText(ACTION_KEY))
            + (a + (([COMMA] + KeyText(COMMAND_KEY)) + (c + (([COMMA] + KeyText(PARAMS_KEY)) + (p + [CLOSE_BRACE])))))
  {
    FrontsSpelled();
  }

  lemma CallTextSpelled(ms: seq<Member>, c: Str, a: Str, p: Str)
    requires CallOrder(ms) && ms[0].key == COMMAND_KEY && ms[1].key == ACTION_KEY && ms[2].key == PARAMS_KEY
    requires c == Canonical(ms[0].value) && a == Canonical(ms[1].value) && p == Canonical(ms[2].value)
    ensures Canonical(JObject(ms))
         == CallLine(a, c, p)
  {
    var open: Str, ka: Str, comma: Str := [OPEN_BRACE], KeyText(ACTION_KEY), [COMMA];
    var kc: Str, kp: Str, close: Str := KeyText(COMMAND_KEY), KeyText(PARAMS_KEY), [CLOSE_BRACE];
    CallText(ms, c, a, p);
    LineFolded(a, c, p);
    Unfolded(open, ka, a, comma, kc, c, kp, p, close);
  }

  lemma CallText(ms: seq<Member>, c: Str, a: Str, p: Str)
    requires CallOrder(ms) && ms[0].key == COMMAND_KEY && ms[1].key == ACTION_KEY && ms[2].key == PARAMS_KEY
    requires c == Canonical(ms[0].value) && a == Canonical(ms[1].value) && p == Canonical(ms[2].value)
    ensures Canonical(JObject(ms))
         == [OPEN_BRACE] + ((KeyText(ACTION_KEY) + a + ([COMMA] + (KeyText(COMMAND_KEY) + c
            + ([COMMA] + (KeyText(PARAMS_KEY) + p))))) + [CLOSE_BRACE])
  {
    CanonicalThree(ms);
    MemberEntriesAt(ms);
    FrontsSpelled();
    MemberText(ACTION_KEY, a);
    MemberText(COMMAND_KEY, c);
    MemberText(PARAMS_KEY, p);
    JoinThree(KeyText(ACTION_KEY) + a, KeyText(COMMAND_KEY) + c, KeyText(PARAMS_KEY) + p);
  }

  /** Main result: one bind text names one command, one action and one set of
      params, up to member order, number type and reserved fields. */
  lemma BindTextNamesCall(c1: Str, a1: Str, p1: seq<Member>, c2: Str, a2: Str, p2: seq<Member>)
    ensures BindText(c1, a1, p1) == BindText(c2, a2, p2)
        <==> c1 == c2 && a1 == a2 && Normal(JObject(CallBody(p1))) == Normal(JObject(CallBody(p2)))
  {
    CallMembersShape(c1, a1, p1);
    CallMembersShape(c2, a2, p2);
    SameCall(CallMembers(c1, a1, p1), CallMembers(c2, a2, p2));
  }

  /** No text holds a surrogate, so the UTF-8 encoding before hashing cannot fail. */
  lemma {:induction false} TreeTextEncodable(t: Tree)
    ensures Encodable(TreeText(t))
    decreases t, 2
  {
    match t
    case TString(s) => EsBodyEncodable(s);
    case TNumber(n) => NumeralChars(n);
    case TArray(items) => TreeTextsEncodable(items);
    case TObject(ms) => TreeMemberTextsEncodable(ms);
    case _ =>
  }

  predicate Encodable(s: Str) {
    forall i :: 0 <= i < |s| ==> !IsSurrogate(s[i])
  }

  lemma {:induction false} TreeTextsEncodable(items: seq<Tree>)
    ensures Encodable(JoinComma(TreeTexts(items)))
    decreases items, 0
  {
    if items != [] {
      TreeTextEncodable(items[0]);
      TreeTextsEncodable(items[1..]);
      assert TreeTexts(items)[1..] == TreeTexts(items[1..]);
    }
  }

  lemma {:induction false} TreeMemberTextsEncodable(ms: seq<TreeMember>)
    ensures Encodable(JoinComma(TreeMemberTexts(ms)))
    decreases ms, 0
  {
    if ms != [] {
      EsBodyEncodable(ms[0].key);
      TreeTextEncodable(ms[0].value);
      TreeMemberTextsEncodable(ms[1..]);
      assert TreeMemberTexts(ms)[1..] == TreeMemberTexts(ms[1..]);
    }
  }

  lemma BindTextEncodable(command: Str, action: Str, params: seq<Member>)
    ensures Encodable(BindText(command, action, params)) && NoSplitPair(BindText(command, action, params))
  {
    CanonicalEncodable(JObject(CallMembers(command, action, params)));
  }

  lemma CanonicalEncodable(v: Json)
    ensures Encodable(Canonical(v)) && NoSplitPair(Canonical(v))
  {
    CanonicalIsTreeText(v);
    TreeTextEncodable(Normal(v));
  }
}
