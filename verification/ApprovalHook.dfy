/** The plugin's `before_tool_call` hook (node-approval.ts): it strips, hints, mints
    markers and prompts, and its markers are what the node accepts. */
module ApprovalHook {
  import opened Text
  import opened Utf16
  import opened JsonNumbers
  import opened JsonModel
  import opened CanonicalJson
  import opened PluginCanonical
  import opened ApprovalMarker
  import opened ApprovalPolicy
  import opened GrantStore

  const APPROVAL_TTL_SECONDS: int := 600 + 120
  const SESSION_KEY: seq<Unit> := // sessionKey
    [0x73, 0x65, 0x73, 0x73, 0x69, 0x6F, 0x6E, 0x4B, 0x65, 0x79]

  // ---------------------------------------------------------------------------
  // Names and keys

  /** A table name as a JavaScript string. */
  function Units(name: string): seq<Unit> {
    Encode(Name(name))
  }

  predicate Listed(table: set<Pair>, command: JsStr, action: JsStr) {
    exists p :: p in table && Units(p.command) == command && Units(p.action) == action
  }

  function TrimStart(s: JsStr): (r: JsStr)
    ensures |r| <= |s|
  {
    if s != [] && JsWhitespace(s[0]) then TrimStart(s[1..]) else s
  }

  function TrimEnd(s: JsStr): JsStr {
    if s != [] && JsWhitespace(s[|s| - 1]) then TrimEnd(s[..|s| - 1]) else s
  }

  /** `String.prototype.trim`. */
  function Trim(s: JsStr): JsStr {
    TrimEnd(TrimStart(s))
  }

  /** `grantSessionKey` of a string or absent session key. */
  function GrantSessionKey(raw: Option<JsStr>): Option<JsStr> {
    if raw.None? || Trim(raw.value) == [] then None else Some(Trim(raw.value))
  }

  /** `ha-assist:`. */
  const ASSIST_NAME: seq<Unit> := [0x68, 0x61, 0x2D, 0x61, 0x73, 0x73, 0x69, 0x73, 0x74, COLON]

  predicate SameIgnoringCase(u: Unit, lower: Unit) {
    u == lower || (0x61 <= lower <= 0x7A && u + 0x20 == lower)
  }

  /** The name of an Assist session starts at `i` and runs to the end of the key. */
  predicate AssistNameAt(key: JsStr, i: int) {
    && 0 <= i && i + |ASSIST_NAME| < |key|
    && (i == 0 || key[i - 1] == COLON)
    && (forall k :: 0 <= k < |ASSIST_NAME| ==> SameIgnoringCase(key[i + k], ASSIST_NAME[k]))
    && (forall k :: i + |ASSIST_NAME| <= k < |key| ==> !JsWhitespace(key[k]))
  }

  /** `normalizeAssistSessionKey` of a string or absent session key: the trimmed key
      when it matches `(^|:)ha-assist:\S+$`, ignoring case. */
  function AssistKey(raw: Option<JsStr>): Option<JsStr> {
    if raw.Some? && exists i :: 0 <= i < |Trim(raw.value)| && AssistNameAt(Trim(raw.value), i)
    then Some(Trim(raw.value)) else None
  }

  ghost predicate AllJsSpace(s: JsStr) {
    forall i :: 0 <= i < |s| ==> JsWhitespace(s[i])
  }

  lemma {:induction false} TrimStartCut(s: JsStr) returns (before: JsStr)
    ensures AllJsSpace(before) && s == before + TrimStart(s)
    ensures TrimStart(s) != [] ==> !JsWhitespace(TrimStart(s)[0])
  {
    before := [];
    if s != [] && JsWhitespace(s[0]) {
      var more := TrimStartCut(s[1..]);
      before := [s[0]] + more;
      Assoc([s[0]], more, TrimStart(s));
      assert s == [s[0]] + s[1..];
    }
  }

  lemma {:induction false} TrimEndCut(s: JsStr) returns (after: JsStr)
    ensures AllJsSpace(after) && s == TrimEnd(s) + after
    ensures TrimEnd(s) != [] ==> !JsWhitespace(TrimEnd(s)[|TrimEnd(s)| - 1])
  {
    after := [];
    if s != [] && JsWhitespace(s[|s| - 1]) {
      var last := [s[|s| - 1]];
      var more := TrimEndCut(s[..|s| - 1]);
      after := more + last;
      Assoc(TrimEnd(s), more, last);
      assert s == s[..|s| - 1] + last;
    }
  }

  /** `trim` cuts white space off both ends, and nothing else, until none is left there. */
  lemma TrimCuts(s: JsStr) returns (before: JsStr, after: JsStr)
    ensures s == before + Trim(s) + after && AllJsSpace(before) && AllJsSpace(after)
    ensures Trim(s) != [] ==> !JsWhitespace(Trim(s)[0]) && !JsWhitespace(Trim(s)[|Trim(s)| - 1])
  {
    before := TrimStartCut(s);
    after := TrimEndCut(TrimStart(s));
    Assoc(before, Trim(s), after);
  }

  /** The text in lower case, for its ASCII letters. */
  function Lower(s: JsStr): (r: JsStr)
    ensures |r| == |s|
  {
    seq(|s|, i requires 0 <= i < |s| => if 'A' as int <= s[i] <= 'Z' as int then s[i] + 32 else s[i])
  }

  /** The key is any text, empty or ending with a colon, then `ha-assist:` in either case,
      then something without white space. */
  ghost predicate AssistShape(key: JsStr, before: JsStr, name: JsStr, rest: JsStr) {
    && key == before + name + rest
    && (before == [] || before[|before| - 1] == ':' as int)
    && Lower(name) == Name("ha-assist:")
    && rest != [] && forall i :: 0 <= i < |rest| ==> !JsWhitespace(rest[i])
  }

  lemma AssistNameSpelled(name: JsStr)
    requires |name| == |ASSIST_NAME|
    ensures Lower(name) == Name("ha-assist:") <==>
            forall k :: 0 <= k < |ASSIST_NAME| ==> SameIgnoringCase(name[k], ASSIST_NAME[k])
  {
    assert Name("ha-assist:") == ASSIST_NAME;
    if Lower(name) == ASSIST_NAME {
      forall k | 0 <= k < |ASSIST_NAME|
        ensures SameIgnoringCase(name[k], ASSIST_NAME[k])
      {
        assert Lower(name)[k] == ASSIST_NAME[k];
      }
    }
  }

  lemma AssistAtShape(key: JsStr, i: nat)
    requires i + |ASSIST_NAME| <= |key|
    ensures AssistNameAt(key, i) <==>
            AssistShape(key, key[..i], key[i..i + |ASSIST_NAME|], key[i + |ASSIST_NAME|..])
  {
    var before, name, rest := key[..i], key[i..i + |ASSIST_NAME|], key[i + |ASSIST_NAME|..];
    AssistNameSpelled(name);
    assert key == before + name + rest;
    assert forall k :: 0 <= k < |ASSIST_NAME| ==> name[k] == key[i + k];
    assert forall k :: 0 <= k < |rest| ==> rest[k] == key[i + |ASSIST_NAME| + k];
    assert forall k :: i + |ASSIST_NAME| <= k < |key| ==> key[k] == rest[k - i - |ASSIST_NAME|];
  }

  /** A session key is an Assist key exactly when its trimmed text has that shape, and it
      is then that text. */
  lemma AssistKeyExactly(raw: Option<JsStr>)
    ensures AssistKey(raw).Some? <==>
            raw.Some? && exists before, name, rest :: AssistShape(Trim(raw.value), before, name, rest)
    ensures AssistKey(raw).Some? ==> AssistKey(raw).value == Trim(raw.value)
  {
    if raw.Some? {
      var key := Trim(raw.value);
      if i :| 0 <= i < |key| && AssistNameAt(key, i) {
        AssistAtShape(key, i);
      }
      forall before, name, rest | AssistShape(key, before, name, rest)
        ensures AssistKey(raw).Some?
      {
        AssistShapeAt(key, before, name, rest);
      }
    }
  }

  lemma AssistShapeAt(key: JsStr, before: JsStr, name: JsStr, rest: JsStr)
    requires AssistShape(key, before, name, rest)
    ensures |before| < |key| && AssistNameAt(key, |before|)
  {
    var i := |before|;
    assert |name| == |Name("ha-assist:")| == |ASSIST_NAME|;
    assert key[..i] == before && key[i..i + |name|] == name && key[i + |name|..] == rest;
    AssistAtShape(key, i);
  }

  // ---------------------------------------------------------------------------
  // The hook

  /** A tool call the hook sees. */
  datatype ToolCall =
    | NodesInvoke(command: JsStr, inner: seq<JsMember>)
    | AdminTool(command: JsStr, args: seq<JsMember>)
    | OtherTool

  /** What the hook is told: the host's session key, the preflight verdict, the
      unsafe-integer scan, a fresh id. */
  datatype Context = Context(session: Option<JsStr>, refused: bool, unsafeInteger: bool, id: seq<Byte>)

  datatype Prompt = NoPrompt | AskOnce | AskOnceOrAlways(scope: Triple)

  datatype HookResult = Pass | Block | Rewrite(params: seq<JsMember>, prompt: Prompt)

  function LookupValue(ms: seq<JsMember>, key: seq<Unit>): Option<JsValue> {
    if ms == [] then None
    else if ms[0].key == key then Some(ms[0].value)
    else LookupValue(ms[1..], key)
  }

  const DOMAIN: seq<Unit> := [0x64, 0x6F, 0x6D, 0x61, 0x69, 0x6E] // domain
  const ENTITY_ID: seq<Unit> := [0x65, 0x6E, 0x74, 0x69, 0x74, 0x79, 0x5F, 0x69, 0x64] // entity_id
  const BACKUP: seq<Unit> := [0x62, 0x61, 0x63, 0x6B, 0x75, 0x70] // backup
  const VERSION: seq<Unit> := [0x76, 0x65, 0x72, 0x73, 0x69, 0x6F, 0x6E] // version
  const SLUG: seq<Unit> := [0x73, 0x6C, 0x75, 0x67] // slug

  /** A trimmed string argument, empty when it is no string. */
  function Trimmed(args: seq<JsMember>, key: seq<Unit>): JsStr {
    match LookupValue(args, key)
    case Some(JsString(s)) => Trim(s)
    case _ => []
  }

  function BackupParam(args: seq<JsMember>): seq<JsMember> {
    match LookupValue(args, BACKUP)
    case Some(JsBool(b)) => [JsMember(BACKUP, JsBool(b))]
    case _ => []
  }

  function VersionParam(args: seq<JsMember>): seq<JsMember> {
    match LookupValue(args, VERSION)
    case Some(JsString(s)) => if s == [] then [] else [JsMember(VERSION, JsString(s))]
    case _ => []
  }

  function AdminParamsFor(reload: bool, install: bool, args: seq<JsMember>): seq<JsMember> {
    if reload then
      if Trimmed(args, DOMAIN) == [] then [] else [JsMember(DOMAIN, JsString(Trimmed(args, DOMAIN)))]
    else if install then
      [JsMember(ENTITY_ID, JsString(Trimmed(args, ENTITY_ID)))] + BackupParam(args) + VersionParam(args)
    else [JsMember(SLUG, JsString(Trimmed(args, SLUG)))]
  }

  /** `adminCommandParams`. */
  function AdminCommandParams(command: JsStr, args: seq<JsMember>): seq<JsMember> {
    AdminParamsFor(command == Units("ha.reload_config"), command == Units("ha.update_install"), args)
  }

  function ActionOf(clean: seq<JsMember>): JsStr {
    Trimmed(clean, ACTION_KEY)
  }

  predicate JsHasKey(ms: seq<JsMember>, key: seq<Unit>) {
    exists m :: m in ms && m.key == key
  }

  function ExpiryOf(nowMs: nat): int {
    nowMs / 1000 + APPROVAL_TTL_SECONDS
  }

  /** `newMarker`. */
  function NewMarker(
    digest: Digest, id: seq<Byte>, command: JsStr, action: JsStr, params: seq<JsMember>, nowMs: nat): JsValue
  {
    JsObject([JsMember(ID_KEY, JsString(id)),
              JsMember(EXP_KEY, JsNumber(JsFinite(IntNum(ExpiryOf(nowMs))))),
              JsMember(BIND_KEY, JsString(digest(JsBindText(command, action, params))))])
  }

  /** `grantScope`: none without a session key or for a destructive pair. */
  function GrantScope(session: Option<JsStr>, command: JsStr, action: JsStr): Option<Triple> {
    match GrantSessionKey(session)
    case None => None
    case Some(key) => if Listed(DESTRUCTIVE, command, action) then None else Some(Triple(key, command, action))
  }

  function PromptFor(grants: Model, scope: Option<Triple>, nowMs: nat): Prompt {
    if scope.None? then AskOnce
    else if ModelHas(grants, scope.value, nowMs) then NoPrompt
    else AskOnceOrAlways(scope.value)
  }

  predicate SkipsPrompt(ctx: Context, command: JsStr, action: JsStr) {
    && AssistKey(ctx.session).Some?
    && (|| Listed(USER_DIRECTED, command, action)
        || (Listed(ADMIN_LIFECYCLE, command, action) && Listed(SUPER_ADMIN_LIFECYCLE, command, action)))
  }

  function HintFor(key: JsStr): JsMember {
    JsMember(CALLER_PARAM, JsObject([JsMember(SESSION_KEY, JsString(key))]))
  }

  function Hinted(ctx: Context, clean: seq<JsMember>): seq<JsMember> {
    match AssistKey(ctx.session)
    case Some(key) => clean + [HintFor(key)]
    case None => clean
  }

  /** The rewrite of a call that needs approval: `sent` gains a fresh marker bound
      to `bound`, and a prompt unless the store holds a grant. */
  function Approved(
    digest: Digest, ctx: Context, command: JsStr, action: JsStr, sent: seq<JsMember>, bound: seq<JsMember>,
    grants: Model, nowMs: nat): HookResult
  {
    Rewrite(sent + [JsMember(APPROVAL_PARAM, NewMarker(digest, ctx.id, command, action, bound, nowMs))],
            PromptFor(grants, GrantScope(ctx.session, command, action), nowMs))
  }

  /** `beforeToolCall`. */
  function BeforeToolCall(digest: Digest, call: ToolCall, ctx: Context, grants: Model, nowMs: nat): HookResult {
    match call
    case OtherTool => Pass
    case NodesInvoke(command, inner) =>
      var clean := JsCallBody(inner);
      var action := ActionOf(clean);
      if !Listed(APPROVAL_GATED, command, action) then
        if JsHasKey(inner, APPROVAL_PARAM) || JsHasKey(inner, CALLER_PARAM) then Rewrite(clean, NoPrompt) else Pass
      else if ctx.refused || ctx.unsafeInteger then Block
      else if SkipsPrompt(ctx, command, action) then Rewrite(Hinted(ctx, clean), NoPrompt)
      else Approved(digest, ctx, command, action, Hinted(ctx, clean), clean, grants, nowMs)
    case AdminTool(command, args) =>
      var clean := JsWithout(args, APPROVAL_PARAM);
      if ctx.refused then Block
      else if SkipsPrompt(ctx, command, []) then Rewrite(clean, NoPrompt)
      else Approved(digest, ctx, command, [], clean, AdminCommandParams(command, clean), grants, nowMs)
  }

  // ---------------------------------------------------------------------------
  // The minted marker, as the node reads it

  lemma {:induction false} FromJsConcat(a: seq<JsMember>, b: seq<JsMember>)
    ensures FromJsMembers(a + b) == FromJsMembers(a) + FromJsMembers(b)
  {
    if a == [] {
      assert a + b == b;
    } else {
      FromJsConcat(a[1..], b);
      var s := a + b;
      assert s[0] == a[0];
      assert s[1..] == a[1..] + b;
      Assoc([Member(Decode(a[0].key), FromJs(a[0].value))], FromJsMembers(a[1..]), FromJsMembers(b));
    }
  }

  lemma FromJsOne(m: JsMember)
    ensures FromJsMembers([m]) == [Member(Decode(m.key), FromJs(m.value))]
  {
    assert [m][1..] == [];
  }

  lemma IntNumInjective(i: int, j: int)
    requires IntNum(i) == IntNum(j)
    ensures i == j
  {
    IntTextReadsBack(i);
    IntTextReadsBack(j);
  }

  lemma IntegerTransport(i: int)
    requires PlainInteger(i)
    ensures NumberFromJs(JsFinite(IntNum(i))) == JInt(i)
  {
    if i == 0 {
      ZeroNum();
    } else {
      var d := IntNum(i);
      NormalizeRaw(i < 0, DigitsOf(Abs(i)), 0);
      TransportInteger(d);
      IntNumInjective(NumberFromJs(JsFinite(d)).i, i);
    }
  }

  lemma MarkerKeysPlain()
    ensures NoSurrogates(ID_KEY) && NoSurrogates(EXP_KEY) && NoSurrogates(BIND_KEY)
  {}

  lemma MarkerTransport(id: seq<Byte>, exp: int, bind: seq<Byte>)
    requires PlainInteger(exp)
    ensures var a, c := JsMember(ID_KEY, JsString(id)), JsMember(BIND_KEY, JsString(bind));
            var b := JsMember(EXP_KEY, JsNumber(JsFinite(IntNum(exp))));
            FromJs(JsObject([a, b, c])) == MarkerJson(Marker(id, exp, bind))
  {
    var a := JsMember(ID_KEY, JsString(id));
    var b := JsMember(EXP_KEY, JsNumber(JsFinite(IntNum(exp))));
    var c := JsMember(BIND_KEY, JsString(bind));
    MarkerKeysPlain();
    DecodeBasic(a.key);
    DecodeBasic(b.key);
    DecodeBasic(c.key);
    TransportThree(a, b, c);
    DecodeBasic(id);
    DecodeBasic(bind);
    IntegerTransport(exp);
    ObjectTransport([a, b, c]);
  }

  lemma ReadMintedMarker(m: Marker)
    requires m.id != []
    ensures ReadMarker(MarkerJson(m)) == Some(m)
  {
    var ms := MarkerJson(m).members;
    assert ms[0].key == ID_KEY && ms[1].key == EXP_KEY && ms[2].key == BIND_KEY;
    assert ms[1..][0] == ms[1] && ms[1..][1..][0] == ms[2];
    assert Get(ms, ID_KEY) == Some(JString(m.id));
    assert Get(ms, EXP_KEY) == Some(JInt(m.exp));
    assert Get(ms, BIND_KEY) == Some(JString(m.bind));
  }

  lemma NewMarkerTransport(
    digest: Digest, id: seq<Byte>, command: JsStr, action: JsStr, params: seq<JsMember>, nowMs: nat)
    requires nowMs <= MAX_TIME_VALUE
    ensures FromJs(NewMarker(digest, id, command, action, params, nowMs))
         == MarkerJson(Marker(id, ExpiryOf(nowMs), digest(JsBindText(command, action, params))))
  {
    SafeIntegersArePlain(ExpiryOf(nowMs));
    MarkerTransport(id, ExpiryOf(nowMs), digest(JsBindText(command, action, params)));
  }

  /** The largest time a JavaScript clock can show, in milliseconds. */
  const MAX_TIME_VALUE: nat := 8_640_000_000_000_000

  /** The node's verdict on params that carry a fresh marker minted over the rest. */
  lemma MintedMarkerVerdict(digest: Digest, used: UsedIds, command: JsStr, action: JsStr, clean: seq<JsMember>,
                            id: seq<Byte>, nowMs: nat, p: seq<Member>, exempt: bool, t: real)
    requires nowMs <= MAX_TIME_VALUE && id != []
    requires !HasKey(FromJsMembers(clean), APPROVAL_PARAM)
    requires var marker := NewMarker(digest, id, command, action, clean, nowMs);
             p == FromJsMembers(clean) + [Member(APPROVAL_PARAM, FromJs(marker))]
    ensures var out := Consume(digest, used, Decode(command), Decode(action), p, exempt, t);
            && out.params == FromJsMembers(clean)
            && out.verdict == if ExpiryOf(nowMs) as real < t then Expired
                              else if id in Prune(used, t) then AlreadyUsed
                              else Authorized
  {
    var c := FromJsMembers(clean);
    var m := Marker(id, ExpiryOf(nowMs), digest(JsBindText(command, action, clean)));
    NewMarkerTransport(digest, id, command, action, clean, nowMs);
    var tail := [Member(APPROVAL_PARAM, MarkerJson(m))];
    OneMember(tail[0]);
    GetConcat(c, tail, APPROVAL_PARAM);
    WithoutConcat(c, tail, APPROVAL_PARAM);
    WithoutAbsent(c, APPROVAL_PARAM);
    ReadMintedMarker(m);
    BindTextsAgree(command, action, clean);
    assert Without(p, APPROVAL_PARAM) == c;
    assert Get(p, APPROVAL_PARAM) == Some(MarkerJson(m));
  }

  lemma OneMember(m: Member)
    ensures Get([m], m.key) == Some(m.value) && Without([m], m.key) == []
  {
    assert [m][1..] == [];
  }

  // ---------------------------------------------------------------------------
  // From the hook to the node

  datatype HintResult = NoHint | Hint(sessionKey: Str) | BadHint

  /** `_pop_caller_hint`: the hint, and the params without the reserved field. */
  function PopCallerHint(params: seq<Member>): (HintResult, seq<Member>) {
    if !HasKey(params, CALLER_PARAM) then (NoHint, params)
    else
      var rest := Without(params, CALLER_PARAM);
      match Get(params, CALLER_PARAM)
      case Some(JObject(ms)) =>
        (match GetString(ms, SESSION_KEY)
         case Some(s) => if PyStrip(s) == [] then BadHint else Hint(s)
         case None => BadHint, rest)
      case _ => (BadHint, rest)
  }

  lemma ReservedNamesDiffer()
    ensures APPROVAL_PARAM != CALLER_PARAM
  {
    assert |APPROVAL_PARAM| != |CALLER_PARAM|;
  }

  lemma ReservedNamesDecode()
    ensures Decode(APPROVAL_PARAM) == APPROVAL_PARAM && Decode(CALLER_PARAM) == CALLER_PARAM
  {
    ReservedNamesPlain();
    DecodeBasic(APPROVAL_PARAM);
    DecodeBasic(CALLER_PARAM);
  }

  lemma CleanHasNoReserved(inner: seq<JsMember>)
    ensures !HasKey(FromJsMembers(JsCallBody(inner)), APPROVAL_PARAM)
    ensures !HasKey(FromJsMembers(JsCallBody(inner)), CALLER_PARAM)
  {
    TransportCallBody(inner);
    var p := FromJsMembers(inner);
    WithoutMembers(p, APPROVAL_PARAM);
    WithoutMembers(Without(p, APPROVAL_PARAM), CALLER_PARAM);
    forall i | 0 <= i < |CallBody(p)|
      ensures CallBody(p)[i].key != APPROVAL_PARAM && CallBody(p)[i].key != CALLER_PARAM
    {
      assert CallBody(p)[i] in CallBody(p);
    }
  }

  lemma HintedTransport(ctx: Context, clean: seq<JsMember>)
    requires !HasKey(FromJsMembers(clean), CALLER_PARAM)
    ensures Without(FromJsMembers(Hinted(ctx, clean)), CALLER_PARAM) == FromJsMembers(clean)
  {
    WithoutAbsent(FromJsMembers(clean), CALLER_PARAM);
    var key := AssistKey(ctx.session);
    if key.Some? {
      WithHint(clean, key.value);
      var m := Member(CALLER_PARAM, FromJs(HintFor(key.value).value));
      WithoutConcat(FromJsMembers(clean), [m], CALLER_PARAM);
      OneMember(m);
    }
  }

  lemma WithHint(ms: seq<JsMember>, key: JsStr)
    ensures FromJsMembers(ms + [HintFor(key)]) == FromJsMembers(ms) + [Member(CALLER_PARAM, FromJs(HintFor(key).value))]
  {
    FromJsConcat(ms, [HintFor(key)]);
    FromJsOne(HintFor(key));
    ReservedNamesDecode();
  }

  /** What reaches the marker check once the caller hint is popped: the clean
      params and the marker, and nothing else. */
  lemma ReceivedCall(ctx: Context, clean: seq<JsMember>, marker: JsValue)
    requires !HasKey(FromJsMembers(clean), CALLER_PARAM)
    ensures Without(FromJsMembers(Hinted(ctx, clean) + [JsMember(APPROVAL_PARAM, marker)]), CALLER_PARAM)
         == FromJsMembers(clean) + [Member(APPROVAL_PARAM, FromJs(marker))]
  {
    var m := JsMember(APPROVAL_PARAM, marker);
    FromJsConcat(Hinted(ctx, clean), [m]);
    FromJsOne(m);
    ReservedNamesDecode();
    ReservedNamesDiffer();
    HintedTransport(ctx, clean);
    var sent := Member(APPROVAL_PARAM, FromJs(marker));
    WithoutConcat(FromJsMembers(Hinted(ctx, clean)), [sent], CALLER_PARAM);
    OtherMember(sent, CALLER_PARAM);
  }

  lemma OtherMember(m: Member, key: Str)
    requires m.key != key
    ensures Without([m], key) == [m]
  {
    assert [m][1..] == [];
  }

  lemma {:induction false} LstripBlank(s: Str)
    ensures PyLstrip(s) == [] <==> forall c :: c in s ==> PyWhitespace(c)
  {
    if s != [] && PyWhitespace(s[0]) {
      LstripBlank(s[1..]);
      assert s == [s[0]] + s[1..];
    }
  }

  /** `strip` empties exactly the blank strings. */
  lemma StripBlank(s: Str)
    ensures PyStrip(s) == [] <==> forall c :: c in s ==> PyWhitespace(c)
  {
    LstripBlank(s);
    var l := PyLstrip(s);
    if l != [] {
      assert PyRstrip(l) != [];
    }
  }

  /** What popping gives for any params: no hint exactly when the field is absent, a
      hint exactly when it is an object with a session key that is not blank, and
      always the params without the reserved field. */
  lemma PopLeavesRest(params: seq<Member>)
    ensures var (hint, rest) := PopCallerHint(params);
            && rest == Without(params, CALLER_PARAM)
            && (hint.NoHint? <==> !HasKey(params, CALLER_PARAM))
            && (hint.Hint? ==> HintValue(Get(params, CALLER_PARAM)) == Some(hint.sessionKey))
            && (hint.BadHint? <==> HasKey(params, CALLER_PARAM) && HintValue(Get(params, CALLER_PARAM)).None?)
  {
    WithoutAbsentAnyway(params);
    var field := Get(params, CALLER_PARAM);
    if field.Some? && field.value.JObject? && GetString(field.value.members, SESSION_KEY).Some? {
      StripBlank(GetString(field.value.members, SESSION_KEY).value);
    }
  }

  lemma WithoutAbsentAnyway(params: seq<Member>)
    ensures !HasKey(params, CALLER_PARAM) ==> Without(params, CALLER_PARAM) == params
  {
    if !HasKey(params, CALLER_PARAM) {
      WithoutAbsent(params, CALLER_PARAM);
    }
  }

  /** The session key in a well-formed hint. */
  function HintValue(field: Option<Json>): Option<Str> {
    if field.Some? && field.value.JObject? then
      match Get(field.value.members, SESSION_KEY)
      case Some(JString(s)) => if forall c :: c in s ==> PyWhitespace(c) then None else Some(s)
      case _ => None
    else None
  }

  // ---------------------------------------------------------------------------
  // The hook's own hint is well formed

  lemma {:induction false} BasicUnitDecodes(u: seq<Unit>, i: nat)
    requires i < |u| && !IsSurrogate(u[i])
    ensures u[i] in Decode(u)
    decreases |u|
  {
    var n := if StartsWithPair(u) then 2 else 1;
    if i >= n {
      BasicUnitDecodes(u[n..], i - n);
    }
  }

  /** An Assist key is never blank to the node. */
  lemma AssistKeyVisible(raw: Option<JsStr>)
    requires AssistKey(raw).Some?
    ensures PyStrip(Decode(AssistKey(raw).value)) != []
  {
    var key := AssistKey(raw).value;
    var i :| 0 <= i < |key| && AssistNameAt(key, i);
    assert SameIgnoringCase(key[i + 0], ASSIST_NAME[0]);
    BasicUnitDecodes(key, i);
    StripBlank(Decode(key));
  }

  lemma HintTransport(key: JsStr)
    ensures FromJs(HintFor(key).value) == JObject([Member(SESSION_KEY, JString(Decode(key)))])
  {
    var field := JsMember(SESSION_KEY, JsString(key));
    FromJsOne(field);
    SessionKeyPlain();
    DecodeBasic(field.key);
    ObjectTransport([field]);
  }

  lemma SessionKeyPlain()
    ensures NoSurrogates(SESSION_KEY)
  {}

  lemma HintReads(m: Member, key: Str)
    requires m.value == JObject([Member(SESSION_KEY, JString(key))]) && PyStrip(key) != []
    ensures GetString(m.value.members, SESSION_KEY) == Some(key)
  {
    OneMember(Member(SESSION_KEY, JString(key)));
  }

  lemma PopsValue(params: seq<Member>, key: Str, value: Json)
    requires Get(params, CALLER_PARAM) == Some(value) && value.JObject?
    requires GetString(value.members, SESSION_KEY) == Some(key) && PyStrip(key) != []
    ensures PopCallerHint(params).0 == Hint(key)
  {}

  /** What the node pops from params that carry the hook's or the tool's own hint. */
  lemma PoppedHint(front: seq<Member>, back: seq<Member>, raw: Option<JsStr>)
    requires AssistKey(raw).Some? && !HasKey(front, CALLER_PARAM)
    ensures var key := AssistKey(raw).value;
            var m := Member(CALLER_PARAM, FromJs(HintFor(key).value));
            PopCallerHint(front + ([m] + back)).0 == Hint(Decode(key))
  {
    var key := AssistKey(raw).value;
    var m := Member(CALLER_PARAM, FromJs(HintFor(key).value));
    AssistKeyVisible(raw);
    HintTransport(key);
    HintReads(m, Decode(key));
    GetConcat(front, [m] + back, CALLER_PARAM);
    PopsValue(front + ([m] + back), Decode(key), m.value);
  }

  /** The hint the hook adds: none outside Assist, and the caller's own key inside. */
  function OwnHint(ctx: Context): HintResult {
    match AssistKey(ctx.session)
    case Some(key) => Hint(Decode(key))
    case None => NoHint
  }

  lemma HookHint(ctx: Context, clean: seq<JsMember>, marker: JsValue)
    requires !HasKey(FromJsMembers(clean), CALLER_PARAM)
    ensures PopCallerHint(FromJsMembers(Hinted(ctx, clean) + [JsMember(APPROVAL_PARAM, marker)])).0 == OwnHint(ctx)
  {
    var c, m := FromJsMembers(clean), JsMember(APPROVAL_PARAM, marker);
    var sent := Member(APPROVAL_PARAM, FromJs(marker));
    FromJsConcat(Hinted(ctx, clean), [m]);
    FromJsOne(m);
    ReservedNamesDecode();
    ReservedNamesDiffer();
    var key := AssistKey(ctx.session);
    if key.Some? {
      WithHint(clean, key.value);
      var hint := Member(CALLER_PARAM, FromJs(HintFor(key.value).value));
      Assoc(c, [hint], [sent]);
      PoppedHint(c, [sent], ctx.session);
    } else {
      GetConcat(c, [sent], CALLER_PARAM);
      assert [sent][1..] == [];
      assert Get([sent], CALLER_PARAM) == None;
    }
  }

  // ---------------------------------------------------------------------------
  // The action the node sees

  /** Commands whose handler takes an action. */
  predicate TakesAction(command: Str) {
    Name("ha.config.") <= command
  }

  /** The handler of the command asks for a marker for this action. */
  predicate Asks(command: Str, action: Str) {
    exists p :: p in APPROVAL_GATED && Name(p.command) == command && Name(p.action) == action
  }

  /** The action a handler passes to the marker check: its own params' one, stripped,
      or none at all when it is blank or no string. */
  function NodeAction(command: Str, params: seq<Member>): Option<Str> {
    if !TakesAction(command) then Some([])
    else
      match Get(params, ACTION_KEY)
      case Some(JString(s)) => if PyStrip(s) == [] then None else Some(PyStrip(s))
      case _ => None
  }

  /** The marker check of a command's handler, when the call's action gets that far. */
  function NodeCheck(digest: Digest, used: UsedIds, command: Str, params: seq<Member>, exempt: bool, t: real)
    : Option<Outcome>
  {
    match NodeAction(command, params)
    case None => None
    case Some(action) =>
      if Asks(command, action) then Some(Consume(digest, used, command, action, params, exempt, t)) else None
  }

  /** U+FEFF, which JavaScript trims and Python does not. */
  const BYTE_ORDER_MARK: Unit := 0xFEFF

  /** The action reads the same on both sides: it holds no U+FEFF. */
  predicate ActionPortable(params: seq<JsMember>) {
    match LookupValue(params, ACTION_KEY)
    case Some(JsString(u)) => BYTE_ORDER_MARK !in u
    case _ => true
  }

  /** The characters of action names. */
  predicate NameChar(c: CodePoint) {
    0x61 <= c <= 0x7A || c == 0x5F
  }

  predicate PlainName(s: Str) {
    forall c :: c in s ==> NameChar(c)
  }

  const GATED_ACTIONS: set<string> := {
    "", "save", "delete", "create", "update", "remove", "disable", "enable", "resources_create"
  }

  lemma GatedAction(p: Pair)
    requires p in APPROVAL_GATED
    ensures p.action in GATED_ACTIONS
  {}

  lemma GatedActionPlain(action: string)
    requires action in GATED_ACTIONS
    ensures forall i :: 0 <= i < |action| ==> NameChar(action[i] as int)
  {}

  lemma CommandPrefix(command: string)
    ensures command in GATED_CONFIG ==> "ha.config." <= command
    ensures command in GATED_PLAIN ==> !("ha.config." <= command)
  {
    if command in GATED_CONFIG {
      assert command[..10] == "ha.config.";
    } else if command in GATED_PLAIN {
      assert command[0] != 'h' || command[3] != 'c';
    }
  }

  lemma GatedShape(p: Pair)
    requires p in APPROVAL_GATED
    ensures PlainName(Name(p.action))
    ensures "ha.config." <= p.command <==> p.action != ""
  {
    GatedAction(p);
    GatedActionPlain(p.action);
    GatedCommand(p);
    CommandPrefix(p.command);
  }

  lemma NamePrefix(a: string, b: string)
    ensures Name(a) <= Name(b) <==> a <= b
  {
    if Name(a) <= Name(b) {
      forall i | 0 <= i < |a|
        ensures a[i] == b[i]
      {
        assert Name(a)[i] == Name(b)[i];
      }
    }
  }

  lemma NameDecoded(name: string)
    ensures Decode(Units(name)) == Name(name)
  {
    DecodeOfEncode(Name(name));
  }

  lemma PlainUnits(s: Str)
    requires PlainName(s)
    ensures Encode(s) == s
  {
    assert forall i :: 0 <= i < |s| ==> s[i] in s;
    EncodeBasic(s);
  }

  lemma AskedNames(command: Str, action: Str)
    requires Asks(command, action)
    ensures PlainName(action) && (TakesAction(command) <==> action != [])
  {
    var p :| p in APPROVAL_GATED && Name(p.command) == command && Name(p.action) == action;
    GatedShape(p);
    NamePrefix("ha.config.", p.command);
  }

  lemma ListedNames(command: JsStr, action: JsStr)
    requires Listed(APPROVAL_GATED, command, action)
    ensures Asks(Decode(command), action) && Decode(action) == action
  {
    var p :| p in APPROVAL_GATED && Units(p.command) == command && Units(p.action) == action;
    NameDecoded(p.command);
    NameDecoded(p.action);
    assert Asks(Decode(command), Name(p.action));
    AskedNames(Decode(command), Name(p.action));
    PlainUnits(Name(p.action));
  }

  lemma {:induction false} TrimStartKeeps(s: JsStr, c: Unit)
    requires c in s && !JsWhitespace(c)
    ensures c in TrimStart(s)
  {
    if JsWhitespace(s[0]) {
      assert s == [s[0]] + s[1..];
      TrimStartKeeps(s[1..], c);
    }
  }

  lemma {:induction false} TrimEndKeeps(s: JsStr, c: Unit)
    requires c in s && !JsWhitespace(c)
    ensures c in TrimEnd(s)
  {
    if JsWhitespace(s[|s| - 1]) {
      assert s == s[..|s| - 1] + [s[|s| - 1]];
      TrimEndKeeps(s[..|s| - 1], c);
    }
  }

  lemma {:induction false} LstripKeeps(s: Str, c: CodePoint)
    requires c in s && !PyWhitespace(c)
    ensures c in PyLstrip(s)
  {
    if PyWhitespace(s[0]) {
      assert s == [s[0]] + s[1..];
      LstripKeeps(s[1..], c);
    }
  }

  lemma {:induction false} RstripKeeps(s: Str, c: CodePoint)
    requires c in s && !PyWhitespace(c)
    ensures c in PyRstrip(s)
  {
    if PyWhitespace(s[|s| - 1]) {
      assert s == s[..|s| - 1] + [s[|s| - 1]];
      RstripKeeps(s[..|s| - 1], c);
    }
  }

  /** Whitespace to one language exactly when it is to the other. */
  predicate SameSpaces(s: JsStr) {
    forall c :: c in s ==> (JsWhitespace(c) <==> PyWhitespace(c))
  }

  lemma {:induction false} StartsAgree(s: JsStr)
    requires SameSpaces(s)
    ensures PyLstrip(s) == TrimStart(s) && SameSpaces(TrimStart(s))
  {
    if s != [] {
      assert s[0] in s && forall c :: c in s[1..] ==> c in s;
      StartsAgree(s[1..]);
    }
  }

  lemma {:induction false} EndsAgree(s: JsStr)
    requires SameSpaces(s)
    ensures PyRstrip(s) == TrimEnd(s)
  {
    if s != [] {
      assert s[|s| - 1] in s && forall c :: c in s[..|s| - 1] ==> c in s;
      EndsAgree(s[..|s| - 1]);
    }
  }

  /** Around a plain name there is JavaScript whitespace only. */
  lemma AroundName(u: JsStr, c: Unit)
    requires PlainName(Trim(u)) && c in u
    ensures JsWhitespace(c) || NameChar(c)
  {
    if !JsWhitespace(c) {
      TrimStartKeeps(u, c);
      TrimEndKeeps(TrimStart(u), c);
    }
  }

  /** What Python's `strip` makes of a text JavaScript trims to a plain name. */
  lemma NameStripped(u: JsStr)
    requires PlainName(Trim(u))
    ensures Decode(u) == u
    ensures BYTE_ORDER_MARK !in u ==> PyStrip(u) == Trim(u)
    ensures BYTE_ORDER_MARK in u ==> BYTE_ORDER_MARK in PyStrip(u)
  {
    forall c | c in u
      ensures JsWhitespace(c) || NameChar(c)
    {
      AroundName(u, c);
    }
    assert forall i :: 0 <= i < |u| ==> u[i] in u;
    DecodeBasic(u);
    if BYTE_ORDER_MARK in u {
      LstripKeeps(u, BYTE_ORDER_MARK);
      RstripKeeps(PyLstrip(u), BYTE_ORDER_MARK);
    } else {
      StartsAgree(u);
      EndsAgree(TrimStart(u));
    }
  }

  lemma {:induction false} ReceivedField(ms: seq<JsMember>, key: seq<Unit>)
    requires NoSurrogates(key)
    ensures var sent := LookupValue(ms, key);
            Get(FromJsMembers(ms), key) == if sent.None? then None else Some(FromJs(sent.value))
  {
    if ms != [] {
      DecodedKey(ms[0].key, key);
      ReceivedField(ms[1..], key);
      assert FromJsMembers(ms)[1..] == FromJsMembers(ms[1..]);
    }
  }

  lemma {:induction false} GetBefore(ms: seq<Member>, m: Member, key: Str)
    requires m.key != key
    ensures Get(ms + [m], key) == Get(ms, key)
  {
    if ms == [] {
      assert ms + [m] == [m] && [m][1..] == [];
    } else {
      assert (ms + [m])[0] == ms[0] && (ms + [m])[1..] == ms[1..] + [m];
      GetBefore(ms[1..], m, key);
    }
  }

  /** The stripped action is the hook's, or one no handler asks a marker for. */
  lemma StrippedAction(command: Str, u: JsStr)
    requires Asks(command, Trim(u)) && Trim(u) != []
    ensures var a := PyStrip(Decode(u));
            a != [] && if BYTE_ORDER_MARK in u then !Asks(command, a) else a == Trim(u)
  {
    AskedNames(command, Trim(u));
    NameStripped(u);
    if BYTE_ORDER_MARK in u {
      MarkedNotAsked(command, PyStrip(u));
    }
  }

  lemma MarkedNotAsked(command: Str, action: Str)
    requires BYTE_ORDER_MARK in action
    ensures !Asks(command, action)
  {
    if Asks(command, action) {
      AskedNames(command, action);
    }
  }

  lemma ReadsAction(command: Str, params: seq<Member>, s: Str)
    requires TakesAction(command) && Get(params, ACTION_KEY) == Some(JString(s))
    ensures NodeAction(command, params) == if PyStrip(s) == [] then None else Some(PyStrip(s))
  {}

  lemma SentAction(clean: seq<JsMember>) returns (u: JsStr)
    requires ActionOf(clean) != []
    ensures ActionOf(clean) == Trim(u) && (ActionPortable(clean) <==> BYTE_ORDER_MARK !in u)
    ensures Get(FromJsMembers(clean), ACTION_KEY) == Some(JString(Decode(u)))
  {
    CallKeysPlain();
    ReceivedField(clean, ACTION_KEY);
    u := LookupValue(clean, ACTION_KEY).value.u;
    ScalarTransport(u);
  }

  /** The node reads the hook's action exactly when the call's own holds no U+FEFF;
      otherwise it reads one no handler asks a marker for. */
  lemma ActionReceived(command: JsStr, clean: seq<JsMember>, params: seq<Member>)
    requires Listed(APPROVAL_GATED, command, ActionOf(clean))
    requires Get(params, ACTION_KEY) == Get(FromJsMembers(clean), ACTION_KEY)
    ensures var h, a := ActionOf(clean), NodeAction(Decode(command), params);
            && Decode(h) == h && a.Some?
            && if h == [] || ActionPortable(clean) then a.value == h && Asks(Decode(command), h)
               else !Asks(Decode(command), a.value)
  {
    var h := ActionOf(clean);
    ListedNames(command, h);
    AskedNames(Decode(command), h);
    if h != [] {
      var u := SentAction(clean);
      ReadsAction(Decode(command), params, Decode(u));
      StrippedAction(Decode(command), u);
    }
  }

  /** Main result: for a gated call the hook mints a marker for, the node's handler
      reaches its marker check on the rewritten params, once the caller hint is
      stripped, exactly when the call's action holds no U+FEFF; it then accepts exactly
      while the marker has not expired and its id is unused, and the handler sees the
      caller's own params. The hint itself is well formed and names the caller's own
      session. Every delay up to 719 s is inside the lifetime, none over 720 s is. */
  lemma HookMarkerAccepted(
    digest: Digest, used: UsedIds, command: JsStr, inner: seq<JsMember>, ctx: Context, grants: Model, nowMs: nat,
    exempt: bool, t: real)
    requires nowMs <= MAX_TIME_VALUE && ctx.id != []
    requires var clean := JsCallBody(inner);
             && Listed(APPROVAL_GATED, command, ActionOf(clean)) && !ctx.refused && !ctx.unsafeInteger
             && !SkipsPrompt(ctx, command, ActionOf(clean))
    ensures var result := BeforeToolCall(digest, NodesInvoke(command, inner), ctx, grants, nowMs);
            && result.Rewrite?
            && var (hint, received) := PopCallerHint(FromJsMembers(result.params));
               var check := NodeCheck(digest, used, Decode(command), received, exempt, t);
               && hint == OwnHint(ctx)
               && (check.Some? <==> ActionOf(JsCallBody(inner)) == [] || ActionPortable(JsCallBody(inner)))
               && (check.Some? ==>
                     var alive := t <= ExpiryOf(nowMs) as real;
                     && check.value.params == CallBody(FromJsMembers(inner))
                     && (check.value.verdict.Authorized? <==> alive && ctx.id !in Prune(used, t)))
    ensures t <= nowMs as real / 1000.0 + 719.0 ==> t <= ExpiryOf(nowMs) as real
    ensures t > nowMs as real / 1000.0 + 720.0 ==> t > ExpiryOf(nowMs) as real
  {
    var clean := JsCallBody(inner);
    var marker := NewMarker(digest, ctx.id, command, ActionOf(clean), clean, nowMs);
    HookMarkerVerdict(digest, used, command, inner, ctx, grants, nowMs, exempt, t);
    CheckReached(digest, used, command, inner, ctx, marker, exempt, t);
    WholeSeconds(nowMs);
  }

  lemma CheckReached(
    digest: Digest, used: UsedIds, command: JsStr, inner: seq<JsMember>, ctx: Context, marker: JsValue, exempt: bool,
    t: real)
    requires Listed(APPROVAL_GATED, command, ActionOf(JsCallBody(inner)))
    ensures var clean := JsCallBody(inner);
            var received := PopCallerHint(FromJsMembers(Hinted(ctx, clean) + [JsMember(APPROVAL_PARAM, marker)])).1;
            NodeCheck(digest, used, Decode(command), received, exempt, t)
            == if ActionOf(clean) == [] || ActionPortable(clean)
               then Some(Consume(digest, used, Decode(command), Decode(ActionOf(clean)), received, exempt, t))
               else None
  {
    var clean := JsCallBody(inner);
    var params := FromJsMembers(Hinted(ctx, clean) + [JsMember(APPROVAL_PARAM, marker)]);
    CleanHasNoReserved(inner);
    ReceivedCall(ctx, clean, marker);
    PopLeavesRest(params);
    ReservedNotAction();
    GetBefore(FromJsMembers(clean), Member(APPROVAL_PARAM, FromJs(marker)), ACTION_KEY);
    ActionReceived(command, clean, Without(params, CALLER_PARAM));
  }

  lemma ReservedNotAction()
    ensures APPROVAL_PARAM != ACTION_KEY
  {
    assert |APPROVAL_PARAM| != |ACTION_KEY|;
  }

  /** The check on the hook's own reading of the action. */
  lemma HookMarkerVerdict(
    digest: Digest, used: UsedIds, command: JsStr, inner: seq<JsMember>, ctx: Context, grants: Model, nowMs: nat,
    exempt: bool, t: real)
    requires nowMs <= MAX_TIME_VALUE && ctx.id != []
    requires var clean := JsCallBody(inner);
             && Listed(APPROVAL_GATED, command, ActionOf(clean)) && !ctx.refused && !ctx.unsafeInteger
             && !SkipsPrompt(ctx, command, ActionOf(clean))
    ensures var result := BeforeToolCall(digest, NodesInvoke(command, inner), ctx, grants, nowMs);
            && result.Rewrite?
            && var (hint, received) := PopCallerHint(FromJsMembers(result.params));
               var action := Decode(ActionOf(JsCallBody(inner)));
               var out := Consume(digest, used, Decode(command), action, received, exempt, t);
               && hint == OwnHint(ctx)
               && out.params == CallBody(FromJsMembers(inner))
               && (out.verdict.Authorized? <==> t <= ExpiryOf(nowMs) as real && ctx.id !in Prune(used, t))
  {
    var clean := JsCallBody(inner);
    var action := ActionOf(clean);
    var marker := NewMarker(digest, ctx.id, command, action, clean, nowMs);
    CleanHasNoReserved(inner);
    TransportCallBody(inner);
    ReceivedCall(ctx, clean, marker);
    HookHint(ctx, clean, marker);
    var params := FromJsMembers(Hinted(ctx, clean) + [JsMember(APPROVAL_PARAM, marker)]);
    PopLeavesRest(params);
    MintedMarkerVerdict(digest, used, command, action, clean, ctx.id, nowMs, Without(params, CALLER_PARAM), exempt, t);
  }

  lemma WholeSeconds(nowMs: nat)
    ensures nowMs as real / 1000.0 - 1.0 < (nowMs / 1000) as real <= nowMs as real / 1000.0
  {
    var q, r := nowMs / 1000, nowMs % 1000;
    assert nowMs == 1000 * q + r;
    assert nowMs as real == 1000.0 * q as real + r as real;
  }

  // ---------------------------------------------------------------------------
  // From an admin tool to the node

  const NODE: seq<Unit> := [0x6E, 0x6F, 0x64, 0x65] // node

  /** `isAdminAddonSlugDenied`. */
  predicate SlugDenied(slug: JsStr) {
    slug == [] || slug == Units("homeassistant") || slug == Units("supervisor") || Units("core_") <= slug
  }

  /** The tool throws or refuses by itself: no node, no slug or a denied one for an add-on
      command, no entity for an update. */
  predicate ToolRefuses(command: JsStr, args: seq<JsMember>) {
    RefusesFields(command, Trimmed(args, NODE), Trimmed(args, SLUG), Trimmed(args, ENTITY_ID))
  }

  predicate RefusesFields(command: JsStr, node: JsStr, slug: JsStr, entityId: JsStr) {
    || node == []
    || (Units("ha.addon_") <= command && SlugDenied(slug))
    || (command == Units("ha.update_install") && entityId == [])
  }

  /** What an admin tool sends for the arguments the hook returned: the command's own
      params, the marker, and the host's session as caller hint. It sends nothing outside
      an Assist session or when it refuses. */
  function AdminSent(ctx: Context, command: JsStr, args: seq<JsMember>): Option<seq<JsMember>> {
    if AssistKey(ctx.session).None? || ToolRefuses(command, args) then None
    else
      var params := AdminCommandParams(command, args);
      var marked := match LookupValue(args, APPROVAL_PARAM)
                    case Some(marker) => params + [JsMember(APPROVAL_PARAM, marker)]
                    case None => params;
      Some(JsWithout(marked, CALLER_PARAM) + [HintFor(AssistKey(ctx.session).value)])
  }

  lemma {:induction false} LookupAppended(ms: seq<JsMember>, m: JsMember, key: seq<Unit>)
    ensures m.key != key ==> LookupValue(ms + [m], key) == LookupValue(ms, key)
    ensures m.key == key && !JsHasKey(ms, key) ==> LookupValue(ms + [m], key) == Some(m.value)
  {
    if ms == [] {
      assert ms + [m] == [m];
    } else {
      assert (ms + [m])[1..] == ms[1..] + [m];
      assert !JsHasKey(ms, key) ==> !JsHasKey(ms[1..], key) && ms[0] in ms;
      LookupAppended(ms[1..], m, key);
    }
  }

  /** Every key the admin tools send is shorter than the reserved ones. */
  predicate ShortKeys(ms: seq<JsMember>) {
    forall m :: m in ms ==> |m.key| <= 9
  }

  lemma ShortKeyDiffers(key: seq<Unit>)
    requires |key| <= 9
    ensures key != APPROVAL_PARAM && key != CALLER_PARAM
  {}

  lemma AdminKeysShort()
    ensures |DOMAIN| <= 9 && |ENTITY_ID| <= 9 && |BACKUP| <= 9 && |VERSION| <= 9 && |SLUG| <= 9 && |NODE| <= 9
  {}

  lemma ShortLookup(args: seq<JsMember>, m: JsMember, key: seq<Unit>)
    requires m.key == APPROVAL_PARAM && |key| <= 9
    ensures LookupValue(args + [m], key) == LookupValue(args, key)
  {
    ShortKeyDiffers(key);
    LookupAppended(args, m, key);
  }

  /** The marker among the arguments changes nothing the command's params are made of. */
  lemma ParamsIgnoreMarker(reload: bool, install: bool, args: seq<JsMember>, m: JsMember)
    requires m.key == APPROVAL_PARAM
    ensures AdminParamsFor(reload, install, args + [m]) == AdminParamsFor(reload, install, args)
  {
    AdminKeysShort();
    ShortLookup(args, m, DOMAIN);
    ShortLookup(args, m, ENTITY_ID);
    ShortLookup(args, m, BACKUP);
    ShortLookup(args, m, VERSION);
    ShortLookup(args, m, SLUG);
  }

  lemma {:induction false} LookupWithout(ms: seq<JsMember>, dropped: seq<Unit>, key: seq<Unit>)
    requires dropped != key
    ensures LookupValue(JsWithout(ms, dropped), key) == LookupValue(ms, key)
  {
    if ms != [] {
      LookupWithout(ms[1..], dropped, key);
      assert ([ms[0]] + JsWithout(ms[1..], dropped))[1..] == JsWithout(ms[1..], dropped);
    }
  }

  /** A reserved field among the arguments changes none of the others. */
  lemma ReservedUnread(args: seq<JsMember>, m: JsMember, key: seq<Unit>)
    requires m.key == APPROVAL_PARAM && |key| <= 9
    ensures Trimmed(args + [m], key) == Trimmed(args, key)
    ensures Trimmed(JsWithout(args, APPROVAL_PARAM), key) == Trimmed(args, key)
  {
    ShortKeyDiffers(key);
    ShortLookup(args, m, key);
    LookupWithout(args, APPROVAL_PARAM, key);
  }

  lemma RefusalIgnoresMarker(command: JsStr, args: seq<JsMember>, m: JsMember)
    requires m.key == APPROVAL_PARAM
    ensures ToolRefuses(command, args + [m]) <==> ToolRefuses(command, args)
    ensures ToolRefuses(command, JsWithout(args, APPROVAL_PARAM)) <==> ToolRefuses(command, args)
  {
    AdminKeysShort();
    ReservedUnread(args, m, NODE);
    ReservedUnread(args, m, SLUG);
    ReservedUnread(args, m, ENTITY_ID);
  }

  lemma AdminParamsShort(reload: bool, install: bool, args: seq<JsMember>)
    ensures ShortKeys(AdminParamsFor(reload, install, args))
  {
    AdminKeysShort();
  }

  lemma AdminCommandFacts(command: JsStr, args: seq<JsMember>, m: JsMember)
    requires m.key == APPROVAL_PARAM
    ensures AdminCommandParams(command, args + [m]) == AdminCommandParams(command, args)
    ensures ShortKeys(AdminCommandParams(command, args))
  {
    var reload, install := command == Units("ha.reload_config"), command == Units("ha.update_install");
    ParamsIgnoreMarker(reload, install, args, m);
    AdminParamsShort(reload, install, args);
  }

  lemma ShortLacks(ms: seq<JsMember>, m: JsMember)
    requires ShortKeys(ms) && m.key == APPROVAL_PARAM
    ensures forall x :: x in ms + [m] ==> x.key != CALLER_PARAM
    ensures forall x :: x in ms ==> x.key != APPROVAL_PARAM
  {
    ReservedNamesDiffer();
    forall x | x in ms
      ensures x.key != APPROVAL_PARAM && x.key != CALLER_PARAM
    {
      ShortKeyDiffers(x.key);
    }
  }

  lemma {:induction false} JsWithoutAbsent(ms: seq<JsMember>, key: seq<Unit>)
    requires forall m :: m in ms ==> m.key != key
    ensures JsWithout(ms, key) == ms
  {
    if ms != [] {
      assert ms[0] in ms && forall m :: m in ms[1..] ==> m in ms;
      JsWithoutAbsent(ms[1..], key);
    }
  }

  lemma {:induction false} ReceivedLacks(ms: seq<JsMember>, key: seq<Unit>)
    requires NoSurrogates(key) && forall m :: m in ms ==> m.key != key
    ensures !HasKey(FromJsMembers(ms), key)
  {
    FromJsMembersCount(ms);
    forall i | 0 <= i < |ms|
      ensures FromJsMembers(ms)[i].key != key
    {
      FromJsMembersAt(ms, i);
      DecodedKey(ms[i].key, key);
      assert ms[i] in ms;
    }
  }

  lemma PoppedRest(front: seq<Member>, m: Member)
    requires m.key == CALLER_PARAM && !HasKey(front, CALLER_PARAM)
    ensures PopCallerHint(front + [m]).1 == front
  {
    PopLeavesRest(front + [m]);
    WithoutConcat(front, [m], CALLER_PARAM);
    WithoutAbsent(front, CALLER_PARAM);
    OneMember(m);
  }

  /** What the node pops when the hint comes last. */
  lemma PoppedLast(front: seq<Member>, raw: Option<JsStr>)
    requires AssistKey(raw).Some? && !HasKey(front, CALLER_PARAM)
    ensures var key := AssistKey(raw).value;
            PopCallerHint(front + [Member(CALLER_PARAM, FromJs(HintFor(key).value))]) == (Hint(Decode(key)), front)
  {
    var hint := Member(CALLER_PARAM, FromJs(HintFor(AssistKey(raw).value).value));
    PoppedRest(front, hint);
    assert [hint] + [] == [hint];
    PoppedHint(front, [], raw);
  }

  /** What an admin tool sends for the hook's rewritten arguments. */
  lemma AdminSends(ctx: Context, command: JsStr, clean: seq<JsMember>, m: JsMember, key: JsStr)
    requires AssistKey(ctx.session) == Some(key) && !JsHasKey(clean, APPROVAL_PARAM) && m.key == APPROVAL_PARAM
    requires !ToolRefuses(command, clean)
    ensures AdminSent(ctx, command, clean + [m]) == Some(AdminCommandParams(command, clean) + [m] + [HintFor(key)])
  {
    var params := AdminCommandParams(command, clean);
    AdminCommandFacts(command, clean, m);
    RefusalIgnoresMarker(command, clean, m);
    LookupAppended(clean, m, APPROVAL_PARAM);
    ShortLacks(params, m);
    JsWithoutAbsent(params + [m], CALLER_PARAM);
    assert JsMember(APPROVAL_PARAM, m.value) == m;
  }

  /** What arrives for the hook's rewritten arguments. */
  lemma AdminReceived(ctx: Context, command: JsStr, clean: seq<JsMember>, marker: JsValue, key: JsStr)
    requires AssistKey(ctx.session) == Some(key) && !JsHasKey(clean, APPROVAL_PARAM) && !ToolRefuses(command, clean)
    ensures var params, m := AdminCommandParams(command, clean), JsMember(APPROVAL_PARAM, marker);
            var sent := AdminSent(ctx, command, clean + [m]);
            && !HasKey(FromJsMembers(params), APPROVAL_PARAM)
            && sent.Some?
            && PopCallerHint(FromJsMembers(sent.value))
            == (OwnHint(ctx), FromJsMembers(params) + [Member(APPROVAL_PARAM, FromJs(marker))])
  {
    var params, m := AdminCommandParams(command, clean), JsMember(APPROVAL_PARAM, marker);
    AdminSends(ctx, command, clean, m, key);
    AdminCommandFacts(command, clean, m);
    ShortLacks(params, m);
    ReservedNamesPlain();
    ReceivedLacks(params + [m], CALLER_PARAM);
    ReceivedLacks(params, APPROVAL_PARAM);
    WithHint(params + [m], key);
    FromJsConcat(params, [m]);
    FromJsOne(m);
    ReservedNamesDecode();
    PoppedLast(FromJsMembers(params + [m]), ctx.session);
  }

  lemma AdminVerdict(
    digest: Digest, used: UsedIds, command: JsStr, params: seq<JsMember>, id: seq<Byte>, nowMs: nat, exempt: bool,
    t: real)
    requires nowMs <= MAX_TIME_VALUE && id != [] && !HasKey(FromJsMembers(params), APPROVAL_PARAM)
    ensures var marker := NewMarker(digest, id, command, [], params, nowMs);
            var received := FromJsMembers(params) + [Member(APPROVAL_PARAM, FromJs(marker))];
            var out := Consume(digest, used, Decode(command), [], received, exempt, t);
            && out.params == FromJsMembers(params)
            && (out.verdict.Authorized? <==> t <= ExpiryOf(nowMs) as real && id !in Prune(used, t))
  {
    var marker := NewMarker(digest, id, command, [], params, nowMs);
    var received := FromJsMembers(params) + [Member(APPROVAL_PARAM, FromJs(marker))];
    assert Decode([]) == [];
    MintedMarkerVerdict(digest, used, command, [], params, id, nowMs, received, exempt, t);
  }

  lemma AdminRewrites(digest: Digest, command: JsStr, args: seq<JsMember>, ctx: Context, grants: Model, nowMs: nat)
    requires !ctx.refused && !SkipsPrompt(ctx, command, [])
    ensures var clean := JsWithout(args, APPROVAL_PARAM);
            var marker := NewMarker(digest, ctx.id, command, [], AdminCommandParams(command, clean), nowMs);
            var result := BeforeToolCall(digest, AdminTool(command, args), ctx, grants, nowMs);
            result.Rewrite? && result.params == clean + [JsMember(APPROVAL_PARAM, marker)]
  {}

  /** What reaches the node carries the caller's own hint and a marker the node accepts
      on exactly these params until its expiry, while the id is unused. */
  ghost predicate AcceptedAsSent(
    digest: Digest, used: UsedIds, ctx: Context, command: JsStr, params: seq<JsMember>, sent: seq<JsMember>, nowMs: nat,
    exempt: bool, t: real)
  {
    var (hint, received) := PopCallerHint(FromJsMembers(sent));
    var out := Consume(digest, used, Decode(command), [], received, exempt, t);
    && hint == OwnHint(ctx) && hint.Hint?
    && out.params == FromJsMembers(params)
    && (out.verdict.Authorized? <==> t <= ExpiryOf(nowMs) as real && ctx.id !in Prune(used, t))
  }

  lemma AdminSentAccepted(
    digest: Digest, used: UsedIds, ctx: Context, command: JsStr, clean: seq<JsMember>, nowMs: nat, exempt: bool,
    t: real)
    requires nowMs <= MAX_TIME_VALUE && ctx.id != []
    requires AssistKey(ctx.session).Some? && !JsHasKey(clean, APPROVAL_PARAM) && !ToolRefuses(command, clean)
    ensures var params := AdminCommandParams(command, clean);
            var marker := NewMarker(digest, ctx.id, command, [], params, nowMs);
            var sent := AdminSent(ctx, command, clean + [JsMember(APPROVAL_PARAM, marker)]);
            sent.Some? && AcceptedAsSent(digest, used, ctx, command, params, sent.value, nowMs, exempt, t)
  {
    var params := AdminCommandParams(command, clean);
    var marker := NewMarker(digest, ctx.id, command, [], params, nowMs);
    AdminReceived(ctx, command, clean, marker, AssistKey(ctx.session).value);
    AdminVerdict(digest, used, command, params, ctx.id, nowMs, exempt, t);
  }

  /** The same for the plugin's own admin tools: a tool sends something exactly inside an
      Assist session and for arguments it does not refuse itself, and what it sends
      carries a well-formed hint and a marker the node accepts on exactly the command's
      params for as long. */
  lemma AdminMarkerAccepted(
    digest: Digest, used: UsedIds, command: JsStr, args: seq<JsMember>, ctx: Context, grants: Model, nowMs: nat,
    exempt: bool, t: real)
    requires nowMs <= MAX_TIME_VALUE && ctx.id != []
    requires !ctx.refused && !SkipsPrompt(ctx, command, [])
    ensures var result := BeforeToolCall(digest, AdminTool(command, args), ctx, grants, nowMs);
            var params := AdminCommandParams(command, JsWithout(args, APPROVAL_PARAM));
            && result.Rewrite?
            && var sent := AdminSent(ctx, command, result.params);
               && (sent.Some? <==> AssistKey(ctx.session).Some? && !ToolRefuses(command, args))
               && (sent.Some? ==> AcceptedAsSent(digest, used, ctx, command, params, sent.value, nowMs, exempt, t))
    ensures t <= nowMs as real / 1000.0 + 719.0 ==> t <= ExpiryOf(nowMs) as real
    ensures t > nowMs as real / 1000.0 + 720.0 ==> t > ExpiryOf(nowMs) as real
  {
    WholeSeconds(nowMs);
    var clean := JsWithout(args, APPROVAL_PARAM);
    var marker := NewMarker(digest, ctx.id, command, [], AdminCommandParams(command, clean), nowMs);
    AdminRewrites(digest, command, args, ctx, grants, nowMs);
    RefusalIgnoresMarker(command, args, JsMember(APPROVAL_PARAM, marker));
    RefusalIgnoresMarker(command, clean, JsMember(APPROVAL_PARAM, marker));
    if AssistKey(ctx.session).Some? && !ToolRefuses(command, args) {
      AdminSentAccepted(digest, used, ctx, command, clean, nowMs, exempt, t);
    }
  }

  // ---------------------------------------------------------------------------
  // What is sent, field by field

  /** A name as a JavaScript string decodes to the name, and nothing else does. */
  lemma NamedExactly(name: string, u: JsStr)
    ensures u == Units(name) <==> Decode(u) == Name(name)
  {
    NameDecoded(name);
    EncodeDecode(u);
  }

  lemma FieldsSpelled()
    ensures DOMAIN == Units("domain") && ENTITY_ID == Units("entity_id") && BACKUP == Units("backup")
    ensures VERSION == Units("version") && SLUG == Units("slug") && NODE == Units("node")
    ensures ACTION_KEY == Units("action") && SESSION_KEY == Units("sessionKey")
  {
    FieldNames();
    EncodeBasic(DOMAIN);
    EncodeBasic(ENTITY_ID);
    EncodeBasic(BACKUP);
    EncodeBasic(VERSION);
    EncodeBasic(SLUG);
    EncodeBasic(NODE);
    EncodeBasic(ACTION_KEY);
    EncodeBasic(SESSION_KEY);
  }

  lemma FieldNames()
    ensures DOMAIN == Name("domain") && ENTITY_ID == Name("entity_id") && BACKUP == Name("backup")
    ensures VERSION == Name("version") && SLUG == Name("slug") && NODE == Name("node")
    ensures ACTION_KEY == Name("action") && SESSION_KEY == Name("sessionKey")
  {}

  /** A reload takes its trimmed domain, when that is not blank. */
  lemma ReloadParams(args: seq<JsMember>)
    ensures var domain := Trimmed(args, Units("domain"));
            AdminCommandParams(Units("ha.reload_config"), args)
            == if domain == [] then [] else [JsMember(Units("domain"), JsString(domain))]
  {
    FieldsSpelled();
  }

  lemma InstallIsNoReload()
    ensures Units("ha.update_install") != Units("ha.reload_config")
  {
    NameDecoded("ha.update_install");
    NameDecoded("ha.reload_config");
    assert |Name("ha.update_install")| != |Name("ha.reload_config")|;
  }

  /** An update takes its trimmed entity, a boolean backup and a version that is not empty,
      both as given. */
  lemma InstallParams(args: seq<JsMember>)
    ensures var backup, version := LookupValue(args, Units("backup")), LookupValue(args, Units("version"));
            AdminCommandParams(Units("ha.update_install"), args)
            == [JsMember(Units("entity_id"), JsString(Trimmed(args, Units("entity_id"))))]
               + (if backup.Some? && backup.value.JsBool? then [JsMember(Units("backup"), backup.value)] else [])
               + (if version.Some? && version.value.JsString? && version.value.u != []
                  then [JsMember(Units("version"), version.value)] else [])
  {
    InstallIsNoReload();
    FieldsSpelled();
  }

  /** Every add-on command takes its trimmed slug. */
  lemma SlugParams(command: JsStr, args: seq<JsMember>)
    requires command != Units("ha.reload_config") && command != Units("ha.update_install")
    ensures AdminCommandParams(command, args) == [JsMember(Units("slug"), JsString(Trimmed(args, Units("slug"))))]
  {
    FieldsSpelled();
  }

  /** The slugs no add-on tool touches: none, the two core add-ons, and the core_ family. */
  lemma SlugDeniedExactly(slug: JsStr)
    ensures SlugDenied(slug) <==>
            || Decode(slug) == [] || Decode(slug) == Name("homeassistant") || Decode(slug) == Name("supervisor")
            || Units("core_") <= slug
  {
    EncodeDecode(slug);
    NamedExactly("homeassistant", slug);
    NamedExactly("supervisor", slug);
  }

  lemma RefusedFieldsExactly(command: JsStr, node: JsStr, slug: JsStr, entityId: JsStr)
    ensures RefusesFields(command, node, slug, entityId) <==>
            || node == []
            || (Units("ha.addon_") <= command && SlugDenied(slug))
            || (Decode(command) == Name("ha.update_install") && entityId == [])
  {
    NamedExactly("ha.update_install", command);
  }

  /** What the tool refuses by itself: no node, an add-on slug that is blank or denied, or
      an update without an entity, from the arguments of these names. */
  lemma RefusesExactly(command: JsStr, args: seq<JsMember>)
    ensures ToolRefuses(command, args) <==>
            || Trimmed(args, Units("node")) == []
            || (Units("ha.addon_") <= command && SlugDenied(Trimmed(args, Units("slug"))))
            || (Decode(command) == Name("ha.update_install") && Trimmed(args, Units("entity_id")) == [])
  {
    FieldsSpelled();
    RefusedFieldsExactly(command, Trimmed(args, NODE), Trimmed(args, SLUG), Trimmed(args, ENTITY_ID));
  }

  /** A text argument without the white space around it; none, or one of another type, is
      empty. */
  lemma TrimmedExactly(args: seq<JsMember>, m: JsMember, key: seq<Unit>)
    ensures Trimmed([], key) == []
    ensures m.key != key ==> Trimmed([m] + args, key) == Trimmed(args, key)
    ensures m.key == key ==> Trimmed([m] + args, key) == if m.value.JsString? then Trim(m.value.u) else []
  {
    assert ([m] + args)[1..] == args;
  }
}
