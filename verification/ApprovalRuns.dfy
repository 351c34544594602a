/** Whole runs of the approval hook: calls, human decisions, session ends and a
    clock that moves forward. A prompt is skipped only under a live grant. */
module ApprovalRuns {
  import opened Text
  import opened JsonStrings
  import opened JsonModel
  import opened CanonicalJson
  import opened PluginCanonical
  import opened ApprovalMarker
  import opened ApprovalPolicy
  import opened GrantStore
  import opened ApprovalHook

  /** What happened to grants, oldest first. */
  datatype Fact = Granted(t: Triple, at: nat) | Ended(session: JsStr)

  datatype State = State(now: nat, grants: Model, offers: seq<Triple>, history: seq<Fact>)

  datatype Event =
    | HookCall(call: ToolCall, ctx: Context)
    | HumanDecides(offer: nat, allowAlways: bool)
    | SessionEnds(session: Option<JsStr>)
    | ClockMoves(ms: nat)

  const INIT: State := State(0, map[], [], [])

  /** The command and action a call is about. */
  function Subject(call: ToolCall): (JsStr, JsStr) {
    match call
    case OtherTool => ([], [])
    case NodesInvoke(command, inner) => (command, ActionOf(JsCallBody(inner)))
    case AdminTool(command, _) => (command, [])
  }

  /** The command and action of a call the hook mints a marker for. */
  function MintedFor(call: ToolCall, ctx: Context): Option<(JsStr, JsStr)> {
    match call
    case OtherTool => None
    case NodesInvoke(command, inner) =>
      var action := ActionOf(JsCallBody(inner));
      var gated := Listed(APPROVAL_GATED, command, action);
      if !gated || ctx.refused || ctx.unsafeInteger || SkipsPrompt(ctx, command, action) then None
      else Some((command, action))
    case AdminTool(command, _) =>
      if ctx.refused || SkipsPrompt(ctx, command, []) then None else Some((command, []))
  }

  function ConsultedScope(call: ToolCall, ctx: Context): Option<Triple> {
    match MintedFor(call, ctx)
    case None => None
    case Some((command, action)) => GrantScope(ctx.session, command, action)
  }

  function AfterGrant(s: State, granted: Triple): State {
    s.(grants := ModelGrant(s.grants, granted, s.now), history := s.history + [Granted(granted, s.now)])
  }

  function AfterEnd(s: State, session: JsStr): State {
    s.(grants := ModelRevoke(s.grants, session), history := s.history + [Ended(session)])
  }

  function Step(digest: Digest, s: State, e: Event): State {
    match e
    case HookCall(call, ctx) =>
      var scope := ConsultedScope(call, ctx);
      var result := BeforeToolCall(digest, call, ctx, s.grants, s.now);
      s.(grants := if scope.Some? then ModelAfterHas(s.grants, scope.value, s.now) else s.grants,
         offers := if result.Rewrite? && result.prompt.AskOnceOrAlways?
                   then s.offers + [result.prompt.scope] else s.offers)
    case HumanDecides(offer, allowAlways) =>
      if offer < |s.offers| && allowAlways then AfterGrant(s, s.offers[offer]) else s
    case SessionEnds(session) =>
      (match GrantSessionKey(session)
       case None => s
       case Some(key) => AfterEnd(s, key))
    case ClockMoves(ms) => s.(now := s.now + ms)
  }

  function Run(digest: Digest, events: seq<Event>): State {
    if events == [] then INIT
    else Step(digest, Run(digest, events[..|events| - 1]), events[|events| - 1])
  }

  // ---------------------------------------------------------------------------
  // Live grants

  ghost predicate NotEndedSince(history: seq<Fact>, session: JsStr, k: int) {
    forall i :: 0 <= k < i < |history| ==> history[i] != Ended(session)
  }

  ghost predicate GrantAt(history: seq<Fact>, t: Triple, k: int) {
    0 <= k < |history| && history[k].Granted? && history[k].t == t && NotEndedSince(history, t.session, k)
  }

  /** The triple was granted less than an hour ago and its session has not ended since. */
  ghost predicate Live(history: seq<Fact>, t: Triple, now: nat) {
    exists k :: GrantAt(history, t, k) && now < history[k].at + 3_600_000
  }

  ghost predicate Recorded(s: State, t: Triple) {
    t in s.grants ==> exists k :: GrantAt(s.history, t, k) && s.grants[t] == s.history[k].at + GRANT_TTL_MS
  }

  ghost predicate Remembered(s: State, t: Triple, k: int) {
    GrantAt(s.history, t, k) ==>
      || s.history[k].at + GRANT_TTL_MS <= s.now
      || (t in s.grants && s.grants[t] >= s.history[k].at + GRANT_TTL_MS)
  }

  ghost predicate Invariant(s: State) {
    && (forall t :: Recorded(s, t))
    && (forall t, k :: Remembered(s, t, k))
    && (forall i :: 0 <= i < |s.history| && s.history[i].Granted? ==> s.history[i].at <= s.now)
    && (forall t :: t in s.offers ==> !Listed(DESTRUCTIVE, t.command, t.action))
    && (forall t :: t in s.grants ==> !Listed(DESTRUCTIVE, t.command, t.action))
  }

  lemma GrantAtExtends(history: seq<Fact>, fact: Fact, t: Triple, k: int)
    ensures GrantAt(history + [fact], t, k) && k < |history| ==> GrantAt(history, t, k)
    ensures GrantAt(history, t, k) && fact != Ended(t.session) ==> GrantAt(history + [fact], t, k)
    ensures GrantAt(history + [fact], t, k) ==> fact != Ended(t.session) || k == |history|
  {
    var longer := history + [fact];
    assert forall i :: 0 <= i < |history| ==> longer[i] == history[i];
    assert longer[|history|] == fact;
  }

  function AfterLookup(s: State, scope: Triple): State {
    s.(grants := ModelAfterHas(s.grants, scope, s.now))
  }

  lemma LookupRecorded(s: State, scope: Triple, t: Triple)
    requires Recorded(s, t)
    ensures Recorded(AfterLookup(s, scope), t)
  {}

  lemma LookupRemembered(s: State, scope: Triple, t: Triple, k: int)
    requires Remembered(s, t, k)
    ensures Remembered(AfterLookup(s, scope), t, k)
  {}

  lemma LookupKeeps(s: State, scope: Triple)
    requires Invariant(s)
    ensures Invariant(AfterLookup(s, scope))
  {
    var s' := AfterLookup(s, scope);
    forall t
      ensures Recorded(s', t)
    {
      assert Recorded(s, t);
      LookupRecorded(s, scope, t);
    }
    forall t, k
      ensures Remembered(s', t, k)
    {
      assert Remembered(s, t, k);
      LookupRemembered(s, scope, t, k);
    }
  }

  lemma OfferKeeps(s: State, offer: Triple)
    requires Invariant(s) && !Listed(DESTRUCTIVE, offer.command, offer.action)
    ensures Invariant(s.(offers := s.offers + [offer]))
  {
    var s' := s.(offers := s.offers + [offer]);
    forall t
      ensures Recorded(s', t)
    {
      assert Recorded(s, t);
    }
    forall t, k
      ensures Remembered(s', t, k)
    {
      assert Remembered(s, t, k);
    }
  }

  lemma ApprovedOffer(
    digest: Digest, ctx: Context, command: JsStr, action: JsStr, sent: seq<JsMember>, bound: seq<JsMember>,
    grants: Model, now: nat)
    ensures var result := Approved(digest, ctx, command, action, sent, bound, grants, now);
            result.prompt.AskOnceOrAlways? ==> GrantScope(ctx.session, command, action) == Some(result.prompt.scope)
  {}

  lemma NodesOffer(digest: Digest, command: JsStr, inner: seq<JsMember>, ctx: Context, grants: Model, now: nat)
    ensures var result := BeforeToolCall(digest, NodesInvoke(command, inner), ctx, grants, now);
            result.Rewrite? && result.prompt.AskOnceOrAlways?
            ==> GrantScope(ctx.session, command, ActionOf(JsCallBody(inner))) == Some(result.prompt.scope)
                && MintedFor(NodesInvoke(command, inner), ctx) == Some((command, ActionOf(JsCallBody(inner))))
  {
    var clean := JsCallBody(inner);
    ApprovedOffer(digest, ctx, command, ActionOf(clean), Hinted(ctx, clean), clean, grants, now);
  }

  lemma AdminOffer(digest: Digest, command: JsStr, args: seq<JsMember>, ctx: Context, grants: Model, now: nat)
    ensures var result := BeforeToolCall(digest, AdminTool(command, args), ctx, grants, now);
            result.Rewrite? && result.prompt.AskOnceOrAlways?
            ==> GrantScope(ctx.session, command, []) == Some(result.prompt.scope)
                && MintedFor(AdminTool(command, args), ctx) == Some((command, []))
  {
    ApprovedOffer(digest, ctx, command, [], JsWithout(args, APPROVAL_PARAM),
                  AdminCommandParams(command, JsWithout(args, APPROVAL_PARAM)), grants, now);
  }

  lemma OfferIsConsulted(digest: Digest, call: ToolCall, ctx: Context, grants: Model, now: nat)
    ensures var result := BeforeToolCall(digest, call, ctx, grants, now);
            result.Rewrite? && result.prompt.AskOnceOrAlways? ==> ConsultedScope(call, ctx) == Some(result.prompt.scope)
  {
    match call
    case OtherTool =>
    case NodesInvoke(command, inner) => NodesOffer(digest, command, inner, ctx, grants, now);
    case AdminTool(command, args) => AdminOffer(digest, command, args, ctx, grants, now);
  }

  /** "Allow always" is offered only for the caller's own trimmed session key and the
      command and action of the call, never for a destructive pair. */
  lemma OfferIsScope(digest: Digest, call: ToolCall, ctx: Context, grants: Model, now: nat)
    ensures var result := BeforeToolCall(digest, call, ctx, grants, now);
            var (command, action) := Subject(call);
            result.Rewrite? && result.prompt.AskOnceOrAlways? ==>
              && ctx.session.Some? && Trim(ctx.session.value) != [] && !Listed(DESTRUCTIVE, command, action)
              && result.prompt.scope == Triple(Trim(ctx.session.value), command, action)
  {
    OfferIsConsulted(digest, call, ctx, grants, now);
    MintedSubject(call, ctx);
  }

  lemma MintedSubject(call: ToolCall, ctx: Context)
    ensures MintedFor(call, ctx).Some? ==> MintedFor(call, ctx).value == Subject(call)
  {}

  lemma ScopeNotDestructive(call: ToolCall, ctx: Context)
    ensures ConsultedScope(call, ctx).Some? ==>
              var t := ConsultedScope(call, ctx).value; !Listed(DESTRUCTIVE, t.command, t.action)
  {}

  lemma HookCallKeeps(digest: Digest, s: State, e: Event)
    requires Invariant(s) && e.HookCall?
    ensures Invariant(Step(digest, s, e))
  {
    var call, ctx := e.call, e.ctx;
    var scope := ConsultedScope(call, ctx);
    var result := BeforeToolCall(digest, call, ctx, s.grants, s.now);
    OfferIsConsulted(digest, call, ctx, s.grants, s.now);
    ScopeNotDestructive(call, ctx);
    var looked := s;
    if scope.Some? {
      LookupKeeps(s, scope.value);
      looked := AfterLookup(s, scope.value);
    }
    if result.Rewrite? && result.prompt.AskOnceOrAlways? {
      OfferKeeps(looked, result.prompt.scope);
    }
  }

  lemma GrantRecorded(s: State, granted: Triple, t: Triple)
    requires Recorded(s, t)
    ensures Recorded(AfterGrant(s, granted), t)
  {
    var s' := AfterGrant(s, granted);
    var last := |s.history|;
    if t == granted {
      assert s'.history[last] == Granted(granted, s.now);
      assert GrantAt(s'.history, t, last);
    } else if t in s'.grants {
      var k :| GrantAt(s.history, t, k) && s.grants[t] == s.history[k].at + GRANT_TTL_MS;
      GrantAtExtends(s.history, Granted(granted, s.now), t, k);
      assert s'.history[k] == s.history[k];
    }
  }

  lemma GrantRemembered(s: State, granted: Triple, t: Triple, k: int)
    requires Remembered(s, t, k)
    requires 0 <= k < |s.history| && s.history[k].Granted? ==> s.history[k].at <= s.now
    ensures Remembered(AfterGrant(s, granted), t, k)
  {
    GrantAtExtends(s.history, Granted(granted, s.now), t, k);
    if 0 <= k < |s.history| {
      assert AfterGrant(s, granted).history[k] == s.history[k];
    }
  }

  lemma GrantKeeps(s: State, granted: Triple)
    requires Invariant(s) && granted in s.offers
    ensures Invariant(AfterGrant(s, granted))
  {
    var s' := AfterGrant(s, granted);
    forall t
      ensures Recorded(s', t)
    {
      assert Recorded(s, t);
      GrantRecorded(s, granted, t);
    }
    forall t, k
      ensures Remembered(s', t, k)
    {
      assert Remembered(s, t, k);
      GrantRemembered(s, granted, t, k);
    }
  }

  lemma SessionEndKeeps(s: State, key: JsStr)
    requires Invariant(s)
    ensures Invariant(AfterEnd(s, key))
  {
    var fact := Ended(key);
    var s' := AfterEnd(s, key);
    forall t
      ensures Recorded(s', t)
    {
      if t in s'.grants {
        assert Recorded(s, t);
        var k :| GrantAt(s.history, t, k) && s.grants[t] == s.history[k].at + GRANT_TTL_MS;
        GrantAtExtends(s.history, fact, t, k);
        assert s'.history[k] == s.history[k];
      }
    }
    forall t, k
      ensures Remembered(s', t, k)
    {
      GrantAtExtends(s.history, fact, t, k);
      assert Remembered(s, t, k);
      if 0 <= k < |s.history| {
        assert s'.history[k] == s.history[k];
      }
    }
  }

  lemma ClockKeeps(digest: Digest, s: State, e: Event)
    requires Invariant(s) && e.ClockMoves?
    ensures Invariant(Step(digest, s, e))
  {
    var s' := Step(digest, s, e);
    forall t
      ensures Recorded(s', t)
    {
      assert Recorded(s, t);
    }
    forall t, k
      ensures Remembered(s', t, k)
    {
      assert Remembered(s, t, k);
    }
  }

  lemma DecisionKeeps(digest: Digest, s: State, e: Event)
    requires Invariant(s) && e.HumanDecides?
    ensures Invariant(Step(digest, s, e))
  {
    if e.offer < |s.offers| && e.allowAlways {
      GrantKeeps(s, s.offers[e.offer]);
    }
  }

  lemma EndKeeps(digest: Digest, s: State, e: Event)
    requires Invariant(s) && e.SessionEnds?
    ensures Invariant(Step(digest, s, e))
  {
    var key := GrantSessionKey(e.session);
    if key.Some? {
      SessionEndKeeps(s, key.value);
    }
  }

  lemma StepKeeps(digest: Digest, s: State, e: Event)
    requires Invariant(s)
    ensures Invariant(Step(digest, s, e))
  {
    match e
    case HookCall(_, _) => HookCallKeeps(digest, s, e);
    case HumanDecides(_, _) => DecisionKeeps(digest, s, e);
    case SessionEnds(_) => EndKeeps(digest, s, e);
    case ClockMoves(_) => ClockKeeps(digest, s, e);
  }

  lemma {:induction false} RunKeeps(digest: Digest, events: seq<Event>)
    ensures Invariant(Run(digest, events))
  {
    if events != [] {
      RunKeeps(digest, events[..|events| - 1]);
      StepKeeps(digest, Run(digest, events[..|events| - 1]), events[|events| - 1]);
    }
  }

  /** The store says yes exactly for live grants. */
  lemma StoreIsLive(s: State, t: Triple)
    requires Invariant(s)
    ensures ModelHas(s.grants, t, s.now) <==> Live(s.history, t, s.now)
  {
    assert Recorded(s, t);
    if Live(s.history, t, s.now) {
      var k :| GrantAt(s.history, t, k) && s.now < s.history[k].at + GRANT_TTL_MS;
      assert Remembered(s, t, k);
    }
  }

  // ---------------------------------------------------------------------------
  // Markers, read off what the hook returns

  /** The params a call carries on with; a blocked one does not. */
  function Forwarded(call: ToolCall, result: HookResult): Option<seq<JsMember>> {
    match result
    case Block => None
    case Rewrite(params, _) => Some(params)
    case Pass =>
      match call
      case OtherTool => Some([])
      case NodesInvoke(_, inner) => Some(inner)
      case AdminTool(_, args) => Some(args)
  }

  /** The call goes on with an approval marker. */
  predicate CarriesMarker(call: ToolCall, result: HookResult) {
    Forwarded(call, result).Some? && LookupValue(Forwarded(call, result).value, APPROVAL_PARAM).Some?
  }

  /** The params a marker for the call is bound to. */
  function BoundParams(call: ToolCall): seq<JsMember> {
    match call
    case OtherTool => []
    case NodesInvoke(_, inner) => JsCallBody(inner)
    case AdminTool(command, args) => AdminCommandParams(command, JsWithout(args, APPROVAL_PARAM))
  }

  function MintedMarker(digest: Digest, call: ToolCall, ctx: Context, now: nat): Option<JsValue> {
    match MintedFor(call, ctx)
    case None => None
    case Some((command, action)) => Some(NewMarker(digest, ctx.id, command, action, BoundParams(call), now))
  }

  lemma {:induction false} LookupAbsent(ms: seq<JsMember>, key: seq<Unit>)
    requires !JsHasKey(ms, key)
    ensures LookupValue(ms, key) == None
  {
    if ms != [] {
      assert ms[0] in ms && forall m :: m in ms[1..] ==> m in ms;
      LookupAbsent(ms[1..], key);
    }
  }

  lemma CleanLacks(inner: seq<JsMember>)
    ensures !JsHasKey(JsCallBody(inner), APPROVAL_PARAM) && !JsHasKey(JsCallBody(inner), CALLER_PARAM)
  {}

  lemma HintedLacksMarker(ctx: Context, clean: seq<JsMember>)
    requires !JsHasKey(clean, APPROVAL_PARAM)
    ensures !JsHasKey(Hinted(ctx, clean), APPROVAL_PARAM)
  {
    ReservedNamesDiffer();
  }

  /** What a nodes call goes on with, case by case. */
  function NodesForwards(
    gated: bool, stopped: bool, skips: bool, inner: seq<JsMember>, hinted: seq<JsMember>, marker: JsValue)
    : Option<seq<JsMember>>
  {
    var reserved := JsHasKey(inner, APPROVAL_PARAM) || JsHasKey(inner, CALLER_PARAM);
    if !gated then Some(if reserved then JsCallBody(inner) else inner)
    else if stopped then None
    else if skips then Some(hinted)
    else Some(hinted + [JsMember(APPROVAL_PARAM, marker)])
  }

  lemma NodesCases(digest: Digest, command: JsStr, inner: seq<JsMember>, ctx: Context, grants: Model, now: nat)
    ensures var call := NodesInvoke(command, inner);
            var clean := JsCallBody(inner);
            var action := ActionOf(clean);
            var gated, stopped := Listed(APPROVAL_GATED, command, action), ctx.refused || ctx.unsafeInteger;
            var skips, marker := SkipsPrompt(ctx, command, action),
                                 NewMarker(digest, ctx.id, command, action, clean, now);
            && Forwarded(call, BeforeToolCall(digest, call, ctx, grants, now))
               == NodesForwards(gated, stopped, skips, inner, Hinted(ctx, clean), marker)
            && MintedMarker(digest, call, ctx, now) == if gated && !stopped && !skips then Some(marker) else None
  {}

  /** The marker in each case, given the hinted params carry none. */
  lemma ForwardedMarker(
    gated: bool, stopped: bool, skips: bool, inner: seq<JsMember>, hinted: seq<JsMember>, marker: JsValue)
    requires !JsHasKey(hinted, APPROVAL_PARAM)
    ensures var sent := NodesForwards(gated, stopped, skips, inner, hinted, marker);
            sent.Some? ==>
              LookupValue(sent.value, APPROVAL_PARAM)
              == if gated && !stopped && !skips then Some(marker) else None
  {
    CleanLacks(inner);
    LookupAbsent(JsCallBody(inner), APPROVAL_PARAM);
    LookupAbsent(hinted, APPROVAL_PARAM);
    LookupAppended(hinted, JsMember(APPROVAL_PARAM, marker), APPROVAL_PARAM);
    if !JsHasKey(inner, APPROVAL_PARAM) {
      LookupAbsent(inner, APPROVAL_PARAM);
    }
  }

  /** The hint in each case, given what the hinted params carry. */
  lemma ForwardedHint(
    gated: bool, stopped: bool, skips: bool, inner: seq<JsMember>, hinted: seq<JsMember>, marker: JsValue)
    ensures var sent := NodesForwards(gated, stopped, skips, inner, hinted, marker);
            sent.Some? ==>
              LookupValue(sent.value, CALLER_PARAM) == if gated then LookupValue(hinted, CALLER_PARAM) else None
  {
    CleanLacks(inner);
    LookupAbsent(JsCallBody(inner), CALLER_PARAM);
    ReservedNamesDiffer();
    LookupAppended(hinted, JsMember(APPROVAL_PARAM, marker), CALLER_PARAM);
    if !JsHasKey(inner, CALLER_PARAM) {
      LookupAbsent(inner, CALLER_PARAM);
    }
  }

  lemma NodesMarker(digest: Digest, command: JsStr, inner: seq<JsMember>, ctx: Context, grants: Model, now: nat)
    ensures var call := NodesInvoke(command, inner);
            var sent := Forwarded(call, BeforeToolCall(digest, call, ctx, grants, now));
            if sent.Some? then LookupValue(sent.value, APPROVAL_PARAM) == MintedMarker(digest, call, ctx, now)
            else MintedMarker(digest, call, ctx, now).None?
  {
    var clean := JsCallBody(inner);
    var action := ActionOf(clean);
    NodesCases(digest, command, inner, ctx, grants, now);
    CleanLacks(inner);
    HintedLacksMarker(ctx, clean);
    ForwardedMarker(Listed(APPROVAL_GATED, command, action), ctx.refused || ctx.unsafeInteger,
                    SkipsPrompt(ctx, command, action), inner, Hinted(ctx, clean),
                    NewMarker(digest, ctx.id, command, action, clean, now));
  }

  /** The caller hint a nodes call goes on with: the hook's own, on a gated call inside an
      Assist session, and none anywhere else, whatever hint the call came with. */
  lemma HintExactlyInAssist(digest: Digest, command: JsStr, inner: seq<JsMember>, ctx: Context, grants: Model, now: nat)
    ensures var call := NodesInvoke(command, inner);
            var sent := Forwarded(call, BeforeToolCall(digest, call, ctx, grants, now));
            var hinted := Listed(APPROVAL_GATED, command, ActionOf(JsCallBody(inner))) && AssistKey(ctx.session).Some?;
            sent.Some? ==>
              LookupValue(sent.value, CALLER_PARAM)
              == if hinted then Some(HintFor(AssistKey(ctx.session).value).value) else None
  {
    var clean := JsCallBody(inner);
    var action := ActionOf(clean);
    NodesCases(digest, command, inner, ctx, grants, now);
    CleanLacks(inner);
    HintedLooksUp(ctx, clean);
    ForwardedHint(Listed(APPROVAL_GATED, command, action), ctx.refused || ctx.unsafeInteger,
                  SkipsPrompt(ctx, command, action), inner, Hinted(ctx, clean),
                  NewMarker(digest, ctx.id, command, action, clean, now));
  }

  lemma HintedLooksUp(ctx: Context, clean: seq<JsMember>)
    requires !JsHasKey(clean, CALLER_PARAM)
    ensures var key := AssistKey(ctx.session);
            LookupValue(Hinted(ctx, clean), CALLER_PARAM) == if key.Some? then Some(HintFor(key.value).value) else None
  {
    LookupAbsent(clean, CALLER_PARAM);
    if AssistKey(ctx.session).Some? {
      LookupAppended(clean, HintFor(AssistKey(ctx.session).value), CALLER_PARAM);
    }
  }

  lemma AdminMarker(digest: Digest, command: JsStr, args: seq<JsMember>, ctx: Context, grants: Model, now: nat)
    ensures var call := AdminTool(command, args);
            var sent := Forwarded(call, BeforeToolCall(digest, call, ctx, grants, now));
            if sent.Some? then LookupValue(sent.value, APPROVAL_PARAM) == MintedMarker(digest, call, ctx, now)
            else MintedMarker(digest, call, ctx, now).None?
  {
    var clean := JsWithout(args, APPROVAL_PARAM);
    var marker := NewMarker(digest, ctx.id, command, [], AdminCommandParams(command, clean), now);
    AdminCases(digest, command, args, ctx, grants, now);
    assert !JsHasKey(clean, APPROVAL_PARAM);
    LookupAbsent(clean, APPROVAL_PARAM);
    LookupAppended(clean, JsMember(APPROVAL_PARAM, marker), APPROVAL_PARAM);
  }

  lemma AdminCases(digest: Digest, command: JsStr, args: seq<JsMember>, ctx: Context, grants: Model, now: nat)
    ensures var call := AdminTool(command, args);
            var clean := JsWithout(args, APPROVAL_PARAM);
            var marker := NewMarker(digest, ctx.id, command, [], AdminCommandParams(command, clean), now);
            var skips := SkipsPrompt(ctx, command, []);
            && Forwarded(call, BeforeToolCall(digest, call, ctx, grants, now))
               == (if ctx.refused then None
                   else if skips then Some(clean)
                   else Some(clean + [JsMember(APPROVAL_PARAM, marker)]))
            && MintedMarker(digest, call, ctx, now) == if ctx.refused || skips then None else Some(marker)
  {}

  /** Main result: the marker a call goes on with, passed or rewritten, is the one the hook
      mints for it, and there is none when it mints none: whatever marker a call came
      with never gets through. */
  lemma MarkerExactlyWhenMinted(digest: Digest, call: ToolCall, ctx: Context, grants: Model, now: nat)
    ensures var result := BeforeToolCall(digest, call, ctx, grants, now);
            var sent := Forwarded(call, result);
            && (CarriesMarker(call, result) <==> MintedFor(call, ctx).Some?)
            && (sent.Some? ==> LookupValue(sent.value, APPROVAL_PARAM) == MintedMarker(digest, call, ctx, now))
    ensures MintedFor(call, ctx).Some? ==> MintedFor(call, ctx).value == Subject(call)
  {
    match call
    case OtherTool =>
    case NodesInvoke(command, inner) => NodesMarker(digest, command, inner, ctx, grants, now);
    case AdminTool(command, args) => AdminMarker(digest, command, args, ctx, grants, now);
  }

  lemma MintedPrompt(digest: Digest, call: ToolCall, ctx: Context, grants: Model, now: nat)
    requires MintedFor(call, ctx).Some?
    ensures var (command, action) := Subject(call);
            var result := BeforeToolCall(digest, call, ctx, grants, now);
            result.Rewrite? && result.prompt == PromptFor(grants, GrantScope(ctx.session, command, action), now)
  {}

  /** The human's answer that lets this call through: the caller has a session key, the
      pair is not destructive, and the same session, command and action were granted less
      than an hour ago, with no end of that session since. */
  ghost predicate LetThrough(history: seq<Fact>, ctx: Context, command: JsStr, action: JsStr, now: nat) {
    && ctx.session.Some? && Trim(ctx.session.value) != [] && !Listed(DESTRUCTIVE, command, action)
    && Live(history, Triple(Trim(ctx.session.value), command, action), now)
  }

  /** Main result, for every call and what the hook returns for it: after any run, a
      call that goes on with a marker does so without a prompt exactly when its own
      session, command and action hold a grant a human gave less than an hour ago, with
      no end of that session since; otherwise it prompts, and offers "allow always"
      exactly when there is a session to hold it and the pair is not destructive. */
  lemma PromptFreeMarkerNeedsLiveGrant(digest: Digest, events: seq<Event>, call: ToolCall, ctx: Context)
    ensures var s := Run(digest, events);
            var result := BeforeToolCall(digest, call, ctx, s.grants, s.now);
            var (command, action) := Subject(call);
            CarriesMarker(call, result) ==>
              && result.Rewrite?
              && (result.prompt.NoPrompt? <==> LetThrough(s.history, ctx, command, action, s.now))
              && (result.prompt.AskOnce? <==>
                    || ctx.session.None? || Trim(ctx.session.value) == []
                    || Listed(DESTRUCTIVE, command, action))
  {
    var s := Run(digest, events);
    RunKeeps(digest, events);
    MarkerExactlyWhenMinted(digest, call, ctx, s.grants, s.now);
    if MintedFor(call, ctx).Some? {
      PromptExactly(digest, s, call, ctx);
    }
  }

  lemma PromptExactly(digest: Digest, s: State, call: ToolCall, ctx: Context)
    requires Invariant(s) && MintedFor(call, ctx).Some?
    ensures var result := BeforeToolCall(digest, call, ctx, s.grants, s.now);
            var (command, action) := Subject(call);
            && result.Rewrite?
            && (result.prompt.NoPrompt? <==> LetThrough(s.history, ctx, command, action, s.now))
            && (result.prompt.AskOnce? <==>
                  || ctx.session.None? || Trim(ctx.session.value) == []
                  || Listed(DESTRUCTIVE, command, action))
  {
    var (command, action) := Subject(call);
    MintedPrompt(digest, call, ctx, s.grants, s.now);
    ScopePrompt(s, ctx, command, action);
  }

  lemma ScopeExactly(session: Option<JsStr>, command: JsStr, action: JsStr)
    ensures GrantScope(session, command, action)
         == if session.Some? && Trim(session.value) != [] && !Listed(DESTRUCTIVE, command, action)
            then Some(Triple(Trim(session.value), command, action)) else None
  {}

  lemma ScopePrompt(s: State, ctx: Context, command: JsStr, action: JsStr)
    requires Invariant(s)
    ensures var prompt := PromptFor(s.grants, GrantScope(ctx.session, command, action), s.now);
            && (prompt.NoPrompt? <==> LetThrough(s.history, ctx, command, action, s.now))
            && (prompt.AskOnce? <==>
                  || ctx.session.None? || Trim(ctx.session.value) == []
                  || Listed(DESTRUCTIVE, command, action))
  {
    ScopeExactly(ctx.session, command, action);
    var scope := GrantScope(ctx.session, command, action);
    if scope.Some? {
      StoreIsLive(s, scope.value);
    }
  }

  // ---------------------------------------------------------------------------
  // The human's answer takes effect

  lemma RunMore(digest: Digest, events: seq<Event>, e: Event)
    ensures Run(digest, events + [e]) == Step(digest, Run(digest, events), e)
  {
    assert (events + [e])[..|events|] == events;
  }

  /** The call is offered "allow always", and a human takes the offer. */
  function Answered(digest: Digest, events: seq<Event>, call: ToolCall, ctx: Context): seq<Event> {
    events + [HookCall(call, ctx)] + [HumanDecides(|Run(digest, events).offers|, true)]
  }

  lemma AnswerRecorded(digest: Digest, events: seq<Event>, call: ToolCall, ctx: Context, scope: Triple)
    requires var s := Run(digest, events);
             var result := BeforeToolCall(digest, call, ctx, s.grants, s.now);
             result.Rewrite? && result.prompt == AskOnceOrAlways(scope)
    ensures var s, t := Run(digest, events), Run(digest, Answered(digest, events, call, ctx));
            && t.now == s.now && t.history == s.history + [Granted(scope, s.now)]
  {
    var s := Run(digest, events);
    RunMore(digest, events, HookCall(call, ctx));
    RunMore(digest, events + [HookCall(call, ctx)], HumanDecides(|s.offers|, true));
    var asked := Step(digest, s, HookCall(call, ctx));
    assert asked.offers == s.offers + [scope] && asked.offers[|s.offers|] == scope;
  }

  lemma LiveWhile(history: seq<Fact>, t: Triple, at: nat, now: nat)
    requires history != [] && history[|history| - 1] == Granted(t, at) && now < at + 3_600_000
    ensures Live(history, t, now)
  {
    assert GrantAt(history, t, |history| - 1);
  }

  lemma LiveIsPromptFree(digest: Digest, s: State, call: ToolCall, ctx: Context, scope: Triple)
    requires Invariant(s) && ConsultedScope(call, ctx) == Some(scope) && Live(s.history, scope, s.now)
    ensures var result := BeforeToolCall(digest, call, ctx, s.grants, s.now);
            result.Rewrite? && result.prompt.NoPrompt?
  {
    StoreIsLive(s, scope);
    MintedSubject(call, ctx);
    MintedPrompt(digest, call, ctx, s.grants, s.now);
  }

  lemma AnsweredLive(digest: Digest, events: seq<Event>, call: ToolCall, ctx: Context, scope: Triple, ms: nat)
    requires var s := Run(digest, events);
             var result := BeforeToolCall(digest, call, ctx, s.grants, s.now);
             result.Rewrite? && result.prompt == AskOnceOrAlways(scope)
    requires ms < 3_600_000
    ensures var s := Run(digest, Answered(digest, events, call, ctx) + [ClockMoves(ms)]);
            Live(s.history, scope, s.now)
  {
    var answered := Answered(digest, events, call, ctx);
    AnswerRecorded(digest, events, call, ctx, scope);
    RunMore(digest, answered, ClockMoves(ms));
    LaterLive(digest, Run(digest, events).history, Run(digest, answered), scope, ms);
  }

  lemma LaterLive(digest: Digest, earlier: seq<Fact>, s: State, scope: Triple, ms: nat)
    requires s.history == earlier + [Granted(scope, s.now)] && ms < 3_600_000
    ensures var later := Step(digest, s, ClockMoves(ms)); Live(later.history, scope, later.now)
  {
    LiveWhile(s.history, scope, s.now, s.now + ms);
  }

  /** Main result: once a human answers an offer with "allow always", the same call goes on
      without a prompt for an hour, whatever else happened before. */
  lemma AllowAlwaysHolds(digest: Digest, events: seq<Event>, call: ToolCall, ctx: Context, ms: nat)
    requires var s := Run(digest, events);
             var result := BeforeToolCall(digest, call, ctx, s.grants, s.now);
             result.Rewrite? && result.prompt.AskOnceOrAlways?
    requires ms < 3_600_000
    ensures var s := Run(digest, Answered(digest, events, call, ctx) + [ClockMoves(ms)]);
            var result := BeforeToolCall(digest, call, ctx, s.grants, s.now);
            result.Rewrite? && result.prompt.NoPrompt?
  {
    var s := Run(digest, events);
    var scope := BeforeToolCall(digest, call, ctx, s.grants, s.now).prompt.scope;
    var more := Answered(digest, events, call, ctx) + [ClockMoves(ms)];
    OfferIsConsulted(digest, call, ctx, s.grants, s.now);
    AnsweredLive(digest, events, call, ctx, scope, ms);
    RunKeeps(digest, more);
    LiveIsPromptFree(digest, Run(digest, more), call, ctx, scope);
  }

  // ---------------------------------------------------------------------------
  // Destructive pairs

  lemma UnitsInjective(a: string, b: string)
    requires Units(a) == Units(b)
    ensures a == b
  {
    var s: Str := seq(|a|, i requires 0 <= i < |a| => a[i] as int);
    var t: Str := seq(|b|, i requires 0 <= i < |b| => b[i] as int);
    EncodeInjective(s, t);
    assert |a| == |s| == |t| == |b|;
    forall i | 0 <= i < |a|
      ensures a[i] == b[i]
    {
      assert s[i] == t[i];
    }
  }

  lemma DestructiveNotSkipped(ctx: Context, command: JsStr, action: JsStr)
    requires Listed(DESTRUCTIVE, command, action)
    ensures Listed(APPROVAL_GATED, command, action) && !SkipsPrompt(ctx, command, action)
  {
    var p :| p in DESTRUCTIVE && Units(p.command) == command && Units(p.action) == action;
    DestructiveAlwaysNeedsApproval(NoCaller, p);
    forall q: Pair | Units(q.command) == command && Units(q.action) == action
      ensures q == p
    {
      UnitsInjective(p.command, q.command);
      UnitsInjective(p.action, q.action);
    }
    DestructiveUnlisted(p);
  }

  lemma DestructiveUnlisted(p: Pair)
    requires p in DESTRUCTIVE
    ensures p !in USER_DIRECTED && p !in SUPER_ADMIN_LIFECYCLE
  {}

  lemma ListedExactly(table: set<Pair>, p: Pair)
    ensures Listed(table, Units(p.command), Units(p.action)) <==> p in table
  {
    forall q: Pair | Units(q.command) == Units(p.command) && Units(q.action) == Units(p.action)
      ensures q == p
    {
      UnitsInjective(p.command, q.command);
      UnitsInjective(p.action, q.action);
    }
  }

  lemma SkipsExactly(ctx: Context, p: Pair)
    ensures SkipsPrompt(ctx, Units(p.command), Units(p.action)) <==>
            AssistKey(ctx.session).Some? && AssistSkipsPrompt(p)
  {
    ListedExactly(USER_DIRECTED, p);
    ListedExactly(ADMIN_LIFECYCLE, p);
    ListedExactly(SUPER_ADMIN_LIFECYCLE, p);
  }

  /** Main result on the plugin's exemption: a gated call that is not refused goes on without
      a marker exactly inside an Assist session and for a pair that the node exempts for
      every identified admin and super admin. */
  lemma UnmarkedExactly(
    digest: Digest, inner: seq<JsMember>, ctx: Context, grants: Model, now: nat, p: Pair)
    requires p in APPROVAL_GATED && ActionOf(JsCallBody(inner)) == Units(p.action)
    requires !ctx.refused && !ctx.unsafeInteger
    ensures var call := NodesInvoke(Units(p.command), inner);
            !CarriesMarker(call, BeforeToolCall(digest, call, ctx, grants, now)) <==>
            && AssistKey(ctx.session).Some?
            && forall role, id :: role in {Admin, SuperAdmin} ==> ApprovalExempt(Resolved(Known(role, id)), p)
  {
    var call := NodesInvoke(Units(p.command), inner);
    MarkerExactlyWhenMinted(digest, call, ctx, grants, now);
    ListedExactly(APPROVAL_GATED, p);
    SkipsExactly(ctx, p);
    SkipsExactlyWhenAllExempt(p);
  }

  /** A destructive call that is not refused always prompts, and never offers
      "allow always", whatever happened before. */
  lemma DestructiveAlwaysPrompts(digest: Digest, events: seq<Event>, command: JsStr, inner: seq<JsMember>, ctx: Context)
    requires Listed(DESTRUCTIVE, command, ActionOf(JsCallBody(inner))) && !ctx.refused && !ctx.unsafeInteger
    ensures var s := Run(digest, events);
            var result := BeforeToolCall(digest, NodesInvoke(command, inner), ctx, s.grants, s.now);
            result.Rewrite? && result.prompt.AskOnce?
  {
    DestructiveNotSkipped(ctx, command, ActionOf(JsCallBody(inner)));
  }

  /** The same for the plugin's own admin tools. */
  lemma DestructiveAdminPrompts(digest: Digest, events: seq<Event>, command: JsStr, args: seq<JsMember>,
                                ctx: Context)
    requires Listed(DESTRUCTIVE, command, []) && !ctx.refused
    ensures var s := Run(digest, events);
            var result := BeforeToolCall(digest, AdminTool(command, args), ctx, s.grants, s.now);
            result.Rewrite? && result.prompt.AskOnce?
  {
    DestructiveNotSkipped(ctx, command, []);
  }
}
