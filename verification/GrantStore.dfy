/** Session "allow always" grants (`approval-grants.ts`): a map keyed by JSON text
    and revoked by text prefix, which must act as a map keyed by triples. */
module GrantStore {
  import opened Text
  import opened Utf16
  import opened JsonStrings

  const GRANT_TTL_MS: int := 3_600_000

  type JsStr = seq<Unit>

  datatype Triple = Triple(session: JsStr, command: JsStr, action: JsStr)

  // ---------------------------------------------------------------------------
  // JavaScript's quoted strings are prefix-free

  /** Where the first unescaped quote of a text is. */
  function QuoteEnd(t: JsStr): nat {
    if t == [] || t[0] == QUOTE then 0
    else if t[0] == BACKSLASH && |t| >= 2 then 2 + QuoteEnd(t[2..])
    else 1 + QuoteEnd(t[1..])
  }

  predicate PlainUnits(p: JsStr) {
    forall i :: 0 <= i < |p| ==> p[i] != QUOTE && p[i] != BACKSLASH
  }

  lemma {:induction false} SkipPlain(p: JsStr, t: JsStr)
    requires PlainUnits(p)
    ensures QuoteEnd(p + t) == |p| + QuoteEnd(t)
  {
    if p == [] {
      assert p + t == t;
    } else {
      assert (p + t)[1..] == p[1..] + t;
      SkipPlain(p[1..], t);
    }
  }

  lemma SkipEscape(c: Unit, p: JsStr, t: JsStr)
    requires PlainUnits(p)
    ensures QuoteEnd([BACKSLASH, c] + p + t) == 2 + |p| + QuoteEnd(t)
  {
    var whole := [BACKSLASH, c] + p + t;
    assert whole[2..] == p + t;
    SkipPlain(p, t);
  }

  lemma SkipUnit(u: Unit, t: JsStr)
    ensures QuoteEnd(JsEscapeUnit(u) + t) == |JsEscapeUnit(u)| + QuoteEnd(t)
  {
    var e := JsEscapeUnit(u);
    if ShortEscape(u) != 0 {
      SkipEscape(ShortEscape(u), [], t);
      assert e + t == [BACKSLASH, ShortEscape(u)] + [] + t;
    } else if u < 0x20 || IsSurrogate(u) {
      assert e == [BACKSLASH, LETTER_U] + e[2..];
      SkipEscape(LETTER_U, e[2..], t);
    } else {
      SkipPlain(e, t);
    }
  }

  lemma {:induction false} QuoteEndOfBody(a: JsStr, after: JsStr)
    ensures QuoteEnd(JsBody(a) + ([QUOTE] + after)) == |JsBody(a)|
  {
    var close := [QUOTE] + after;
    if a == [] {
      assert JsBody(a) + close == close;
    } else if StartsWithPair(a) {
      QuoteEndOfBody(a[2..], after);
      Assoc(a[..2], JsBody(a[2..]), close);
      SkipPlain(a[..2], JsBody(a[2..]) + close);
    } else {
      QuoteEndOfBody(a[1..], after);
      Assoc(JsEscapeUnit(a[0]), JsBody(a[1..]), close);
      SkipUnit(a[0], JsBody(a[1..]) + close);
    }
  }

  lemma JsQuoteInjective(a: JsStr, b: JsStr)
    requires JsQuote(a) == JsQuote(b)
    ensures a == b
  {
    JsQuoteIsDecoded(a);
    JsQuoteIsDecoded(b);
    EncodeDecode(a);
    EncodeDecode(b);
    var s, t := EsString(Decode(a)), EsString(Decode(b));
    EsBodyEncodable(Decode(a));
    EsBodyEncodable(Decode(b));
    EncodeInjective(s, t);
    EsStringPrefixFree(Decode(a), Decode(b), [], []);
  }

  /** What follows a quoted string cannot change which string it is. */
  lemma JsQuotePrefixFree(a: JsStr, b: JsStr, x: JsStr, y: JsStr)
    requires JsQuote(a) + x == JsQuote(b) + y
    ensures a == b && x == y
  {
    QuoteSplit(a, x);
    QuoteSplit(b, y);
    QuoteEndOfBody(a, x);
    QuoteEndOfBody(b, y);
    TakeEqual(JsQuote(a), JsQuote(b), x, y);
    JsQuoteInjective(a, b);
  }

  lemma QuoteSplit(a: JsStr, x: JsStr)
    ensures (JsQuote(a) + x)[1..] == JsBody(a) + ([QUOTE] + x)
  {
    assert JsQuote(a) + x == [QUOTE] + (JsBody(a) + ([QUOTE] + x));
  }

  lemma TakeEqual<T>(a: seq<T>, b: seq<T>, x: seq<T>, y: seq<T>)
    requires a + x == b + y && |a| == |b|
    ensures a == b && x == y
  {
    assert a == (a + x)[..|a|] && b == (b + y)[..|b|];
    assert x == (a + x)[|a|..] && y == (b + y)[|b|..];
  }

  // ---------------------------------------------------------------------------
  // Keys

  function KeyTail(t: Triple): JsStr {
    JsQuote(t.command) + ([COMMA] + (JsQuote(t.action) + [CLOSE_BRACKET]))
  }

  /** `JSON.stringify([sessionKey, command, action])`. */
  function KeyOf(t: Triple): JsStr {
    [OPEN_BRACKET] + (JsQuote(t.session) + ([COMMA] + KeyTail(t)))
  }

  /** The prefix `revokeSession` deletes by. */
  function SessionPrefix(session: JsStr): JsStr {
    [OPEN_BRACKET] + (JsQuote(session) + [COMMA])
  }

  lemma PrefixSplit(session: JsStr, rest: JsStr)
    ensures SessionPrefix(session) + rest == [OPEN_BRACKET] + (JsQuote(session) + ([COMMA] + rest))
  {
    Assoc(JsQuote(session), [COMMA], rest);
    Assoc([OPEN_BRACKET], JsQuote(session) + [COMMA], rest);
  }

  lemma PrefixMeansSession(session: JsStr, t: Triple)
    requires SessionPrefix(session) <= KeyOf(t)
    ensures t.session == session
  {
    var rest := KeyOf(t)[|SessionPrefix(session)|..];
    assert KeyOf(t) == SessionPrefix(session) + rest;
    PrefixSplit(session, rest);
    TakeEqual([OPEN_BRACKET], [OPEN_BRACKET],
              JsQuote(session) + ([COMMA] + rest), JsQuote(t.session) + ([COMMA] + KeyTail(t)));
    JsQuotePrefixFree(session, t.session, [COMMA] + rest, [COMMA] + KeyTail(t));
  }

  /** The prefix names exactly one session's keys. */
  lemma PrefixNamesSession(session: JsStr, t: Triple)
    ensures SessionPrefix(session) <= KeyOf(t) <==> t.session == session
  {
    if SessionPrefix(session) <= KeyOf(t) {
      PrefixMeansSession(session, t);
    }
    PrefixSplit(t.session, KeyTail(t));
  }

  /** One key, one triple. */
  lemma KeyOfInjective(t: Triple, u: Triple)
    requires KeyOf(t) == KeyOf(u)
    ensures t == u
  {
    TakeEqual([OPEN_BRACKET], [OPEN_BRACKET],
              JsQuote(t.session) + ([COMMA] + KeyTail(t)), JsQuote(u.session) + ([COMMA] + KeyTail(u)));
    JsQuotePrefixFree(t.session, u.session, [COMMA] + KeyTail(t), [COMMA] + KeyTail(u));
    TakeEqual([COMMA], [COMMA], KeyTail(t), KeyTail(u));
    var x, y := JsQuote(t.action) + [CLOSE_BRACKET], JsQuote(u.action) + [CLOSE_BRACKET];
    JsQuotePrefixFree(t.command, u.command, [COMMA] + x, [COMMA] + y);
    TakeEqual([COMMA], [COMMA], x, y);
    JsQuotePrefixFree(t.action, u.action, [CLOSE_BRACKET], [CLOSE_BRACKET]);
  }

  // ---------------------------------------------------------------------------
  // The store the callers think of: triples to expiry times

  type Model = map<Triple, int>

  function ModelGrant(m: Model, t: Triple, now: int): Model {
    m[t := now + GRANT_TTL_MS]
  }

  predicate ModelHas(m: Model, t: Triple, now: int) {
    t in m && now < m[t]
  }

  /** `has` also drops the entry it finds expired. */
  function ModelAfterHas(m: Model, t: Triple, now: int): Model {
    if ModelHas(m, t, now) then m else m - {t}
  }

  function ModelRevoke(m: Model, session: JsStr): Model {
    map t | t in m && t.session != session :: m[t]
  }

  predicate Kept(grants: map<JsStr, int>, m: Model, t: Triple)
    requires t in m
  {
    KeyOf(t) in grants && grants[KeyOf(t)] == m[t]
  }

  ghost predicate Named(m: Model, k: JsStr) {
    exists t :: t in m && KeyOf(t) == k
  }

  /** The text-keyed map holds exactly the triple-keyed one. */
  ghost predicate Represents(grants: map<JsStr, int>, m: Model) {
    && (forall t :: t in m ==> Kept(grants, m, t))
    && (forall k :: k in grants ==> Named(m, k))
  }

  lemma RepresentsLookup(grants: map<JsStr, int>, m: Model, t: Triple)
    requires Represents(grants, m)
    ensures KeyOf(t) in grants <==> t in m
    ensures t in m ==> grants[KeyOf(t)] == m[t]
  {
    if KeyOf(t) in grants {
      assert Named(m, KeyOf(t));
      var u :| u in m && KeyOf(u) == KeyOf(t);
      KeyOfInjective(t, u);
    }
    if t in m {
      assert Kept(grants, m, t);
    }
  }

  lemma GrantRefines(grants: map<JsStr, int>, m: Model, t: Triple, expiry: int)
    requires Represents(grants, m)
    ensures Represents(grants[KeyOf(t) := expiry], m[t := expiry])
  {
    var grants', m' := grants[KeyOf(t) := expiry], m[t := expiry];
    forall u | u in m'
      ensures Kept(grants', m', u)
    {
      if KeyOf(u) == KeyOf(t) {
        KeyOfInjective(u, t);
      } else {
        assert Kept(grants, m, u);
      }
    }
    forall k | k in grants'
      ensures Named(m', k)
    {
      if k == KeyOf(t) {
        assert t in m';
      } else {
        StillNamed(grants, m, m', k);
      }
    }
  }

  lemma StillNamed(grants: map<JsStr, int>, m: Model, m': Model, k: JsStr)
    requires Represents(grants, m) && k in grants
    requires forall u :: u in m && KeyOf(u) == k ==> u in m'
    ensures Named(m', k)
  {
    assert Named(m, k);
    var u :| u in m && KeyOf(u) == k;
    assert u in m';
  }

  lemma DeleteRefines(grants: map<JsStr, int>, m: Model, t: Triple)
    requires Represents(grants, m)
    ensures Represents(grants - {KeyOf(t)}, m - {t})
  {
    var grants', m' := grants - {KeyOf(t)}, m - {t};
    forall u | u in m'
      ensures Kept(grants', m', u)
    {
      assert Kept(grants, m, u);
      if KeyOf(u) == KeyOf(t) {
        KeyOfInjective(u, t);
      }
    }
    forall k | k in grants'
      ensures Named(m', k)
    {
      StillNamed(grants, m, m', k);
    }
  }

  function WithoutPrefix(grants: map<JsStr, int>, prefix: JsStr): map<JsStr, int> {
    map k | k in grants && !(prefix <= k) :: grants[k]
  }

  /** Deleting by prefix removes exactly that session's grants. */
  lemma RevokeRefines(grants: map<JsStr, int>, m: Model, session: JsStr)
    requires Represents(grants, m)
    ensures Represents(WithoutPrefix(grants, SessionPrefix(session)), ModelRevoke(m, session))
  {
    var grants', m' := WithoutPrefix(grants, SessionPrefix(session)), ModelRevoke(m, session);
    forall u | u in m'
      ensures Kept(grants', m', u)
    {
      assert Kept(grants, m, u);
      PrefixNamesSession(session, u);
    }
    forall k | k in grants'
      ensures Named(m', k)
    {
      forall u | u in m && KeyOf(u) == k
        ensures u in m'
      {
        PrefixNamesSession(session, u);
      }
      StillNamed(grants, m, m', k);
    }
  }

  // ---------------------------------------------------------------------------
  // `createGrantStore`

  class Store {
    var grants: map<JsStr, int>
    ghost var model: Model

    ghost predicate Valid()
      reads this
    {
      Represents(grants, model)
    }

    constructor ()
      ensures Valid() && model == map[]
    {
      grants := map[];
      model := map[];
    }

    method Grant(session: JsStr, command: JsStr, action: JsStr, now: int)
      requires Valid()
      modifies this
      ensures Valid() && model == old(model)[Triple(session, command, action) := now + 3_600_000]
    {
      var t := Triple(session, command, action);
      GrantRefines(grants, model, t, now + GRANT_TTL_MS);
      grants := grants[KeyOf(t) := now + GRANT_TTL_MS];
      model := ModelGrant(model, t, now);
    }

    method Has(session: JsStr, command: JsStr, action: JsStr, now: int) returns (granted: bool)
      requires Valid()
      modifies this
      ensures var t := Triple(session, command, action);
              && Valid() && (granted <==> t in old(model) && now < old(model)[t])
              && model == if t in old(model) && old(model)[t] <= now then old(model) - {t} else old(model)
      ensures granted == ModelHas(old(model), Triple(session, command, action), now)
      ensures model == ModelAfterHas(old(model), Triple(session, command, action), now)
    {
      var t := Triple(session, command, action);
      var key := KeyOf(t);
      RepresentsLookup(grants, model, t);
      if key !in grants {
        assert model - {t} == model;
        return false;
      }
      var expiresAt := grants[key];
      if now >= expiresAt {
        DeleteRefines(grants, model, t);
        grants := grants - {key};
        model := model - {t};
        return false;
      }
      return true;
    }

    method RevokeSession(session: JsStr)
      requires Valid()
      modifies this
      ensures Valid()
      ensures forall t :: t in model <==> t in old(model) && t.session != session
      ensures forall t :: t in model ==> model[t] == old(model)[t]
    {
      DeletePrefix(SessionPrefix(session));
      RevokeRefines(old(grants), model, session);
      model := ModelRevoke(model, session);
    }

    /** Visits every key once and deletes those that start with the prefix. */
    method DeletePrefix(prefix: JsStr)
      modifies this`grants
      ensures grants == WithoutPrefix(old(grants), prefix)
    {
      var keys := grants.Keys;
      while keys != {}
        invariant keys <= old(grants).Keys
        invariant forall k :: k in grants <==> k in old(grants) && (k in keys || !(prefix <= k))
        invariant forall k :: k in grants ==> grants[k] == old(grants)[k]
        decreases keys
      {
        var key :| key in keys;
        keys := keys - {key};
        if prefix <= key {
          grants := grants - {key};
        }
      }
    }
  }
}
