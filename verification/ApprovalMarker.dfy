/** The node's one-shot approval markers (`consume_approval_marker` and
    `approval_checker` in config_mutation.py): one call, one use, one lifetime. */
module ApprovalMarker {
  import opened Text
  import opened Utf16
  import opened JsonModel
  import opened CanonicalJson

  const ID_KEY: seq<Unit> := [0x69, 0x64]
  const EXP_KEY: seq<Unit> := [0x65, 0x78, 0x70]
  const BIND_KEY: seq<Unit> := [0x62, 0x69, 0x6E, 0x64]

  /** SHA-256 in hexadecimal characters of the UTF-8 form of a text given in UTF-16 units. */
  type Digest = seq<Unit> -> seq<Byte>

  ghost predicate Injective(digest: Digest) {
    forall x, y :: digest(x) == digest(y) ==> x == y
  }

  function ApprovalBind(digest: Digest, command: Str, action: Str, params: seq<Member>): seq<Byte> {
    digest(Encode(BindText(command, action, params)))
  }

  datatype Marker = Marker(id: Str, exp: int, bind: Str)

  function MarkerJson(m: Marker): Json {
    JObject([Member(ID_KEY, JString(m.id)), Member(EXP_KEY, JInt(m.exp)), Member(BIND_KEY, JString(m.bind))])
  }

  function GetString(ms: seq<Member>, key: Str): Option<Str> {
    match Get(ms, key)
    case Some(JString(s)) => Some(s)
    case _ => None
  }

  /** A dict with exactly the keys id, exp and bind, a non-empty string id, an int
      (not bool) exp and a string bind. */
  function ReadMarker(v: Json): Option<Marker> {
    if !v.JObject? || exists m :: m in v.members && m.key !in {ID_KEY, EXP_KEY, BIND_KEY} then None
    else
      match (GetString(v.members, ID_KEY), Get(v.members, EXP_KEY), GetString(v.members, BIND_KEY))
      case (Some(id), Some(JInt(exp)), Some(bind)) => if id == [] then None else Some(Marker(id, exp, bind))
      case _ => None
  }

  datatype Verdict = Authorized | ProposalRequired | Malformed | Expired | Mismatch | AlreadyUsed

  type UsedIds = map<Str, int>

  /** Forgets ids whose marker has expired. */
  function Prune(used: UsedIds, now: real): UsedIds {
    map id | id in used && !(used[id] as real < now) :: used[id]
  }

  datatype Outcome = Outcome(used: UsedIds, params: seq<Member>, verdict: Verdict)

  function Judge(
    digest: Digest, used: UsedIds, command: Str, action: Str, params: seq<Member>, m: Marker, now: real): Verdict
  {
    if m.exp as real < now then Expired
    else if m.bind != ApprovalBind(digest, command, action, params) then Mismatch
    else if m.id in used then AlreadyUsed
    else Authorized
  }

  /** `consume_approval_marker`; `exempt` is `approval_exempt` of the current caller. */
  function Consume(
    digest: Digest, used: UsedIds, command: Str, action: Str, params: seq<Member>, exempt: bool, now: real): Outcome
  {
    if !HasKey(params, APPROVAL_PARAM) then
      Outcome(used, params, if exempt then Authorized else ProposalRequired)
    else
      var rest := Without(params, APPROVAL_PARAM);
      match ReadMarker(Get(params, APPROVAL_PARAM).value)
      case None => Outcome(used, rest, Malformed)
      case Some(m) =>
        var kept := Prune(used, now);
        var verdict := Judge(digest, kept, command, action, rest, m, now);
        Outcome(if verdict.Authorized? then kept[m.id := m.exp] else kept, rest, verdict)
  }

  // ---------------------------------------------------------------------------
  // Every verdict

  /** The value is a marker: an object with the keys `id`, `exp` and `bind` and no other,
      holding a string that is not empty, an integer and a string. */
  ghost predicate IsMarker(v: Json, m: Marker) {
    && v.JObject?
    && (forall x :: x in v.members ==> x.key == Name("id") || x.key == Name("exp") || x.key == Name("bind"))
    && Get(v.members, Name("id")) == Some(JString(m.id)) && m.id != []
    && Get(v.members, Name("exp")) == Some(JInt(m.exp))
    && Get(v.members, Name("bind")) == Some(JString(m.bind))
  }

  lemma MarkerKeysSpelled()
    ensures Name("id") == ID_KEY && Name("exp") == EXP_KEY && Name("bind") == BIND_KEY
    ensures Name("_openclaw_approval") == APPROVAL_PARAM && Name("_openclaw_caller") == CALLER_PARAM
  {}

  lemma ReadMarkerExactly(v: Json, m: Marker)
    ensures ReadMarker(v) == Some(m) <==> IsMarker(v, m)
  {
    MarkerKeysSpelled();
  }

  /** Main result: every verdict, for every call. Without a marker only an exempt caller
      passes and any other is asked for a proposal. A field that is no marker is malformed;
      a marker past its expiry is expired, then one for another call mismatched, then one
      whose id is still held already used, and what is left is authorized. */
  lemma VerdictExactly(
    digest: Digest, used: UsedIds, c: Str, a: Str, p: seq<Member>, exempt: bool, now: real, m: Marker)
    ensures var field := Get(p, Name("_openclaw_approval"));
            var verdict := Consume(digest, used, c, a, p, exempt, now).verdict;
            && (field.None? ==> verdict == if exempt then Authorized else ProposalRequired)
            && (field.Some? ==> (verdict == Malformed <==> forall x :: !IsMarker(field.value, x)))
            && (field.Some? && IsMarker(field.value, m) ==>
                  verdict == if (m.exp as real) < now then Expired
                             else if m.bind != ApprovalBind(digest, c, a, p) then Mismatch
                             else if m.id in used && used[m.id] as real >= now then AlreadyUsed
                             else Authorized)
  {
    MarkerKeysSpelled();
    PoppedBody(p);
    var field := Get(p, APPROVAL_PARAM);
    if field.Some? {
      ReadMarkerExactly(field.value, m);
      if ReadMarker(field.value).Some? {
        ReadMarkerExactly(field.value, ReadMarker(field.value).value);
      }
      forall x
        ensures ReadMarker(field.value) == Some(x) <==> IsMarker(field.value, x)
      {
        ReadMarkerExactly(field.value, x);
      }
    }
  }

  // ---------------------------------------------------------------------------
  // One marker, one call

  /** A marker minted for one call is authorized only for that call, up to what
      the bind text forgets. */
  lemma MarkerBindsOneCall(digest: Digest, used: UsedIds, c: Str, a: Str, p: seq<Member>, exempt: bool, now: real,
                           m: Marker, c0: Str, a0: Str, p0: seq<Member>)
    requires Injective(digest)
    requires m.bind == ApprovalBind(digest, c0, a0, p0)
    requires HasKey(p, APPROVAL_PARAM) && ReadMarker(Get(p, APPROVAL_PARAM).value) == Some(m)
    requires Consume(digest, used, c, a, p, exempt, now).verdict.Authorized?
    ensures c == c0 && a == a0
    ensures Normal(JObject(CallBody(p))) == Normal(JObject(CallBody(p0)))
  {
    var rest := Without(p, APPROVAL_PARAM);
    var x, y := BindText(c, a, rest), BindText(c0, a0, p0);
    BindTextEncodable(c, a, rest);
    BindTextEncodable(c0, a0, p0);
    SameEncoding(x, y);
    BindTextNamesCall(c, a, rest, c0, a0, p0);
    PoppedBody(p);
  }

  lemma PoppedBody(p: seq<Member>)
    ensures CallBody(Without(p, APPROVAL_PARAM)) == CallBody(p)
  {
    GetWithout(p, APPROVAL_PARAM, APPROVAL_PARAM);
    WithoutAbsent(Without(p, APPROVAL_PARAM), APPROVAL_PARAM);
  }

  lemma SameEncoding(x: Str, y: Str)
    requires Encode(x) == Encode(y) && NoSplitPair(x) && NoSplitPair(y)
    ensures x == y
  {
    DecodeOfEncode(x);
    DecodeOfEncode(y);
  }

  /** A call is authorized exactly when it carries no marker and its caller is exempt,
      or its marker is well formed, not past its expiry, bound to this call and not
      in use; only then is an id recorded. The marker never stays in the params. */
  lemma AuthorizedExactly(digest: Digest, used: UsedIds, c: Str, a: Str, p: seq<Member>, exempt: bool, now: real)
    ensures var out := Consume(digest, used, c, a, p, exempt, now);
            && !HasKey(out.params, APPROVAL_PARAM)
            && (forall key :: key != APPROVAL_PARAM ==> Get(out.params, key) == Get(p, key))
            && (!HasKey(p, APPROVAL_PARAM) ==> out.used == used && (out.verdict.Authorized? <==> exempt))
            && (HasKey(p, APPROVAL_PARAM) ==>
                  var read := ReadMarker(Get(p, APPROVAL_PARAM).value);
                  && (out.verdict.Authorized? <==>
                        && read.Some? && now <= read.value.exp as real
                        && read.value.bind == ApprovalBind(digest, c, a, p)
                        && (read.value.id in used ==> used[read.value.id] as real < now))
                  && (forall id :: id in out.used <==>
                        || (id in used && (read.Some? ==> now <= used[id] as real))
                        || (out.verdict.Authorized? && id == read.value.id)))
  {
    PoppedBody(p);
    WithoutParam(p);
  }

  lemma WithoutParam(p: seq<Member>)
    ensures !HasKey(Without(p, APPROVAL_PARAM), APPROVAL_PARAM)
    ensures forall key :: key != APPROVAL_PARAM ==> Get(Without(p, APPROVAL_PARAM), key) == Get(p, key)
  {
    forall key
      ensures Get(Without(p, APPROVAL_PARAM), key) == if key == APPROVAL_PARAM then None else Get(p, key)
    {
      GetWithout(p, APPROVAL_PARAM, key);
    }
  }

  // ---------------------------------------------------------------------------
  // Whole runs

  datatype Call = Call(command: Str, action: Str, params: seq<Member>, exempt: bool, now: real)

  function StepOf(digest: Digest, used: UsedIds, c: Call): Outcome {
    Consume(digest, used, c.command, c.action, c.params, c.exempt, c.now)
  }

  /** The used-id table after some calls. */
  function UsedAfter(digest: Digest, used: UsedIds, calls: seq<Call>): UsedIds {
    if calls == [] then used
    else StepOf(digest, UsedAfter(digest, used, calls[..|calls| - 1]), calls[|calls| - 1]).used
  }

  ghost predicate ClockForward(calls: seq<Call>) {
    forall i, j :: 0 <= i <= j < |calls| ==> calls[i].now <= calls[j].now
  }

  /** Call `c` is authorized by marker `m`. */
  ghost predicate Accepts(digest: Digest, used: UsedIds, c: Call, m: Marker) {
    && HasKey(c.params, APPROVAL_PARAM)
    && ReadMarker(Get(c.params, APPROVAL_PARAM).value) == Some(m)
    && StepOf(digest, used, c).verdict.Authorized?
  }

  /** Call `i` of the run was authorized by marker `m`. */
  ghost predicate AcceptedAt(digest: Digest, used: UsedIds, calls: seq<Call>, i: nat, m: Marker) {
    i < |calls| && Accepts(digest, UsedAfter(digest, used, calls[..i]), calls[i], m)
  }

  predicate Recorded(used: UsedIds, m: Marker) {
    m.id in used && used[m.id] == m.exp
  }

  lemma UsedAfterStep(digest: Digest, used: UsedIds, calls: seq<Call>, j: nat)
    requires 0 < j <= |calls|
    ensures var before := UsedAfter(digest, used, calls[..j - 1]);
            UsedAfter(digest, used, calls[..j]) == StepOf(digest, before, calls[j - 1]).used
  {
    assert calls[..j][..j - 1] == calls[..j - 1];
  }

  lemma AcceptanceRecords(digest: Digest, used: UsedIds, c: Call, m: Marker)
    requires Accepts(digest, used, c, m)
    ensures Recorded(StepOf(digest, used, c).used, m)
  {}

  lemma StepRemembers(digest: Digest, used: UsedIds, c: Call, m: Marker)
    requires Recorded(used, m) && c.now <= m.exp as real
    ensures Recorded(StepOf(digest, used, c).used, m)
  {}

  lemma StepRecords(digest: Digest, used: UsedIds, calls: seq<Call>, j: nat, m: Marker)
    requires 0 < j <= |calls|
    requires var earlier := UsedAfter(digest, used, calls[..j - 1]);
             Accepts(digest, earlier, calls[j - 1], m) || (Recorded(earlier, m) && calls[j - 1].now <= m.exp as real)
    ensures Recorded(UsedAfter(digest, used, calls[..j]), m)
  {
    var earlier := UsedAfter(digest, used, calls[..j - 1]);
    UsedAfterStep(digest, used, calls, j);
    if Accepts(digest, earlier, calls[j - 1], m) {
      AcceptanceRecords(digest, earlier, calls[j - 1], m);
    } else {
      StepRemembers(digest, earlier, calls[j - 1], m);
    }
  }

  /** While the clock has not passed its expiry, an accepted id stays recorded. */
  lemma {:induction false} Remembered(digest: Digest, used: UsedIds, calls: seq<Call>, i: nat, j: nat, m: Marker)
    requires AcceptedAt(digest, used, calls, i, m) && i < j <= |calls|
    requires forall k :: i < k < j ==> calls[k].now <= m.exp as real
    ensures Recorded(UsedAfter(digest, used, calls[..j]), m)
    decreases j
  {
    if j - 1 > i {
      Remembered(digest, used, calls, i, j - 1, m);
    }
    StepRecords(digest, used, calls, j, m);
  }

  /** Main result: with a clock that never goes back, an id is accepted again only
      strictly after the earlier marker expired, so no marker is accepted twice. */
  lemma SingleUse(digest: Digest, used: UsedIds, calls: seq<Call>, i: nat, j: nat, m: Marker, n: Marker)
    requires ClockForward(calls)
    ensures i < j && AcceptedAt(digest, used, calls, i, m) && AcceptedAt(digest, used, calls, j, n)
            ==> m != n && (m.id == n.id ==> m.exp as real < calls[j].now)
  {
    if i < j && AcceptedAt(digest, used, calls, i, m) && AcceptedAt(digest, used, calls, j, n) {
      if m.id == n.id && calls[j].now <= m.exp as real {
        Remembered(digest, used, calls, i, j, m);
      }
    }
  }

  // ---------------------------------------------------------------------------
  // The node's process-wide table

  class NodeApprovals {
    var usedIds: UsedIds

    constructor ()
      ensures usedIds == map[]
    {
      usedIds := map[];
    }

    /** Deletes expired ids one by one, as the loop over `_USED_IDS.items()` does. */
    method PruneExpired(now: real)
      modifies this
      ensures usedIds == Prune(old(usedIds), now)
    {
      var ids := usedIds.Keys;
      while ids != {}
        invariant ids <= old(usedIds).Keys
        invariant forall id :: id in usedIds <==> id in old(usedIds) && (id in ids || !(old(usedIds)[id] as real < now))
        invariant forall id :: id in usedIds ==> usedIds[id] == old(usedIds)[id]
        decreases ids
      {
        var id :| id in ids;
        ids := ids - {id};
        if usedIds[id] as real < now {
          usedIds := usedIds - {id};
        }
      }
    }

    method ConsumeApprovalMarker(
      digest: Digest, command: Str, action: Str, params: seq<Member>, exempt: bool, now: real)
      returns (rest: seq<Member>, verdict: Verdict)
      modifies this
      ensures Outcome(usedIds, rest, verdict) == Consume(digest, old(usedIds), command, action, params, exempt, now)
    {
      rest := params;
      if !HasKey(params, APPROVAL_PARAM) {
        verdict := if exempt then Authorized else ProposalRequired;
        return;
      }
      var marker := ReadMarker(Get(params, APPROVAL_PARAM).value);
      rest := Without(params, APPROVAL_PARAM);
      if marker.None? {
        verdict := Malformed;
        return;
      }
      var m := marker.value;
      PruneExpired(now);
      if m.exp as real < now {
        verdict := Expired;
      } else if m.bind != ApprovalBind(digest, command, action, rest) {
        verdict := Mismatch;
      } else if m.id in usedIds {
        verdict := AlreadyUsed;
      } else {
        usedIds := usedIds[m.id := m.exp];
        verdict := Authorized;
      }
    }
  }

  /** `approval_checker`: the first check consumes, later checks repeat its verdict. */
  class ApprovalChecker {
    const command: Str
    var params: seq<Member>
    var result: Option<Verdict>

    constructor (command: Str, params: seq<Member>)
      ensures this.command == command && this.params == params && result == None
    {
      this.command := command;
      this.params := params;
      result := None;
    }

    method Check(node: NodeApprovals, digest: Digest, exempt: bool, now: real) returns (verdict: Verdict)
      modifies this, node
      ensures result == Some(verdict)
      ensures old(result).Some? ==>
                verdict == old(result).value && node.usedIds == old(node.usedIds) && params == old(params)
      ensures old(result).None? ==>
                Outcome(node.usedIds, params, verdict)
                == Consume(digest, old(node.usedIds), command, [], old(params), exempt, now)
    {
      if result.None? {
        var rest, v := node.ConsumeApprovalMarker(digest, command, [], params, exempt, now);
        params := rest;
        result := Some(v);
      }
      verdict := result.value;
    }
  }
}
