/** The exec approvals document (exec_approvals.py): its schema, the redacted view
    handed out, and the merge that keeps the stored socket across a round trip. */
module ExecApprovals {
  import opened Text
  import opened JsonNumbers
  import opened JsonModel

  type Dict = seq<Member>

  const SOCKET: Str := Name("socket")
  const PATH: Str := Name("path")
  const TOKEN: Str := Name("token")

  // ---------------------------------------------------------------------------
  // The schema (`_validate_document`)

  predicate KeysWithin(ms: Dict, allowed: set<string>) {
    forall m :: m in ms ==> exists k :: k in allowed && Name(k) == m.key
  }

  /** Absent, or a string. */
  predicate OptionalString(v: Option<Json>) {
    v.Some? ==> v.value.JString?
  }

  predicate OptionalKeyword(v: Option<Json>, words: set<string>) {
    v.Some? ==> v.value.JString? && exists w :: w in words && Name(w) == v.value.s
  }

  predicate NonBlank(v: Option<Json>) {
    v.Some? && v.value.JString? && exists i :: 0 <= i < |v.value.s| && !JsWhitespace(v.value.s[i])
  }

  /** A finite number that is not negative; a boolean is not a number. */
  predicate Timestamp(v: Json) {
    match v
    case JInt(i) => i >= 0
    case JFloat(f) => f.Zero? || (f.Finite? && !f.negative)
    case _ => false
  }

  predicate ValidAllowlistEntry(v: Json) {
    && v.JObject?
    && KeysWithin(v.members, {"id", "pattern", "source", "commandText", "argPattern", "lastUsedAt", "lastUsedCommand",
                              "lastResolvedPath"})
    && Get(v.members, Name("pattern")).Some? && OptionalString(Get(v.members, Name("pattern")))
    && (var id := Get(v.members, Name("id")); id.Some? ==> id.value.JString? && id.value.s != [])
    && OptionalKeyword(Get(v.members, Name("source")), {"allow-always"})
    && OptionalString(Get(v.members, Name("commandText")))
    && OptionalString(Get(v.members, Name("argPattern")))
    && OptionalString(Get(v.members, Name("lastUsedCommand")))
    && OptionalString(Get(v.members, Name("lastResolvedPath")))
    && (var t := Get(v.members, Name("lastUsedAt")); t.Some? ==> Timestamp(t.value))
  }

  predicate ValidMcpTool(v: Json) {
    && v.JObject?
    && KeysWithin(v.members, {"server", "tool", "source", "addedAt", "lastUsedAt"})
    && NonBlank(Get(v.members, Name("server"))) && NonBlank(Get(v.members, Name("tool")))
    && Get(v.members, Name("source")).Some? && OptionalKeyword(Get(v.members, Name("source")), {"allow-always"})
    && (var t := Get(v.members, Name("addedAt")); t.Some? && Timestamp(t.value))
    && (var t := Get(v.members, Name("lastUsedAt")); t.Some? ==> Timestamp(t.value))
  }

  predicate ValidPolicy(policy: Dict, agent: bool) {
    && KeysWithin(policy, {"security", "ask", "askFallback", "autoAllowSkills"}
                          + (if agent then {"allowlist", "mcpTools"} else {}))
    && OptionalKeyword(Get(policy, Name("security")), {"deny", "allowlist", "full"})
    && OptionalKeyword(Get(policy, Name("ask")), {"off", "on-miss", "always"})
    && OptionalKeyword(Get(policy, Name("askFallback")), {"deny", "allowlist", "full"})
    && (var skills := Get(policy, Name("autoAllowSkills")); skills.Some? ==> skills.value.JBool?)
    && (var list := Get(policy, Name("allowlist"));
        list.Some? ==> list.value.JArray? && forall e :: e in list.value.items ==> ValidAllowlistEntry(e))
    && (var tools := Get(policy, Name("mcpTools"));
        tools.Some? ==> tools.value.JArray? && forall e :: e in tools.value.items ==> ValidMcpTool(e))
  }

  predicate ValidSocket(v: Option<Json>) {
    v.Some? ==>
      && v.value.JObject?
      && DistinctKeys(v.value.members)
      && forall m :: m in v.value.members ==> m.key in {PATH, TOKEN} && m.value.JString?
  }

  /** `version == 1`, which a float 1.0 satisfies and `True` does not. */
  predicate ValidVersion(v: Option<Json>) {
    match v
    case Some(JInt(i)) => i == 1
    case Some(JFloat(f)) => !f.NonFinite? && FloatNum(f) == IntNum(1)
    case _ => false
  }

  /** `_validate_document(value) is None`. */
  predicate ValidDocument(v: Json) {
    && v.JObject?
    && KeysWithin(v.members, {"version", "socket", "defaults", "agents"})
    && ValidVersion(Get(v.members, Name("version")))
    && ValidSocket(Get(v.members, SOCKET))
    && (var defaults := Get(v.members, Name("defaults"));
        defaults.Some? ==> defaults.value.JObject? && ValidPolicy(defaults.value.members, false))
    && (var agents := Get(v.members, Name("agents"));
        agents.Some? ==>
          && agents.value.JObject?
          && forall m :: m in agents.value.members ==> m.value.JObject? && ValidPolicy(m.value.members, true))
  }

  // ---------------------------------------------------------------------------
  // The schema, member by member

  predicate OneOf(v: Json, words: seq<string>) {
    v.JString? && exists i :: 0 <= i < |words| && v.s == Name(words[i])
  }

  predicate NotBlank(v: Json) {
    v.JString? && exists i :: 0 <= i < |v.s| && !JsWhitespace(v.s[i])
  }

  /** A number from zero on, whole or not, signed zero included. */
  lemma TimestampSpelled(v: Json)
    ensures Timestamp(v) <==> || (v.JInt? && 0 <= v.i)
                              || (v.JFloat? && v.f.Zero?)
                              || (v.JFloat? && v.f.Finite? && !v.f.negative)
  {}

  /** The dict's field `k` holds `v`. */
  predicate Holds(ms: Dict, k: Str, v: Json) {
    Get(ms, k) == Some(v)
  }

  lemma WithinHolds(ms: Dict, allowed: set<string>)
    ensures KeysWithin(ms, allowed) <==> forall k, v :: Holds(ms, k, v) ==> exists n :: n in allowed && Name(n) == k
  {
    forall k, v | Holds(ms, k, v)
      ensures Member(k, v) in ms
    {
    }
    forall m | m in ms
      ensures exists v :: Holds(ms, m.key, v)
    {
      var i :| 0 <= i < |ms| && ms[i] == m;
      assert HasKey(ms, m.key);
      assert Holds(ms, m.key, Get(ms, m.key).value);
    }
  }

  /** What a field may hold, by its name; a name the schema does not know may hold nothing. */
  type Rule = (Str, Json) -> bool

  predicate Clause(ms: Dict, rule: Rule, n: string) {
    var v := Get(ms, Name(n)); v.Some? ==> rule(Name(n), v.value)
  }

  ghost predicate Knows(rule: Rule, names: set<string>) {
    forall k, v :: rule(k, v) ==> exists n :: n in names && Name(n) == k
  }

  /** Every field holds what it may. */
  ghost predicate FieldsFit(ms: Dict, rule: Rule) {
    forall k, v :: Holds(ms, k, v) ==> rule(k, v)
  }

  /** A dict fits a schema exactly when it has none but the schema's fields and each of
      them, where present, holds what it may. */
  lemma FitsExactly(ms: Dict, rule: Rule, names: set<string>)
    requires Knows(rule, names)
    ensures FieldsFit(ms, rule) <==> KeysWithin(ms, names) && forall n :: n in names ==> Clause(ms, rule, n)
  {
    WithinHolds(ms, names);
    if FieldsFit(ms, rule) {
      forall k, v | Holds(ms, k, v)
        ensures exists n :: n in names && Name(n) == k
      {
        assert rule(k, v);
      }
      forall n | n in names
        ensures Clause(ms, rule, n)
      {
        var v := Get(ms, Name(n));
        assert v.Some? ==> Holds(ms, Name(n), v.value);
      }
    }
    if KeysWithin(ms, names) && forall n :: n in names ==> Clause(ms, rule, n) {
      forall k, v | Holds(ms, k, v)
        ensures rule(k, v)
      {
        var n :| n in names && Name(n) == k;
        assert Clause(ms, rule, n);
      }
    }
  }

  // ---------------------------------------------------------------------------
  // Allowlist entries

  predicate EntryField(key: Str, v: Json) {
    if key == Name("id") then v.JString? && v.s != []
    else if key == Name("source") then OneOf(v, ["allow-always"])
    else if key == Name("lastUsedAt") then Timestamp(v)
    else
      && key in {Name("pattern"), Name("commandText"), Name("argPattern"), Name("lastUsedCommand"),
                 Name("lastResolvedPath")}
      && v.JString?
  }

  lemma EntryNamesApart()
    ensures |Name("id")| == 2 && |Name("pattern")| == 7 && |Name("source")| == 6 && |Name("commandText")| == 11
    ensures |Name("argPattern")| == |Name("lastUsedAt")| == 10 && Name("argPattern") != Name("lastUsedAt")
    ensures |Name("lastUsedCommand")| == 15 && |Name("lastResolvedPath")| == 16
  {
    assert Name("argPattern")[0] != Name("lastUsedAt")[0];
  }

  lemma EntryFieldCases(v: Json)
    ensures EntryField(Name("id"), v) <==> v.JString? && v.s != []
    ensures EntryField(Name("source"), v) <==> OptionalKeyword(Some(v), {"allow-always"})
    ensures EntryField(Name("lastUsedAt"), v) <==> Timestamp(v)
    ensures EntryField(Name("pattern"), v) <==> v.JString?
    ensures EntryField(Name("commandText"), v) <==> v.JString?
    ensures EntryField(Name("argPattern"), v) <==> v.JString?
    ensures EntryField(Name("lastUsedCommand"), v) <==> v.JString?
    ensures EntryField(Name("lastResolvedPath"), v) <==> v.JString?
  {
    EntryNamesApart();
    assert ["allow-always"][0] == "allow-always";
  }

  const ENTRY_FIELDS: set<string> := {
    "id", "pattern", "source", "commandText", "argPattern", "lastUsedAt", "lastUsedCommand", "lastResolvedPath"
  }

  lemma EntryKnown()
    ensures Knows(EntryField, ENTRY_FIELDS)
  {
    assert "id" in ENTRY_FIELDS && "source" in ENTRY_FIELDS && "lastUsedAt" in ENTRY_FIELDS;
    assert "pattern" in ENTRY_FIELDS && "commandText" in ENTRY_FIELDS && "argPattern" in ENTRY_FIELDS;
    assert "lastUsedCommand" in ENTRY_FIELDS && "lastResolvedPath" in ENTRY_FIELDS;
  }

  lemma EachEntryField(ms: Dict)
    ensures (forall n :: n in ENTRY_FIELDS ==> Clause(ms, EntryField, n)) <==>
            && Clause(ms, EntryField, "id") && Clause(ms, EntryField, "pattern") && Clause(ms, EntryField, "source")
            && Clause(ms, EntryField, "commandText") && Clause(ms, EntryField, "argPattern")
            && Clause(ms, EntryField, "lastUsedAt") && Clause(ms, EntryField, "lastUsedCommand")
            && Clause(ms, EntryField, "lastResolvedPath")
  {}

  lemma EntryClauses(ms: Dict)
    ensures ValidAllowlistEntry(JObject(ms)) <==>
            && KeysWithin(ms, ENTRY_FIELDS) && Get(ms, Name("pattern")).Some?
            && forall n :: n in ENTRY_FIELDS ==> Clause(ms, EntryField, n)
  {
    forall v: Json
      ensures EntryField(Name("id"), v) <==> v.JString? && v.s != []
      ensures EntryField(Name("source"), v) <==> OptionalKeyword(Some(v), {"allow-always"})
      ensures EntryField(Name("lastUsedAt"), v) <==> Timestamp(v)
      ensures EntryField(Name("pattern"), v) <==> v.JString?
      ensures EntryField(Name("commandText"), v) <==> v.JString?
      ensures EntryField(Name("argPattern"), v) <==> v.JString?
      ensures EntryField(Name("lastUsedCommand"), v) <==> v.JString?
      ensures EntryField(Name("lastResolvedPath"), v) <==> v.JString?
    {
      EntryFieldCases(v);
    }
    EachEntryField(ms);
  }

  /** An allowlist entry is valid exactly when it has a pattern and each of its fields is
      one of the eight and holds what that field may. */
  lemma EntryExactly(ms: Dict)
    ensures ValidAllowlistEntry(JObject(ms)) <==> Get(ms, Name("pattern")).Some? && FieldsFit(ms, EntryField)
  {
    EntryKnown();
    FitsExactly(ms, EntryField, ENTRY_FIELDS);
    EntryClauses(ms);
  }

  // ---------------------------------------------------------------------------
  // MCP tools

  predicate ToolField(key: Str, v: Json) {
    if key == Name("server") || key == Name("tool") then NotBlank(v)
    else if key == Name("source") then OneOf(v, ["allow-always"])
    else key in {Name("addedAt"), Name("lastUsedAt")} && Timestamp(v)
  }

  lemma ToolNamesApart()
    ensures |Name("server")| == |Name("source")| == 6 && |Name("tool")| == 4
    ensures |Name("addedAt")| == 7 && |Name("lastUsedAt")| == 10 && Name("server") != Name("source")
  {
    assert Name("server")[1] != Name("source")[1];
  }

  const TOOL_FIELDS: set<string> := {"server", "tool", "source", "addedAt", "lastUsedAt"}

  lemma ToolFieldCases(v: Json)
    ensures ToolField(Name("server"), v) <==> NonBlank(Some(v))
    ensures ToolField(Name("tool"), v) <==> NonBlank(Some(v))
    ensures ToolField(Name("source"), v) <==> OptionalKeyword(Some(v), {"allow-always"})
    ensures ToolField(Name("addedAt"), v) <==> Timestamp(v)
    ensures ToolField(Name("lastUsedAt"), v) <==> Timestamp(v)
  {
    ToolNamesApart();
    assert ["allow-always"][0] == "allow-always";
  }

  lemma ToolKnown()
    ensures Knows(ToolField, TOOL_FIELDS)
  {
    assert "server" in TOOL_FIELDS && "tool" in TOOL_FIELDS && "source" in TOOL_FIELDS;
    assert "addedAt" in TOOL_FIELDS && "lastUsedAt" in TOOL_FIELDS;
  }

  predicate ToolComplete(ms: Dict) {
    && Get(ms, Name("server")).Some? && Get(ms, Name("tool")).Some? && Get(ms, Name("source")).Some?
    && Get(ms, Name("addedAt")).Some?
  }

  lemma ToolClauses(ms: Dict)
    ensures ValidMcpTool(JObject(ms)) <==>
            KeysWithin(ms, TOOL_FIELDS) && ToolComplete(ms) && forall n :: n in TOOL_FIELDS ==> Clause(ms, ToolField, n)
  {
    forall v: Json
      ensures ToolField(Name("server"), v) <==> NonBlank(Some(v))
      ensures ToolField(Name("tool"), v) <==> NonBlank(Some(v))
      ensures ToolField(Name("source"), v) <==> OptionalKeyword(Some(v), {"allow-always"})
      ensures ToolField(Name("addedAt"), v) <==> Timestamp(v)
      ensures ToolField(Name("lastUsedAt"), v) <==> Timestamp(v)
    {
      ToolFieldCases(v);
    }
    assert (forall n :: n in TOOL_FIELDS ==> Clause(ms, ToolField, n)) <==>
           && Clause(ms, ToolField, "server") && Clause(ms, ToolField, "tool") && Clause(ms, ToolField, "source")
           && Clause(ms, ToolField, "addedAt") && Clause(ms, ToolField, "lastUsedAt");
  }

  /** An MCP tool is valid exactly when it names server, tool, source and time of adding
      and each of its fields is one of the five and holds what that field may. */
  lemma McpToolExactly(ms: Dict)
    ensures ValidMcpTool(JObject(ms)) <==> ToolComplete(ms) && FieldsFit(ms, ToolField)
  {
    ToolKnown();
    FitsExactly(ms, ToolField, TOOL_FIELDS);
    ToolClauses(ms);
  }

  // ---------------------------------------------------------------------------
  // Policies

  /** A field of a policy; only an agent's may hold the two lists. */
  predicate PolicyField(agent: bool, key: Str, v: Json) {
    if key == Name("security") || key == Name("askFallback") then OneOf(v, ["deny", "allowlist", "full"])
    else if key == Name("ask") then OneOf(v, ["off", "on-miss", "always"])
    else if key == Name("autoAllowSkills") then v.JBool?
    else if key == Name("allowlist") then
      agent && v.JArray? && forall e :: e in v.items ==> ValidAllowlistEntry(e)
    else key == Name("mcpTools") && agent && v.JArray? && forall e :: e in v.items ==> ValidMcpTool(e)
  }

  lemma PolicyNamesApart()
    ensures |Name("security")| == |Name("mcpTools")| == 8 && Name("security") != Name("mcpTools")
    ensures |Name("ask")| == 3 && |Name("askFallback")| == 11 && |Name("autoAllowSkills")| == 15
    ensures |Name("allowlist")| == 9
  {
    assert Name("security")[0] != Name("mcpTools")[0];
  }

  function PolicyFields(agent: bool): set<string> {
    {"security", "ask", "askFallback", "autoAllowSkills"} + (if agent then {"allowlist", "mcpTools"} else {})
  }

  lemma OneOfThree(v: Json, a: string, b: string, c: string)
    ensures OneOf(v, [a, b, c]) <==> OptionalKeyword(Some(v), {a, b, c})
  {
    assert [a, b, c][0] == a && [a, b, c][1] == b && [a, b, c][2] == c;
  }

  lemma PolicyListCases(agent: bool, v: Json)
    ensures PolicyField(agent, Name("allowlist"), v) <==>
            agent && v.JArray? && forall e :: e in v.items ==> ValidAllowlistEntry(e)
    ensures PolicyField(agent, Name("mcpTools"), v) <==>
            agent && v.JArray? && forall e :: e in v.items ==> ValidMcpTool(e)
  {
    PolicyNamesApart();
  }

  lemma PolicyFieldCases(agent: bool, v: Json)
    ensures PolicyField(agent, Name("security"), v) <==> OptionalKeyword(Some(v), {"deny", "allowlist", "full"})
    ensures PolicyField(agent, Name("askFallback"), v) <==> OptionalKeyword(Some(v), {"deny", "allowlist", "full"})
    ensures PolicyField(agent, Name("ask"), v) <==> OptionalKeyword(Some(v), {"off", "on-miss", "always"})
    ensures PolicyField(agent, Name("autoAllowSkills"), v) <==> v.JBool?
  {
    PolicyNamesApart();
    OneOfThree(v, "deny", "allowlist", "full");
    OneOfThree(v, "off", "on-miss", "always");
  }

  lemma PolicyKnown(agent: bool)
    ensures Knows((k, v) => PolicyField(agent, k, v), PolicyFields(agent))
  {
    var names := PolicyFields(agent);
    assert "security" in names && "ask" in names && "askFallback" in names && "autoAllowSkills" in names;
    assert agent ==> "allowlist" in names && "mcpTools" in names;
  }

  lemma EachPolicyField(ms: Dict, agent: bool, rule: Rule)
    ensures (forall n :: n in PolicyFields(agent) ==> Clause(ms, rule, n)) <==>
            && Clause(ms, rule, "security") && Clause(ms, rule, "ask") && Clause(ms, rule, "askFallback")
            && Clause(ms, rule, "autoAllowSkills")
            && (agent ==> Clause(ms, rule, "allowlist") && Clause(ms, rule, "mcpTools"))
  {}

  lemma PolicyClauses(ms: Dict, agent: bool, rule: Rule)
    requires forall k, v :: rule(k, v) <==> PolicyField(agent, k, v)
    ensures ValidPolicy(ms, agent) <==>
            KeysWithin(ms, PolicyFields(agent)) && forall n :: n in PolicyFields(agent) ==> Clause(ms, rule, n)
  {
    forall v: Json
      ensures PolicyField(agent, Name("security"), v) <==> OptionalKeyword(Some(v), {"deny", "allowlist", "full"})
      ensures PolicyField(agent, Name("askFallback"), v) <==> OptionalKeyword(Some(v), {"deny", "allowlist", "full"})
      ensures PolicyField(agent, Name("ask"), v) <==> OptionalKeyword(Some(v), {"off", "on-miss", "always"})
      ensures PolicyField(agent, Name("autoAllowSkills"), v) <==> v.JBool?
      ensures PolicyField(agent, Name("allowlist"), v) <==>
              agent && v.JArray? && forall e :: e in v.items ==> ValidAllowlistEntry(e)
      ensures PolicyField(agent, Name("mcpTools"), v) <==>
              agent && v.JArray? && forall e :: e in v.items ==> ValidMcpTool(e)
    {
      PolicyFieldCases(agent, v);
      PolicyListCases(agent, v);
    }
    if !agent && KeysWithin(ms, PolicyFields(agent)) {
      NoLists(ms);
    }
    EachPolicyField(ms, agent, rule);
  }

  lemma NoField(ms: Dict, names: set<string>, k: Str)
    requires KeysWithin(ms, names) && forall n :: n in names ==> Name(n) != k
    ensures Get(ms, k).None?
  {}

  lemma NoLists(ms: Dict)
    requires KeysWithin(ms, PolicyFields(false))
    ensures Get(ms, Name("allowlist")).None? && Get(ms, Name("mcpTools")).None?
  {
    PolicyNamesApart();
    NoField(ms, PolicyFields(false), Name("allowlist"));
    NoField(ms, PolicyFields(false), Name("mcpTools"));
  }

  /** A policy is valid exactly when each of its fields is one it knows and holds what that
      field may. */
  lemma PolicyExactly(ms: Dict, agent: bool)
    ensures ValidPolicy(ms, agent) <==> FieldsFit(ms, (k, v) => PolicyField(agent, k, v))
  {
    var rule: Rule := (k, v) => PolicyField(agent, k, v);
    PolicyKnown(agent);
    FitsExactly(ms, rule, PolicyFields(agent));
    PolicyClauses(ms, agent, rule);
  }

  // ---------------------------------------------------------------------------
  // The document

  /** The number one: 1 or 1.0, and not `true`. */
  predicate IsOne(v: Json) {
    (v.JInt? && v.i == 1) || (v.JFloat? && v.f.Finite? && FloatNum(v.f) == Decimal(false, [1], 0))
  }

  predicate DocumentField(key: Str, v: Json) {
    if key == Name("version") then IsOne(v)
    else if key == Name("socket") then
      && v.JObject? && DistinctKeys(v.members)
      && forall m :: m in v.members ==> (m.key == Name("path") || m.key == Name("token")) && m.value.JString?
    else if key == Name("defaults") then v.JObject? && ValidPolicy(v.members, false)
    else
      && key == Name("agents") && v.JObject?
      && forall m :: m in v.members ==> m.value.JObject? && ValidPolicy(m.value.members, true)
  }

  const DOCUMENT_FIELDS: set<string> := {"version", "socket", "defaults", "agents"}

  lemma DocumentNamesApart()
    ensures |Name("version")| == 7 && |Name("defaults")| == 8 && |Name("socket")| == |Name("agents")| == 6
    ensures Name("socket") != Name("agents")
  {
    assert Name("socket")[0] != Name("agents")[0];
  }

  lemma IsOneSpelled(v: Json)
    ensures IsOne(v) <==> ValidVersion(Some(v))
  {
    assert DigitsOf(1) == [1];
    NormalizeRaw(false, [1], 0);
    assert DropTrailingZeros([1]) == [1];
  }

  lemma DocumentFieldCases(v: Json)
    ensures DocumentField(Name("version"), v) <==> ValidVersion(Some(v))
    ensures DocumentField(Name("socket"), v) <==> ValidSocket(Some(v))
    ensures DocumentField(Name("defaults"), v) <==> v.JObject? && ValidPolicy(v.members, false)
    ensures DocumentField(Name("agents"), v) <==>
            v.JObject? && forall m :: m in v.members ==> m.value.JObject? && ValidPolicy(m.value.members, true)
  {
    DocumentNamesApart();
    IsOneSpelled(v);
    assert Name("path") == PATH && Name("token") == TOKEN;
  }

  lemma DocumentKnown()
    ensures Knows(DocumentField, DOCUMENT_FIELDS)
  {
    assert "version" in DOCUMENT_FIELDS && "socket" in DOCUMENT_FIELDS;
    assert "defaults" in DOCUMENT_FIELDS && "agents" in DOCUMENT_FIELDS;
  }

  predicate DefaultsFit(v: Option<Json>) {
    v.Some? ==> v.value.JObject? && ValidPolicy(v.value.members, false)
  }

  predicate AgentsFit(v: Option<Json>) {
    v.Some? ==>
      v.value.JObject? && forall m :: m in v.value.members ==> m.value.JObject? && ValidPolicy(m.value.members, true)
  }

  lemma DocumentParts(ms: Dict)
    ensures ValidDocument(JObject(ms)) <==>
            && KeysWithin(ms, DOCUMENT_FIELDS) && ValidVersion(Get(ms, Name("version")))
            && ValidSocket(Get(ms, Name("socket"))) && DefaultsFit(Get(ms, Name("defaults")))
            && AgentsFit(Get(ms, Name("agents")))
  {
    assert Name("socket") == SOCKET;
  }

  lemma DocumentClauses(ms: Dict)
    ensures ValidDocument(JObject(ms)) <==>
            && KeysWithin(ms, DOCUMENT_FIELDS) && Get(ms, Name("version")).Some?
            && forall n :: n in DOCUMENT_FIELDS ==> Clause(ms, DocumentField, n)
  {
    DocumentParts(ms);
    EachDocumentField(ms);
    DocumentClauseAt(Get(ms, Name("version")));
    DocumentClauseAt(Get(ms, Name("socket")));
    DocumentClauseAt(Get(ms, Name("defaults")));
    DocumentClauseAt(Get(ms, Name("agents")));
  }

  lemma DocumentClauseAt(v: Option<Json>)
    ensures v.Some? ==> (DocumentField(Name("version"), v.value) <==> ValidVersion(v))
    ensures v.Some? ==> (DocumentField(Name("socket"), v.value) <==> ValidSocket(v))
    ensures v.Some? ==> (DocumentField(Name("defaults"), v.value) <==> DefaultsFit(v))
    ensures v.Some? ==> (DocumentField(Name("agents"), v.value) <==> AgentsFit(v))
  {
    if v.Some? {
      DocumentFieldCases(v.value);
    }
  }

  lemma EachDocumentField(ms: Dict)
    ensures (forall n :: n in DOCUMENT_FIELDS ==> Clause(ms, DocumentField, n)) <==>
            && Clause(ms, DocumentField, "version") && Clause(ms, DocumentField, "socket")
            && Clause(ms, DocumentField, "defaults") && Clause(ms, DocumentField, "agents")
  {}

  /** Main result on the schema: a document is valid exactly when it states the version and
      each of its fields is one of the four and holds what that field may. */
  lemma DocumentExactly(v: Json)
    ensures ValidDocument(v) <==>
            v.JObject? && Get(v.members, Name("version")).Some? && FieldsFit(v.members, DocumentField)
  {
    if v.JObject? {
      DocumentKnown();
      FitsExactly(v.members, DocumentField, DOCUMENT_FIELDS);
      DocumentClauses(v.members);
    }
  }

  // ---------------------------------------------------------------------------
  // Dict updates

  lemma {:induction false} PutMembers(ms: Dict, key: Str, value: Json)
    ensures forall m :: m in Put(ms, key, value) ==> m in ms || m == Member(key, value)
  {
    if ms != [] && ms[0].key != key {
      PutMembers(ms[1..], key, value);
    }
  }

  // ---------------------------------------------------------------------------
  // Redact and merge

  /** A string field of the document's socket, if it has one. */
  function SocketField(d: Dict, field: Str): Option<Str> {
    match Get(d, SOCKET)
    case Some(JObject(ms)) =>
      (match Get(ms, field)
       case Some(JString(s)) => Some(s)
       case _ => None)
    case _ => None
  }

  /** `_redact_document`: the token goes, the path is shown trimmed. */
  function Redact(d: Dict): Dict {
    var path := SocketField(d, PATH);
    if path.Some? && PyStrip(path.value) != []
    then Put(d, SOCKET, JObject([Member(PATH, JString(PyStrip(path.value)))]))
    else Without(d, SOCKET)
  }

  function PickPath(incoming: Option<Str>, stored: Option<Str>): Option<Str> {
    if incoming.None? then stored
    else if stored.Some? && incoming.value == PyStrip(stored.value) then stored
    else incoming
  }

  function PickToken(incoming: Option<Str>, stored: Option<Str>): Option<Str> {
    if incoming.None? then stored else incoming
  }

  function SocketMembers(path: Option<Str>, token: Option<Str>): Dict {
    (if path.Some? then [Member(PATH, JString(path.value))] else [])
    + (if token.Some? then [Member(TOKEN, JString(token.value))] else [])
  }

  /** `_merge_socket(document, current)`. */
  function MergeSocket(document: Dict, current: Dict): Dict {
    var path := PickPath(SocketField(document, PATH), SocketField(current, PATH));
    var token := PickToken(SocketField(document, TOKEN), SocketField(current, TOKEN));
    if path.None? && token.None? then Without(document, SOCKET)
    else Put(document, SOCKET, JObject(SocketMembers(path, token)))
  }

  lemma NamesDiffer()
    ensures PATH != TOKEN
  {
    assert |PATH| == 4 && |TOKEN| == 5;
  }

  lemma SocketMembersRead(path: Option<Str>, token: Option<Str>)
    ensures var ms := SocketMembers(path, token);
            && Get(ms, PATH) == (if path.Some? then Some(JString(path.value)) else None)
            && Get(ms, TOKEN) == (if token.Some? then Some(JString(token.value)) else None)
            && DistinctKeys(ms)
            && forall m :: m in ms ==> m.key in {PATH, TOKEN} && m.value.JString?
  {
    NamesDiffer();
    var ms := SocketMembers(path, token);
    if path.Some? && token.Some? {
      assert ms[1..] == [Member(TOKEN, JString(token.value))];
    } else if path.Some? {
      assert ms == [Member(PATH, JString(path.value))];
      assert ms[1..] == [];
    } else if token.Some? {
      assert ms == [Member(TOKEN, JString(token.value))];
      assert ms[1..] == [];
    }
  }

  /** What a merge stores, field by field; everything outside the socket is the
      incoming document's. */
  lemma MergeFields(document: Dict, current: Dict)
    ensures var m := MergeSocket(document, current);
            && SocketField(m, PATH) == PickPath(SocketField(document, PATH), SocketField(current, PATH))
            && SocketField(m, TOKEN) == PickToken(SocketField(document, TOKEN), SocketField(current, TOKEN))
            && (forall k :: k != SOCKET ==> Get(m, k) == Get(document, k))
            && (HasKey(m, SOCKET) <==> SocketField(m, PATH).Some? || SocketField(m, TOKEN).Some?)
  {
    var path := PickPath(SocketField(document, PATH), SocketField(current, PATH));
    var token := PickToken(SocketField(document, TOKEN), SocketField(current, TOKEN));
    SocketMembersRead(path, token);
    if path.None? && token.None? {
      DropSocketFields(document);
    } else {
      PutSocketFields(document, SocketMembers(path, token));
    }
  }

  lemma PutSocketFields(d: Dict, ms: Dict)
    ensures var m := Put(d, SOCKET, JObject(ms));
            && Get(m, SOCKET) == Some(JObject(ms))
            && forall k :: k != SOCKET ==> Get(m, k) == Get(d, k)
  {
    forall k
      ensures Get(Put(d, SOCKET, JObject(ms)), k) == if k == SOCKET then Some(JObject(ms)) else Get(d, k)
    {
      GetPut(d, SOCKET, JObject(ms), k);
    }
  }

  lemma DropSocketFields(d: Dict)
    ensures Get(Without(d, SOCKET), SOCKET) == None
    ensures forall k :: k != SOCKET ==> Get(Without(d, SOCKET), k) == Get(d, k)
  {
    forall k
      ensures Get(Without(d, SOCKET), k) == if k == SOCKET then None else Get(d, k)
    {
      GetWithout(d, SOCKET, k);
    }
  }

  function ShownPath(d: Dict): Option<Str> {
    var path := SocketField(d, PATH);
    if path.Some? && PyStrip(path.value) != [] then Some(PyStrip(path.value)) else None
  }

  lemma RedactFields(d: Dict)
    ensures SocketField(Redact(d), TOKEN) == None
    ensures SocketField(Redact(d), PATH) == ShownPath(d)
    ensures forall k :: k != SOCKET ==> Get(Redact(d), k) == Get(d, k)
  {
    var shown := ShownPath(d);
    if shown.Some? {
      ShownSocket(d, shown.value);
    } else {
      assert Redact(d) == Without(d, SOCKET);
      DropSocketFields(d);
    }
  }

  lemma ShownText(d: Dict, path: Str)
    requires ShownPath(d) == Some(path)
    ensures Redact(d) == Put(d, SOCKET, JObject(SocketMembers(Some(path), None)))
  {
    OnlyPath(path);
  }

  lemma OnlyPath(path: Str)
    ensures SocketMembers(Some(path), None) == [Member(PATH, JString(path))]
  {
    var one := [Member(PATH, JString(path))];
    assert one + [] == one;
  }

  lemma ShownSocket(d: Dict, path: Str)
    requires ShownPath(d) == Some(path)
    ensures SocketField(Redact(d), TOKEN) == None
    ensures SocketField(Redact(d), PATH) == Some(path)
    ensures forall k :: k != SOCKET ==> Get(Redact(d), k) == Get(d, k)
  {
    var ms := SocketMembers(Some(path), None);
    SocketMembersRead(Some(path), None);
    ShownText(d, path);
    PutSocketFields(d, ms);
  }

  /** Equal as dicts, the socket field by field. */
  ghost predicate SameStored(a: Dict, b: Dict) {
    && SocketField(a, PATH) == SocketField(b, PATH)
    && SocketField(a, TOKEN) == SocketField(b, TOKEN)
    && forall k :: k != SOCKET ==> Get(a, k) == Get(b, k)
  }

  /** Merging back the redacted view restores the document; only an empty socket
      object is dropped. */
  lemma RedactMergeRestores(d: Dict)
    requires ValidDocument(JObject(d))
    ensures SameStored(MergeSocket(Redact(d), d), d)
    ensures (HasKey(MergeSocket(Redact(d), d), SOCKET) <==> HasKey(d, SOCKET) && Get(d, SOCKET) != Some(JObject([])))
  {
    RedactFields(d);
    MergeFields(Redact(d), d);
    SocketFilled(d, Get(d, SOCKET));
  }

  lemma SocketFilled(d: Dict, socket: Option<Json>)
    requires Get(d, SOCKET) == socket && ValidSocket(socket)
    ensures SocketField(d, PATH).Some? || SocketField(d, TOKEN).Some? <==> socket.Some? && socket != Some(JObject([]))
  {
    if socket.Some? && socket.value.members != [] {
      var first := socket.value.members[0];
      assert first in socket.value.members;
      assert Get(socket.value.members, first.key) == Some(first.value);
    }
  }

  /** The edited copy leaves the socket entry as the redacted view showed it. */
  ghost predicate EditsOutsideSocket(edited: Dict, d: Dict) {
    Get(edited, SOCKET) == Get(Redact(d), SOCKET)
  }

  /** One get-edit-set round keeps the exact stored path, padding included, and the
      token, and stores the edit everywhere else. */
  lemma RoundKeepsSocket(d: Dict, edited: Dict)
    requires EditsOutsideSocket(edited, d)
    ensures var m := MergeSocket(edited, d);
            && SocketField(m, PATH) == SocketField(d, PATH)
            && SocketField(m, TOKEN) == SocketField(d, TOKEN)
            && forall k :: k != SOCKET ==> Get(m, k) == Get(edited, k)
  {
    RedactFields(d);
    MergeFields(edited, d);
    assert SocketField(edited, PATH) == SocketField(Redact(d), PATH);
    assert SocketField(edited, TOKEN) == SocketField(Redact(d), TOKEN);
  }

  /** The stored document after rounds with the given edited copies. */
  function AfterRounds(d: Dict, edits: seq<Dict>): Dict {
    if edits == [] then d
    else MergeSocket(edits[|edits| - 1], AfterRounds(d, edits[..|edits| - 1]))
  }

  /** Each edited copy leaves the socket as the view of its round showed it. */
  ghost predicate RoundsOutsideSocket(d: Dict, edits: seq<Dict>) {
    forall i :: 0 <= i < |edits| ==> EditsOutsideSocket(edits[i], AfterRounds(d, edits[..i]))
  }

  lemma EarlierRounds(d: Dict, edits: seq<Dict>, n: nat)
    requires n < |edits| && RoundsOutsideSocket(d, edits)
    ensures RoundsOutsideSocket(d, edits[..n])
  {
    forall i | 0 <= i < n
      ensures EditsOutsideSocket(edits[..n][i], AfterRounds(d, edits[..n][..i]))
    {
      EarlierRound(d, edits, n, i);
    }
  }

  lemma EarlierRound(d: Dict, edits: seq<Dict>, n: nat, i: nat)
    requires i < n < |edits| && EditsOutsideSocket(edits[i], AfterRounds(d, edits[..i]))
    ensures EditsOutsideSocket(edits[..n][i], AfterRounds(d, edits[..n][..i]))
  {
    assert edits[..n][..i] == edits[..i];
  }

  /** Any number of rounds keeps the credential. */
  lemma {:induction false} RoundsKeepSocket(d: Dict, edits: seq<Dict>)
    requires RoundsOutsideSocket(d, edits)
    ensures SocketField(AfterRounds(d, edits), PATH) == SocketField(d, PATH)
    ensures SocketField(AfterRounds(d, edits), TOKEN) == SocketField(d, TOKEN)
  {
    if edits != [] {
      var n := |edits| - 1;
      EarlierRounds(d, edits, n);
      RoundsKeepSocket(d, edits[..n]);
      RoundKeepsSocket(AfterRounds(d, edits[..n]), edits[n]);
    }
  }

  /** An explicit token is stored as given, even when empty. An explicit path is
      stored as given exactly unless it is the trimmed form of a padded path. */
  lemma ExplicitFieldsStored(document: Dict, current: Dict)
    ensures var m := MergeSocket(document, current);
            var path, stored := SocketField(document, PATH), SocketField(current, PATH);
            && (SocketField(document, TOKEN).Some? ==> SocketField(m, TOKEN) == SocketField(document, TOKEN))
            && (path.Some? ==>
                  (SocketField(m, PATH) == path <==>
                   !(stored.Some? && path.value == PyStrip(stored.value) && path.value != stored.value)))
  {
    MergeFields(document, current);
  }

  /** Merging a valid document with a valid stored one gives a valid one. */
  lemma MergeValid(document: Dict, current: Dict)
    requires ValidDocument(JObject(document))
    ensures ValidDocument(JObject(MergeSocket(document, current)))
  {
    var path := PickPath(SocketField(document, PATH), SocketField(current, PATH));
    var token := PickToken(SocketField(document, TOKEN), SocketField(current, TOKEN));
    var socket := JObject(SocketMembers(path, token));
    var m := MergeSocket(document, current);
    MergeFields(document, current);
    SocketMembersRead(path, token);
    GetPut(document, SOCKET, socket, SOCKET);
    GetWithout(document, SOCKET, SOCKET);
    PutMembers(document, SOCKET, socket);
    WithoutMembers(document, SOCKET);
    assert Name("socket") == SOCKET;
    TopNamesDiffer();
    MergeKeysWithin(document, m);
  }

  lemma TopNamesDiffer()
    ensures Name("version") != SOCKET && Name("defaults") != SOCKET && Name("agents") != SOCKET
  {
    assert |Name("version")| == 7 && |Name("defaults")| == 8;
    assert Name("agents")[0] == 'a' as int && SOCKET[0] == 's' as int;
  }

  lemma MergeKeysWithin(document: Dict, m: Dict)
    requires KeysWithin(document, {"version", "socket", "defaults", "agents"})
    requires forall x :: x in m ==> x in document || x.key == SOCKET
    ensures KeysWithin(m, {"version", "socket", "defaults", "agents"})
  {
    forall x | x in m
      ensures exists k :: k in {"version", "socket", "defaults", "agents"} && Name(k) == x.key
    {
      if x.key == SOCKET {
        assert Name("socket") == x.key;
      }
    }
  }
}
