/** Who may call what (authz.py and effect_policy.py): forbidden sets patched by
    configuration, and the decision made for each call. */
module Authz {
  import opened JsonModel
  import opened ApprovalPolicy

  // ---------------------------------------------------------------------------
  // Tables

  const CALL_SERVICE: string := "ha.call_service"
  const SERVICE_PREFIX: string := "ha.call_service:"
  const LIGHT_ON: string := "ha.light_turn_on"
  const LIGHT_OFF: string := "ha.light_turn_off"

  const USER_ALLOWED: set<string> := {
    "ping", "fs.read", "fs.list", "fs.stat", "fs.glob", "fs.history", "fs.diff", "system.which", "ha.list_states",
    "ha.get_state", CALL_SERVICE, LIGHT_ON, LIGHT_OFF, "ha.list_areas", "ha.list_devices", "ha.list_services",
    "ha.get_config", "ha.list_events", "ha.list_config_entries", "ha.core_logs", "ha.calendar_get_events",
    "ha.list_entity_registry", "ha.logbook", "ha.history", "ha.list_automations", "ha.check_config", "ha.addon_logs",
    "ha.list_addons", "ha.addon_info", "ha.addon_stats", "ha.addon_changelog", "ha.addon_documentation",
    "ha.supervisor_info"
  }

  const USER_FORBIDDEN: set<string> := {
    "fs.write", "fs.delete", "fs.move", "fs.restore", "fs.patch", "system.run", "system.run.prepare",
    "system.execApprovals.get", "system.execApprovals.set", "ha.reload_config", "ha.addon_start", "ha.addon_stop",
    "ha.addon_restart", "ha.addon_update", "ha.update_install", "ha.config.lovelace", "ha.config.automation",
    "ha.config.script", "ha.config.scene", "ha.config.helpers", "ha.config.area_registry",
    "ha.config.device_registry", "ha.config.entity_registry", "ha.config.config_entries"
  }

  const ANY_SERVICE: string := SERVICE_PREFIX + "*"

  const ADMIN_COMMANDS: set<string> := {"fs.write", "fs.delete", "fs.move", "fs.restore", "fs.patch", "system.run"}

  const ADMIN_PATTERNS: set<string> := {"shell_command.*", "python_script.*", "command_line.*", "homeassistant.stop"}

  function NonRemovable(): set<string> {
    USER_FORBIDDEN + {ANY_SERVICE}
  }

  /** `_DEFAULT_FORBIDDEN`. */
  function Defaults(role: Role): set<string> {
    match role
    case User => NonRemovable()
    case Admin => ADMIN_COMMANDS + set p | p in ADMIN_PATTERNS :: SERVICE_PREFIX + p
    case _ => {}
  }

  // ---------------------------------------------------------------------------
  // Forbidden sets

  datatype Patch = Patch(add: set<string>, remove: set<string>)

  /** The configured patches; an absent one changes nothing. */
  datatype Identity = Identity(user: Option<Patch>, admin: Option<Patch>, superAdmin: Option<Patch>)

  function PatchOf(id: Identity, role: Role): Patch {
    var p := match role
             case User => id.user
             case Admin => id.admin
             case SuperAdmin => id.superAdmin
             case Operator => None;
    if p.Some? then p.value else Patch({}, {})
  }

  predicate IsServiceEntry(entry: string) {
    SERVICE_PREFIX <= entry
  }

  function ServiceEntries(entries: set<string>): set<string> {
    set e | e in entries && IsServiceEntry(e)
  }

  /** The patches whose service entries also bind this role. */
  function Superiors(role: Role): seq<Role> {
    match role
    case User => [Admin, SuperAdmin]
    case Admin => [SuperAdmin]
    case _ => []
  }

  function Removable(id: Identity, role: Role): set<string> {
    if role == User then PatchOf(id, role).remove - NonRemovable() else PatchOf(id, role).remove
  }

  function Inherited(id: Identity, role: Role): set<string> {
    set r, e | r in Superiors(role) && e in ServiceEntries(PatchOf(id, r).add) :: e
  }

  /** `forbidden_for_role`. */
  function ForbiddenFor(id: Identity, role: Role): set<string> {
    (Defaults(role) + PatchOf(id, role).add - Removable(id, role)) + Inherited(id, role)
  }

  /** `_inherited_service_prohibitions`. */
  method InheritedProhibitions(id: Identity, role: Role) returns (inherited: set<string>)
    ensures inherited == Inherited(id, role)
  {
    inherited := {};
    var roles := Superiors(role);
    for i := 0 to |roles|
      invariant inherited == set r, e | r in roles[..i] && e in ServiceEntries(PatchOf(id, r).add) :: e
    {
      assert roles[..i + 1] == roles[..i] + [roles[i]];
      inherited := inherited + ServiceEntries(PatchOf(id, roles[i]).add);
    }
    assert roles[..|roles|] == roles;
  }

  method ForbiddenForRole(id: Identity, role: Role) returns (forbidden: set<string>)
    ensures forbidden == ForbiddenFor(id, role)
  {
    forbidden := Defaults(role);
    var patch := PatchOf(id, role);
    forbidden := forbidden + patch.add;
    var removable := patch.remove;
    if role == User {
      removable := patch.remove - NonRemovable();
    }
    forbidden := forbidden - removable;
    var inherited := InheritedProhibitions(id, role);
    forbidden := forbidden + inherited;
  }

  // ---------------------------------------------------------------------------
  // The decision

  /** `service` is matched by `pattern` (`fnmatchcase`), is of the deny class, and is
      in the household table. */
  datatype Rules = Rules(glob: (string, string) -> bool, denied: string -> bool, allowed: string -> bool)

  /** The two service parameters, trimmed; a missing or non-string one is empty. */
  datatype Params = Params(domain: string, service: string)

  /** `^[a-z0-9_]{1,64}$`. */
  predicate ServiceName(s: string) {
    1 <= |s| <= 64 && forall i :: 0 <= i < |s| ==> 'a' <= s[i] <= 'z' || '0' <= s[i] <= '9' || s[i] == '_'
  }

  function WrapperService(command: string): Option<string> {
    if command == LIGHT_ON then Some("light.turn_on")
    else if command == LIGHT_OFF then Some("light.turn_off")
    else None
  }

  predicate ServiceBearing(command: string) {
    command == CALL_SERVICE || command == LIGHT_ON || command == LIGHT_OFF
  }

  function ServiceFor(command: string, params: Params): Option<string> {
    if WrapperService(command).Some? then WrapperService(command)
    else if command == CALL_SERVICE && ServiceName(params.domain) && ServiceName(params.service)
    then Some(params.domain + "." + params.service)
    else None
  }

  predicate Matches(rules: Rules, entry: string, service: string) {
    && IsServiceEntry(entry)
    && var pattern := entry[|SERVICE_PREFIX|..];
       if pattern == "*" then !rules.allowed(service) else rules.glob(service, pattern)
  }

  /** `is_forbidden`. */
  predicate IsForbidden(rules: Rules, forbidden: set<string>, command: string, params: Params) {
    || command in forbidden
    || ( && ServiceBearing(command)
         && var service := ServiceFor(command, params);
            exists e :: e in forbidden && IsServiceEntry(e) && (service.None? || Matches(rules, e, service.value)))
  }

  datatype Effect = Deny | AutoAllow | Unclassified

  function Classify(rules: Rules, service: Option<string>): Effect {
    if service.None? || rules.denied(service.value) then Deny
    else if rules.allowed(service.value) then AutoAllow
    else Unclassified
  }

  datatype Verdict = Allowed | ServiceDenied | PermissionDenied | ApprovalRequired

  /** `check`. */
  function Check(rules: Rules, role: Role, forbidden: set<string>, command: string, params: Params): Verdict {
    var service := ServiceFor(command, params);
    var effect := Classify(rules, service);
    if service.Some? && effect == Deny then ServiceDenied
    else if role == User && command !in USER_ALLOWED then PermissionDenied
    else if role != Operator && IsForbidden(rules, forbidden, command, params) then PermissionDenied
    else if command != CALL_SERVICE && service.None? then Allowed
    else if service.None? then if role == Operator then Allowed else PermissionDenied
    else if effect == AutoAllow then Allowed
    else if role == Operator then Allowed
    else if role == User then PermissionDenied
    else ApprovalRequired
  }

  /** The node lets a caller of this role make the call. */
  predicate Allows(rules: Rules, id: Identity, role: Role, command: string, params: Params) {
    Check(rules, role, ForbiddenFor(id, role), command, params) == Allowed
  }

  /** What each outcome means. The deny class binds everyone; a user gets only table
      commands and household services; an administrator's unclassified service needs
      approval; the operator is stopped by the deny class alone. */
  lemma CheckOutcomes(rules: Rules, role: Role, forbidden: set<string>, command: string, params: Params)
    ensures var r, service := Check(rules, role, forbidden, command, params), ServiceFor(command, params);
            && (r == ServiceDenied <==> service.Some? && rules.denied(service.value))
            && (role == Operator ==> r in {Allowed, ServiceDenied})
            && (role == User && r == Allowed ==>
                  command in USER_ALLOWED && !IsForbidden(rules, forbidden, command, params)
                  && (ServiceBearing(command) ==> service.Some? && rules.allowed(service.value)))
            && (r == ApprovalRequired <==>
                  && role in {Admin, SuperAdmin} && !IsForbidden(rules, forbidden, command, params)
                  && service.Some? && !rules.denied(service.value) && !rules.allowed(service.value))
  {}

  // ---------------------------------------------------------------------------
  // The tables against the gated commands

  /** Users are refused every gated command and four more; administrators every gated file
      command and `system.run`. */
  lemma GatedCommandsClosed(c: string)
    ensures c in USER_FORBIDDEN <==>
            || (exists p :: p in APPROVAL_GATED && p.command == c)
            || c in {"system.run", "system.run.prepare", "system.execApprovals.get", "system.execApprovals.set"}
    ensures c in ADMIN_COMMANDS <==>
            c == "system.run" || exists p :: p in APPROVAL_GATED && p.command == c && "fs." <= c
  {
    GatedListed(c);
    FileCommands(c);
  }

  lemma GatedListed(c: string)
    ensures (exists p :: p in APPROVAL_GATED && p.command == c) <==> c in GATED_CONFIG + GATED_PLAIN
  {
    forall p | p in APPROVAL_GATED
      ensures p.command in GATED_CONFIG + GATED_PLAIN
    {
      GatedCommand(p);
    }
    if c in GATED_CONFIG + GATED_PLAIN {
      assert Pair(c, "save") in APPROVAL_GATED || Pair(c, "create") in APPROVAL_GATED
          || Pair(c, "update") in APPROVAL_GATED || Pair(c, "enable") in APPROVAL_GATED
          || Pair(c, "") in APPROVAL_GATED;
    }
  }

  lemma FileCommands(c: string)
    ensures c in GATED_CONFIG + GATED_PLAIN && "fs." <= c <==>
            c in {"fs.write", "fs.restore", "fs.move", "fs.delete", "fs.patch"}
  {
    if c in GATED_CONFIG + GATED_PLAIN && "fs." <= c {
      assert c[0] == 'f';
    }
    if c in {"fs.write", "fs.restore", "fs.move", "fs.delete", "fs.patch"} {
      assert c[..3] == "fs.";
    }
  }

  // ---------------------------------------------------------------------------
  // The service a call is judged by

  /** A name the service parameters may hold. */
  predicate SimpleName(s: string) {
    s != "" && |s| <= 64 && forall c :: c in s ==> 'a' <= c <= 'z' || '0' <= c <= '9' || c == '_'
  }

  lemma ServiceNameExactly(s: string)
    ensures ServiceName(s) <==> SimpleName(s)
  {
    if SimpleName(s) {
      assert forall i :: 0 <= i < |s| ==> s[i] in s;
    }
  }

  /** A service call is judged by the text with the domain before its one dot and the
      service after it, or by none when either is no simple name. */
  lemma ServiceCalled(params: Params)
    ensures var service, n := ServiceFor("ha.call_service", params), |params.domain|;
            && (service.Some? <==> SimpleName(params.domain) && SimpleName(params.service))
            && (service.Some? ==>
                  && n < |service.value|
                  && (forall i :: 0 <= i < |service.value| ==> (service.value[i] == '.' <==> i == n))
                  && service.value[..n] == params.domain && service.value[n + 1..] == params.service)
  {
    ServiceNameExactly(params.domain);
    ServiceNameExactly(params.service);
    if ServiceName(params.domain) && ServiceName(params.service) {
      var text := params.domain + "." + params.service;
      forall i | 0 <= i < |text|
        ensures text[i] == '.' <==> i == |params.domain|
      {
        if i > |params.domain| {
          assert text[i] == params.service[i - |params.domain| - 1];
        }
      }
    }
  }

  /** A service call is refused by the deny class exactly when the deny class names that
      text, whoever makes it. */
  lemma DeniedExactly(rules: Rules, role: Role, forbidden: set<string>, params: Params)
    ensures Check(rules, role, forbidden, "ha.call_service", params) == ServiceDenied <==>
            && SimpleName(params.domain) && SimpleName(params.service)
            && rules.denied(params.domain + "." + params.service)
  {
    ServiceNameExactly(params.domain);
    ServiceNameExactly(params.service);
  }

  /** A light command the forbidden set does not name is judged as the service call it
      stands for. */
  lemma LightIsService(rules: Rules, role: Role, forbidden: set<string>, on: bool, params: Params)
    requires var command := if on then "ha.light_turn_on" else "ha.light_turn_off";
             command in forbidden <==> "ha.call_service" in forbidden
    ensures var command := if on then "ha.light_turn_on" else "ha.light_turn_off";
            Check(rules, role, forbidden, command, params)
            == Check(rules, role, forbidden, "ha.call_service", Params("light", if on then "turn_on" else "turn_off"))
  {
    LightText(on);
  }

  lemma LightText(on: bool)
    ensures var service := if on then "turn_on" else "turn_off";
            && ServiceFor("ha.call_service", Params("light", service)) == Some("light." + service)
            && WrapperService(if on then "ha.light_turn_on" else "ha.light_turn_off") == Some("light." + service)
  {
    assert ServiceName("light") && ServiceName("turn_on") && ServiceName("turn_off");
    assert "light." + "turn_on" == "light.turn_on" && "light." + "turn_off" == "light.turn_off";
    assert "light" + "." == "light.";
  }

  // ---------------------------------------------------------------------------
  // Every decision

  /** Some entry of the set after `ha.call_service:` is a star and the service is outside
      the household table, or is a pattern that matches it. */
  ghost predicate EntryBars(rules: Rules, forbidden: set<string>, service: string) {
    exists p :: "ha.call_service:" + p in forbidden && Bars(rules, p, service)
  }

  predicate Bars(rules: Rules, p: string, service: string) {
    if p == "*" then !rules.allowed(service) else rules.glob(service, p)
  }

  lemma MatchesSpelled(rules: Rules, p: string, service: string)
    ensures Matches(rules, "ha.call_service:" + p, service) <==> Bars(rules, p, service)
  {
    var entry := SERVICE_PREFIX + p;
    assert entry[|SERVICE_PREFIX|..] == p;
  }

  lemma BarsSpelled(rules: Rules, forbidden: set<string>, service: string)
    ensures (exists e :: e in forbidden && Matches(rules, e, service)) <==> EntryBars(rules, forbidden, service)
  {
    if e :| e in forbidden && Matches(rules, e, service) {
      var p := e[|SERVICE_PREFIX|..];
      assert e == "ha.call_service:" + p;
      MatchesSpelled(rules, p, service);
    }
    if EntryBars(rules, forbidden, service) {
      var p :| "ha.call_service:" + p in forbidden && Bars(rules, p, service);
      MatchesSpelled(rules, p, service);
    }
  }

  /** A command that calls no service: refused to a user outside the user table and to
      everyone but the operator when the set names it, and allowed otherwise. */
  lemma PlainDecided(rules: Rules, role: Role, forbidden: set<string>, command: string, params: Params)
    requires command !in {"ha.call_service", "ha.light_turn_on", "ha.light_turn_off"}
    ensures Check(rules, role, forbidden, command, params)
         == if (role == User && command !in USER_ALLOWED) || (role != Operator && command in forbidden)
            then PermissionDenied else Allowed
  {}

  /** A service call whose names are no names: the node leaves it to the operator. */
  lemma UnnamedDecided(rules: Rules, role: Role, forbidden: set<string>, params: Params)
    requires !SimpleName(params.domain) || !SimpleName(params.service)
    ensures Check(rules, role, forbidden, "ha.call_service", params)
         == if role == Operator then Allowed else PermissionDenied
  {
    ServiceNameExactly(params.domain);
    ServiceNameExactly(params.service);
  }

  /** Main result: every service call. The deny class stops everyone; then the set and its
      entries stop everyone but the operator; then a household service goes through; and
      any other is the operator's, needs approval for an administrator, and is refused to
      a user. */
  lemma ServiceDecided(rules: Rules, role: Role, forbidden: set<string>, params: Params)
    requires SimpleName(params.domain) && SimpleName(params.service)
    ensures var service := params.domain + "." + params.service;
            Check(rules, role, forbidden, "ha.call_service", params)
            == if rules.denied(service) then ServiceDenied
               else if role == Operator then Allowed
               else if "ha.call_service" in forbidden || EntryBars(rules, forbidden, service) then PermissionDenied
               else if rules.allowed(service) then Allowed
               else if role == User then PermissionDenied
               else ApprovalRequired
  {
    ServiceNameExactly(params.domain);
    ServiceNameExactly(params.service);
    BarsSpelled(rules, forbidden, params.domain + "." + params.service);
  }

  // ---------------------------------------------------------------------------
  // Privilege never inverts

  /** No built-in admin pattern matches a household service. */
  ghost predicate PatternsApart(rules: Rules) {
    forall p, service :: p in ADMIN_PATTERNS && rules.allowed(service) ==> !rules.glob(service, p)
  }

  /** A plain command the higher role is refused and the lower role's table allows is
      refused to the lower role too. */
  ghost predicate PlainOrdered(id: Identity, lower: Role, higher: Role) {
    forall c :: c in ForbiddenFor(id, higher) && !IsServiceEntry(c) && (lower == User ==> c in USER_ALLOWED)
                ==> c in ForbiddenFor(id, lower)
  }

  /** The two administrator patches add service entries only. */
  ghost predicate ServiceOnly(id: Identity) {
    && (forall e :: e in PatchOf(id, Admin).add ==> IsServiceEntry(e))
    && (forall e :: e in PatchOf(id, SuperAdmin).add ==> IsServiceEntry(e))
  }

  lemma AdminCommandsClosed(e: string)
    ensures e in ADMIN_COMMANDS ==> e !in USER_ALLOWED
  {}

  /** No command is both open and closed to household users. */
  lemma UserTablesDisjoint(c: string)
    ensures c in USER_ALLOWED ==> c !in USER_FORBIDDEN
  {
    if c in USER_FORBIDDEN {
      UserForbiddenClosed(c);
    }
  }

  lemma UserForbiddenClosed(c: string)
    requires c in USER_FORBIDDEN
    ensures c !in USER_ALLOWED
  {}

  lemma ServiceEntriesNotCommands(e: string)
    ensures IsServiceEntry(e) ==> e !in USER_ALLOWED
  {
    if IsServiceEntry(e) {
      assert |e| >= 16;
      assert e[3] == SERVICE_PREFIX[3] && e[6] == SERVICE_PREFIX[6];
    }
  }

  lemma InheritedFrom(id: Identity, role: Role, from: Role, entry: string)
    requires from in Superiors(role) && IsServiceEntry(entry) && entry in PatchOf(id, from).add
    ensures entry in ForbiddenFor(id, role)
  {
    assert entry in ServiceEntries(PatchOf(id, from).add);
    assert entry in Inherited(id, role);
  }

  /** Only the built-in commands and the patch put plain commands in the admin set. */
  lemma AdminPlainSource(id: Identity, c: string)
    requires c in ForbiddenFor(id, Admin) && !IsServiceEntry(c)
    ensures c in ADMIN_COMMANDS || c in PatchOf(id, Admin).add
  {}

  lemma ServiceOnlyOrdered(id: Identity)
    requires ServiceOnly(id)
    ensures PlainOrdered(id, User, Admin) && PlainOrdered(id, Admin, SuperAdmin)
  {
    forall c | c in ForbiddenFor(id, Admin) && !IsServiceEntry(c)
      ensures c !in USER_ALLOWED
    {
      AdminPlainSource(id, c);
      AdminCommandsClosed(c);
    }
  }

  /** A service entry of the higher role that its defaults did not put there also
      binds the lower role. */
  lemma ServicesPassDown(id: Identity, entry: string)
    requires IsServiceEntry(entry)
    ensures entry in ForbiddenFor(id, SuperAdmin) ==> entry in ForbiddenFor(id, Admin)
    ensures entry in ForbiddenFor(id, Admin) && entry !in Defaults(Admin) ==> entry in ForbiddenFor(id, User)
  {
    if entry in PatchOf(id, SuperAdmin).add {
      InheritedFrom(id, Admin, SuperAdmin, entry);
      InheritedFrom(id, User, SuperAdmin, entry);
    }
    if entry in PatchOf(id, Admin).add {
      InheritedFrom(id, User, Admin, entry);
    }
  }

  lemma UserWildcard(id: Identity)
    ensures ANY_SERVICE in ForbiddenFor(id, User) && IsServiceEntry(ANY_SERVICE)
  {}

  lemma DefaultsMiss(rules: Rules, entry: string, service: string)
    requires PatternsApart(rules) && rules.allowed(service) && entry in Defaults(Admin)
    ensures !Matches(rules, entry, service)
  {
    if entry in ADMIN_COMMANDS {
      AdminCommandsPlain(entry);
    } else {
      var p :| p in ADMIN_PATTERNS && entry == SERVICE_PREFIX + p;
      assert entry[|SERVICE_PREFIX|..] == p;
      assert p != "*";
    }
  }

  /** An admin entry that forbids an allowed service also binds the user. */
  lemma AdminEntryBindsUser(rules: Rules, id: Identity, entry: string, service: string)
    requires PatternsApart(rules) && rules.allowed(service) && entry in ForbiddenFor(id, Admin)
    ensures Matches(rules, entry, service) ==> entry in ForbiddenFor(id, User)
  {
    if entry in Defaults(Admin) {
      DefaultsMiss(rules, entry, service);
    } else if IsServiceEntry(entry) {
      ServicesPassDown(id, entry);
    }
  }

  lemma AdminCommandsPlain(e: string)
    requires e in ADMIN_COMMANDS
    ensures !IsServiceEntry(e)
  {}

  lemma UserToAdmin(rules: Rules, id: Identity, command: string, params: Params)
    requires PatternsApart(rules) && PlainOrdered(id, User, Admin)
    ensures Allows(rules, id, User, command, params) ==> Allows(rules, id, Admin, command, params)
  {
    ServiceEntriesNotCommands(command);
    UserWildcard(id);
    var service := ServiceFor(command, params);
    if Allows(rules, id, User, command, params) && ServiceBearing(command) && service.Some? {
      forall e | e in ForbiddenFor(id, Admin) && IsServiceEntry(e)
        ensures !Matches(rules, e, service.value)
      {
        AdminEntryBindsUser(rules, id, e, service.value);
      }
    }
  }

  lemma AdminToSuper(rules: Rules, id: Identity, command: string, params: Params)
    requires PlainOrdered(id, Admin, SuperAdmin)
    ensures Allows(rules, id, Admin, command, params) ==> Allows(rules, id, SuperAdmin, command, params)
  {
    forall e | e in ForbiddenFor(id, SuperAdmin)
      ensures e in ForbiddenFor(id, Admin)
    {
      ServicesPassDownAll(id, e);
    }
    ForbidsLess(rules, ForbiddenFor(id, SuperAdmin), ForbiddenFor(id, Admin), command, params);
  }

  lemma ForbidsLess(rules: Rules, fewer: set<string>, more: set<string>, command: string, params: Params)
    requires fewer <= more
    ensures IsForbidden(rules, fewer, command, params) ==> IsForbidden(rules, more, command, params)
  {}

  lemma ServicesPassDownAll(id: Identity, entry: string)
    requires PlainOrdered(id, Admin, SuperAdmin) && entry in ForbiddenFor(id, SuperAdmin)
    ensures entry in ForbiddenFor(id, Admin)
  {
    if IsServiceEntry(entry) {
      ServicesPassDown(id, entry);
    }
  }

  lemma SuperToOperator(rules: Rules, id: Identity, command: string, params: Params)
    ensures Allows(rules, id, SuperAdmin, command, params) ==> Allows(rules, id, Operator, command, params)
  {}

  /** Main result: when the administrator patches add service entries only, every call
      allowed to a role is allowed to every more privileged one. */
  lemma PrivilegeNeverInverts(rules: Rules, id: Identity, command: string, params: Params)
    requires PatternsApart(rules) && ServiceOnly(id)
    ensures Allows(rules, id, User, command, params) ==> Allows(rules, id, Admin, command, params)
    ensures Allows(rules, id, Admin, command, params) ==> Allows(rules, id, SuperAdmin, command, params)
    ensures Allows(rules, id, SuperAdmin, command, params) ==> Allows(rules, id, Operator, command, params)
  {
    ServiceOnlyOrdered(id);
    UserToAdmin(rules, id, command, params);
    AdminToSuper(rules, id, command, params);
    SuperToOperator(rules, id, command, params);
  }

  /** What the configuration adds to a role and does not remove again. */
  function NetAdded(id: Identity, role: Role): set<string> {
    PatchOf(id, role).add - PatchOf(id, role).remove
  }

  lemma OpenCommandForbidden(id: Identity, c: string)
    requires c in USER_ALLOWED
    ensures c in ForbiddenFor(id, User) <==> c in NetAdded(id, User)
    ensures c in ForbiddenFor(id, Admin) <==> c in NetAdded(id, Admin)
  {
    ServiceEntriesNotCommands(c);
    UserTablesDisjoint(c);
    AdminCommandsClosed(c);
    UserWildcard(id);
    assert c != ANY_SERVICE;
  }

  // ---------------------------------------------------------------------------
  // Exactly when privilege inverts, for any configuration and any command

  /** If the command bears a service, the service is in the household table, not of the
      deny class, and matched by none of these entries. */
  ghost predicate ServiceClear(rules: Rules, forbidden: set<string>, command: string, params: Params) {
    ServiceBearing(command) ==>
      var service := ServiceFor(command, params);
      && service.Some? && rules.allowed(service.value) && !rules.denied(service.value)
      && forall e :: e in forbidden ==> !Matches(rules, e, service.value)
  }

  /** A user may make exactly the calls of the user table that the set does not name
      and whose service is clear. */
  lemma UserAllowsExactly(rules: Rules, id: Identity, c: string, params: Params)
    ensures Allows(rules, id, User, c, params) <==>
            c in USER_ALLOWED && c !in ForbiddenFor(id, User) && ServiceClear(rules, ForbiddenFor(id, User), c, params)
  {
    UserWildcard(id);
  }

  /** An administrator may make exactly the calls the set does not name and whose
      service, if it bears one, is clear. */
  lemma AdminAllowsExactly(rules: Rules, id: Identity, role: Role, c: string, params: Params)
    requires role in {Admin, SuperAdmin}
    ensures Allows(rules, id, role, c, params) <==>
            c !in ForbiddenFor(id, role) && ServiceClear(rules, ForbiddenFor(id, role), c, params)
  {}

  /** What a user may call and an admin may not: exactly the user-table commands named
      in the admin set and not in the user set, with a service that is clear for users. */
  lemma UserOutranksAdminExactly(rules: Rules, id: Identity, c: string, params: Params)
    requires PatternsApart(rules)
    ensures (Allows(rules, id, User, c, params) && !Allows(rules, id, Admin, c, params)) <==>
            && c in USER_ALLOWED && c in ForbiddenFor(id, Admin) && c !in ForbiddenFor(id, User)
            && ServiceClear(rules, ForbiddenFor(id, User), c, params)
  {
    UserAllowsExactly(rules, id, c, params);
    AdminAllowsExactly(rules, id, Admin, c, params);
    if ServiceBearing(c) && ServiceClear(rules, ForbiddenFor(id, User), c, params) {
      var service := ServiceFor(c, params).value;
      forall e | e in ForbiddenFor(id, Admin)
        ensures !Matches(rules, e, service)
      {
        AdminEntryBindsUser(rules, id, e, service);
      }
    }
  }

  /** What an admin may call and a super admin may not: exactly the commands named in
      the super admin's set and not in the admin's, with a service clear for admins. */
  lemma AdminOutranksSuperExactly(rules: Rules, id: Identity, c: string, params: Params)
    ensures (Allows(rules, id, Admin, c, params) && !Allows(rules, id, SuperAdmin, c, params)) <==>
            && c in ForbiddenFor(id, SuperAdmin) && c !in ForbiddenFor(id, Admin)
            && ServiceClear(rules, ForbiddenFor(id, Admin), c, params)
  {
    AdminAllowsExactly(rules, id, Admin, c, params);
    AdminAllowsExactly(rules, id, SuperAdmin, c, params);
    forall e | e in ForbiddenFor(id, SuperAdmin) && IsServiceEntry(e)
      ensures e in ForbiddenFor(id, Admin)
    {
      ServicesPassDown(id, e);
    }
  }

  ghost predicate Agree(rules: Rules, id: Identity, lower: Role, higher: Role, c: string, params: Params) {
    Allows(rules, id, lower, c, params) ==> Allows(rules, id, higher, c, params)
  }

  /** Over the commands that call no service, on the configuration alone: users never
      outrank admins if and only if every user-table command the admin patch adds and
      keeps is also added for users, and admins never outrank super admins if and only
      if every command the super admin patch adds and keeps is forbidden to admins. */
  lemma PlainOrderExact(rules: Rules, id: Identity, params: Params)
    ensures (forall c :: !ServiceBearing(c) ==> Agree(rules, id, User, Admin, c, params))
        <==> (forall c :: !ServiceBearing(c) && c in USER_ALLOWED && c in NetAdded(id, Admin)
                          ==> c in NetAdded(id, User))
    ensures (forall c :: !ServiceBearing(c) ==> Agree(rules, id, Admin, SuperAdmin, c, params))
        <==> (forall c :: !ServiceBearing(c) && c in NetAdded(id, SuperAdmin) ==> c in ForbiddenFor(id, Admin))
  {
    forall c | !ServiceBearing(c)
      ensures Agree(rules, id, User, Admin, c, params) <==>
              (c in USER_ALLOWED && c in NetAdded(id, Admin) ==> c in NetAdded(id, User))
      ensures Agree(rules, id, Admin, SuperAdmin, c, params) <==>
              (c in NetAdded(id, SuperAdmin) ==> c in ForbiddenFor(id, Admin))
    {
      UserAllowsExactly(rules, id, c, params);
      AdminAllowsExactly(rules, id, Admin, c, params);
      AdminOutranksSuperExactly(rules, id, c, params);
      if c in USER_ALLOWED {
        OpenCommandForbidden(id, c);
      }
    }
  }

  /** An admin patch that adds a command of the user table does invert privilege: it
      refuses the command to admins while household users keep it. A service-bearing
      command needs a service that is clear for users. */
  lemma AdminPatchInverts(rules: Rules, params: Params, c: string)
    requires c in USER_ALLOWED
    ensures var id := Identity(None, Some(Patch({c}, {})), None);
            && !Allows(rules, id, Admin, c, params)
            && (Allows(rules, id, User, c, params) <==> ServiceClear(rules, ForbiddenFor(id, User), c, params))
  {
    var id := Identity(None, Some(Patch({c}, {})), None);
    OpenCommandForbidden(id, c);
    UserAllowsExactly(rules, id, c, params);
    AdminAllowsExactly(rules, id, Admin, c, params);
    assert c in NetAdded(id, Admin);
  }

  /** So does a super admin patch that adds a command admins may call. */
  lemma SuperPatchInverts(rules: Rules, params: Params, c: string)
    requires !IsServiceEntry(c) && c !in ADMIN_COMMANDS
    ensures var id := Identity(None, None, Some(Patch({c}, {})));
            && !Allows(rules, id, SuperAdmin, c, params)
            && (Allows(rules, id, Admin, c, params) <==> ServiceClear(rules, ForbiddenFor(id, Admin), c, params))
  {
    var id := Identity(None, None, Some(Patch({c}, {})));
    AdminAllowsExactly(rules, id, Admin, c, params);
    AdminAllowsExactly(rules, id, SuperAdmin, c, params);
    assert c in ForbiddenFor(id, SuperAdmin);
    assert c !in ForbiddenFor(id, Admin);
  }
}
