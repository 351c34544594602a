/** Who needs native approval (`approval_policy.py`, `approval-policy.ts` and the
    gated table of `node-approval.ts`). */
module ApprovalPolicy {
  datatype Pair = Pair(command: string, action: string)

  /** Deletions and their like: no role runs one on its own word. */
  const DESTRUCTIVE: set<Pair> := {
    Pair("ha.config.automation", "delete"),
    Pair("ha.config.script", "delete"),
    Pair("ha.config.scene", "delete"),
    Pair("ha.config.helpers", "delete"),
    Pair("ha.config.area_registry", "delete"),
    Pair("ha.config.entity_registry", "remove"),
    Pair("ha.config.config_entries", "disable"),
    Pair("fs.delete", ""),
    Pair("fs.move", ""),
    Pair("fs.restore", ""),
    Pair("ha.update_install", "")
  }

  /** Edits an administrator makes by talking to Assist, which stand as asked. */
  const USER_DIRECTED: set<Pair> := {
    Pair("ha.config.automation", "save"),
    Pair("ha.config.script", "save"),
    Pair("ha.config.scene", "save"),
    Pair("ha.config.helpers", "create"),
    Pair("ha.config.helpers", "update"),
    Pair("ha.config.area_registry", "create"),
    Pair("ha.config.area_registry", "update"),
    Pair("ha.config.device_registry", "update"),
    Pair("ha.config.entity_registry", "update"),
    Pair("ha.config.config_entries", "enable"),
    Pair("ha.config.lovelace", "save"),
    Pair("ha.config.lovelace", "resources_create")
  }

  const ADMIN_LIFECYCLE: set<Pair> := {
    Pair("ha.addon_start", ""),
    Pair("ha.addon_restart", "")
  }

  const SUPER_ADMIN_LIFECYCLE: set<Pair> := {
    Pair("ha.addon_start", ""),
    Pair("ha.addon_stop", ""),
    Pair("ha.addon_restart", "")
  }

  /** The gated calls of the hook. */
  const APPROVAL_GATED: set<Pair> := {
    Pair("ha.config.automation", "save"),
    Pair("ha.config.automation", "delete"),
    Pair("ha.config.script", "save"),
    Pair("ha.config.script", "delete"),
    Pair("ha.config.scene", "save"),
    Pair("ha.config.scene", "delete"),
    Pair("ha.config.helpers", "create"),
    Pair("ha.config.helpers", "update"),
    Pair("ha.config.helpers", "delete"),
    Pair("ha.config.area_registry", "create"),
    Pair("ha.config.area_registry", "update"),
    Pair("ha.config.area_registry", "delete"),
    Pair("ha.config.device_registry", "update"),
    Pair("ha.config.entity_registry", "update"),
    Pair("ha.config.entity_registry", "remove"),
    Pair("ha.config.config_entries", "disable"),
    Pair("ha.config.config_entries", "enable"),
    Pair("ha.config.lovelace", "save"),
    Pair("ha.config.lovelace", "resources_create"),
    Pair("fs.write", ""),
    Pair("fs.restore", ""),
    Pair("fs.move", ""),
    Pair("fs.delete", ""),
    Pair("fs.patch", ""),
    Pair("ha.reload_config", ""),
    Pair("ha.update_install", ""),
    Pair("ha.addon_start", ""),
    Pair("ha.addon_stop", ""),
    Pair("ha.addon_restart", ""),
    Pair("ha.addon_update", "")
  }

  /** The gated commands that take an action, and those that take none. */
  const GATED_CONFIG: set<string> := {
    "ha.config.automation", "ha.config.script", "ha.config.scene", "ha.config.helpers", "ha.config.area_registry",
    "ha.config.device_registry", "ha.config.entity_registry", "ha.config.config_entries", "ha.config.lovelace"
  }

  const GATED_PLAIN: set<string> := {
    "fs.write", "fs.restore", "fs.move", "fs.delete", "fs.patch", "ha.reload_config", "ha.update_install",
    "ha.addon_start", "ha.addon_stop", "ha.addon_restart", "ha.addon_update"
  }

  datatype Role = User | Admin | SuperAdmin | Operator

  datatype Caller = Anonymous(role: Role) | Known(role: Role, actorId: string)

  datatype MaybeCaller = NoCaller | Resolved(caller: Caller)

  function LifecycleNoApproval(role: Role): set<Pair> {
    match role
    case Admin => ADMIN_LIFECYCLE
    case SuperAdmin => SUPER_ADMIN_LIFECYCLE
    case _ => {}
  }

  /** `approval_exempt`: whether the node runs this gated call with no marker. */
  predicate ApprovalExempt(caller: MaybeCaller, p: Pair) {
    && caller.Resolved?
    && caller.caller.role in {Admin, SuperAdmin}
    && caller.caller.Known?
    && (p in USER_DIRECTED || p in LifecycleNoApproval(caller.caller.role))
  }

  /** `assistSkipsPrompt`: the plugin cannot see the role, so every table must list it. */
  predicate AssistSkipsPrompt(p: Pair) {
    p in USER_DIRECTED || (p in ADMIN_LIFECYCLE && p in SUPER_ADMIN_LIFECYCLE)
  }

  lemma GatedCommand(p: Pair)
    requires p in APPROVAL_GATED
    ensures p.command in if p.action != "" then GATED_CONFIG else GATED_PLAIN
  {}

  /** The gated pairs are the destructive ones, the user-directed ones, the add-on lifecycle
      and four more; and the destructive ones are the deletions, the removal of an entity,
      the disabling of an integration, three file commands and the update. */
  lemma GatedPairs(p: Pair)
    ensures p in APPROVAL_GATED <==>
            || p in DESTRUCTIVE || p in USER_DIRECTED || p in SUPER_ADMIN_LIFECYCLE
            || (p.action == "" && p.command in {"fs.write", "fs.patch", "ha.reload_config", "ha.addon_update"})
    ensures p in DESTRUCTIVE <==>
            || (p.action == "delete" && p.command in {"ha.config.automation", "ha.config.script", "ha.config.scene",
                                                      "ha.config.helpers", "ha.config.area_registry"})
            || (p.action == "remove" && p.command == "ha.config.entity_registry")
            || (p.action == "disable" && p.command == "ha.config.config_entries")
            || (p.action == "" && p.command in {"fs.delete", "fs.move", "fs.restore", "ha.update_install"})
    ensures p in SUPER_ADMIN_LIFECYCLE <==> p in ADMIN_LIFECYCLE || p == Pair("ha.addon_stop", "")
  {}

  /** Exactly the callers the node exempts: an identified admin or super admin, for a
      user-directed pair or one of the own role's lifecycle pairs; no household user, no
      operator and nobody unidentified. */
  lemma ExemptExactly(caller: MaybeCaller, p: Pair)
    ensures ApprovalExempt(caller, p) <==>
            || (exists id :: caller == Resolved(Known(Admin, id)) && p in USER_DIRECTED + ADMIN_LIFECYCLE)
            || (exists id :: caller == Resolved(Known(SuperAdmin, id)) && p in USER_DIRECTED + SUPER_ADMIN_LIFECYCLE)
  {
    if ApprovalExempt(caller, p) {
      assert caller == Resolved(Known(caller.caller.role, caller.caller.actorId));
    }
  }

  /** A destructive call is gated, never exempt and never prompt-free. */
  lemma DestructiveAlwaysNeedsApproval(caller: MaybeCaller, p: Pair)
    requires p in DESTRUCTIVE
    ensures p in APPROVAL_GATED && !ApprovalExempt(caller, p) && !AssistSkipsPrompt(p)
  {}

  /** The plugin skips its prompt exactly when the node would exempt every known
      Assist admin and super_admin. */
  lemma SkipsExactlyWhenAllExempt(p: Pair)
    ensures AssistSkipsPrompt(p) <==>
            (forall role, id :: role in {Admin, SuperAdmin} ==> ApprovalExempt(Resolved(Known(role, id)), p))
    ensures AssistSkipsPrompt(p) ==> p in APPROVAL_GATED
  {
    if forall role, id :: role in {Admin, SuperAdmin} ==> ApprovalExempt(Resolved(Known(role, id)), p) {
      assert ApprovalExempt(Resolved(Known(Admin, "")), p);
      assert ApprovalExempt(Resolved(Known(SuperAdmin, "")), p);
    }
  }
}
