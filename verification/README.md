# OpenClaw Home Assistant node: verified model

A Dafny model of the parts of the node add-on and its plugin that decide what may run and what is
kept, with proofs of what they promise:

- **Approvals.** A human approval is bound to one call by hashing a canonical JSON text. The text is
  shown to determine the call, the Python and TypeScript printers are shown to agree, a marker is
  single use over whole runs, and the session-grant store, keyed by JSON strings and revoked by
  prefix, refines a map keyed by triples.
- **Command text and policy file.** The argv rendering shown to the approver is injective although
  backslash is never escaped; the redacted policy view merges back without losing the socket; every
  interleaving of policy writers is a chain of compare-and-swaps.
- **Assist relay.** A streaming turn as atomic steps: one answer at most, from the turn's own
  events; well-ordered tool frames; nothing left behind however it ends.
- **Backup store.** Content-addressed objects and append-only logs refine a map from path to list of
  captured bytes, at every crash point.
- **Authorization.** Privilege order of patched forbidden sets, with exactly the calls for which it
  inverts, and the one-pass marker scrubber.
- **Tree walks.** Two explicit-stack walks against plain recursion.

## Layout

| file | models |
|---|---|
| Text, Utf16 | Python and JavaScript strings, UTF-16, key order |
| JsonNumbers, JsonStrings, JsonModel, CanonicalJson | the node's canonical printer and the parser that undoes it |
| PluginCanonical, JsonTransport | the plugin's printer and the transport between the two |
| ApprovalPolicy, ApprovalMarker, ApprovalHook, GrantStore, ApprovalRuns | tables, marker, hook, grants, whole runs |
| ExecCommandText, ExecApprovals, ApprovalsWriter | command text, policy document, its writers |
| ReplyText, RelaySlot, RelayRuns, RelayOverlap, ChatRelay | reply text, one session's state, whole runs, two turns after a disconnect, the relay object |
| VersionLine, BackupStore | index lines, the store |
| Authz, MarkerScrub | decisions, scrubbing |
| ParamsShape, GlobWalk | the two walks |

`dafny verify dfyconfig.toml` checks the whole project.

## Where code and documentation differ

- `_resolve_command_text` trims the raw command but not the rendering it compares with, so some argv
  lists cannot be confirmed by their own text (`ExecCommandText.CanonicalTextRefused`); the exact
  condition is `ExecCommandText.CanonicalTextAccepted`.
- The docstring of `_inherited_service_prohibitions` says that privilege never inverts. It is right
  for service entries, which pass down to the lower roles. A command name added for admins or super
  admins does not pass down and inverts the order, for service-bearing commands too
  (`Authz.AdminPatchInverts`, `Authz.SuperPatchInverts`). Exactly which calls a role keeps and the
  next one up loses, for every configuration and command, is `Authz.UserOutranksAdminExactly` and
  `Authz.AdminOutranksSuperExactly`; on the configuration alone, for commands that call no service,
  `Authz.PlainOrderExact`.

- The docstring of `reset` says that the next connect starts clean. It drops the turn locks too, so a
  new turn of the session can begin while the old one's consumer is suspended at a yield, and that
  consumer's `finally` then unregisters the new turn's queue, which stays without an answer until its
  deadline (`RelayOverlap.OldTurnStarvesNew`); exactly when, is `RelayOverlap.NewTurnHeardExactly`.
- The hook trims an action by JavaScript's rules and the handlers strip it by Python's. For an action
  such as U+FEFF and then `save` the hook prompts and mints a marker for `save`, and the node refuses
  an unknown action before it looks at the marker (`ApprovalHook.ActionReceived`).

Two more edges are in the code but not within reach of its callers:

- `rename_history` onto the same path erases the history (`BackupStore.MoveMerges`). Its one caller
  refuses equal paths first (`commands/fs_move_delete.py:282`).
- The printers sort by UTF-16 order, which two different strings can share when one holds a split
  surrogate pair; insertion order then shows (`CanonicalJson.InsertionOrderCondition`). The node
  never receives such keys, because `json.loads` joins escaped pairs: a received call always has
  distinct UTF-16 keys (`PluginCanonical.ReceivedKeysDistinct`).

## Model

| member | source | states |
|---|---|---|
| `JsonNumbers.EsNumberReadsBack` | app/node/src/openclaw_node/commands/config_mutation.py:48-67 | In all four layouts the text of a finite float, read back as a decimal numeral, has exactly its sign, digits and exponent |
| `JsonNumbers.EsNumberInjective` | app/node/src/openclaw_node/commands/config_mutation.py:48-67 | Two finite floats print alike exactly when they are the same decimal; only the sign of zero is lost |
| `JsonNumbers.EsNumberIsEcma` | app/node/src/openclaw_node/commands/config_mutation.py:48-67 | The text is the one Number::toString of ECMA-262 section 6.1.6.1.20 prescribes, step by step |
| `JsonNumbers.NormalizeKeepsNumber` | app/node/src/openclaw_node/commands/config_mutation.py:54-57 | Dropping outer zeros keeps the real number denoted |
| `JsonNumbers.IntTextReadsBack` | app/node/src/openclaw_node/commands/config_mutation.py:118-119 | The text of an integer reads back as that integer |
| `JsonNumbers.NumeralRoundTrip` | app/node/src/openclaw_node/commands/config_mutation.py:48-67 | Reading a numeral's text gives the numeral back, plain or with an exponent |
| `JsonNumbers.NumberTextsSpelled` | app/node/src/openclaw_node/commands/config_mutation.py:48-67 | The characters of numbers, against string literals |
| `JsonStrings.EsStringLoop` | app/node/src/openclaw_node/commands/config_mutation.py:86-102 | The appending loop prints the string code point by code point |
| `JsonStrings.EscapesSpelled` | app/node/src/openclaw_node/commands/config_mutation.py:73-102 | The escape of every code point, against string literals: the seven short ones, six characters for any other control character or surrogate, and every other code point itself |
| `JsonStrings.UnicodeEscapeSpelled` | app/node/src/openclaw_node/commands/config_mutation.py:96-99 | The six-character escape is a backslash, a u and four lower-case hexadecimal digits, most significant first, of the code |
| `JsonStrings.ReadBackBody` | app/node/src/openclaw_node/commands/config_mutation.py:86-102 | Reading undoes printing for every string, lone surrogates included |
| `JsonStrings.EsStringPrefixFree` | app/node/src/openclaw_node/commands/config_mutation.py:86-102 | What follows a printed string cannot change the string read |
| `JsonStrings.EsBodyEncodable` | app/node/src/openclaw_node/commands/config_mutation.py:86-102 | The text holds no surrogate, so UTF-8 can encode it |
| `JsonStrings.StringsAgree` | plugins/openclaw-hass-node-assist-tools/src/shared/node-approval.ts:136-139 | Code-point escaping equals QuoteJSONString of ECMA-262 on UTF-16 units for every string without a split surrogate pair |
| `JsonStrings.StringsAgreeExactly` | plugins/openclaw-hass-node-assist-tools/src/shared/node-approval.ts:136-139 | The two sides print a string alike exactly when it holds no split surrogate pair |
| `JsonStrings.JsQuoteIsDecoded` | plugins/openclaw-hass-node-assist-tools/src/shared/node-approval.ts:136-139 | JavaScript quoting of any string is the node's quoting of the decoded string |
| `Text.StripCuts` | app/node/src/openclaw_node/commands/exec_approvals.py:189-208 | Python's strip cuts white space off both ends, and nothing else, until none is left there |
| `Text.WhitespaceDiffers` | app/node/src/openclaw_node/commands/exec_approvals.py:189-208 | White space to one language and not to the other are exactly U+001C to U+001F and U+0085, to Python, and U+FEFF, to JavaScript |
| `Utf16.DecodeEncode` | app/node/src/openclaw_node/commands/config_mutation.py:70-72 | UTF-16 loses nothing exactly on strings without a split surrogate pair |
| `Utf16.ByteOrderIsUnitOrder` | app/node/src/openclaw_node/commands/config_mutation.py:70-72 | Order of UTF-16-BE bytes is order of code units, as section 3.2.3 of RFC 8785 sorts keys |
| `Utf16.SortSorts` | plugins/openclaw-hass-node-assist-tools/src/shared/node-approval.ts:134-135 | Sorting by key gives a sorted permutation |
| `Utf16.SortIgnoresOrder` | plugins/openclaw-hass-node-assist-tools/src/shared/node-approval.ts:134-135 | With distinct keys the sorted result does not depend on the order before |
| `CanonicalJson.CanonicalParses` | app/node/src/openclaw_node/commands/config_mutation.py:105-120 | A parser undoes the canonical printer: the text of any value parses to its normal form |
| `CanonicalJson.CanonicalInjective` | app/node/src/openclaw_node/commands/config_mutation.py:105-120 | Two values have one text if and only if they have one normal form |
| `CanonicalJson.SameTextSameMembers` | app/node/src/openclaw_node/commands/config_mutation.py:107-111 | For all dicts: two objects have one text exactly when, for every UTF-16 key, they hold members of the same texts under it in the same order; the order across keys is left open |
| `CanonicalJson.SameTextDistinctMembers` | app/node/src/openclaw_node/commands/config_mutation.py:107-111 | Two dicts with distinct UTF-16 keys have one text exactly when each member of either has one in the other with its key and a value of the same text |
| `CanonicalJson.SameTextSameNumber` | app/node/src/openclaw_node/commands/config_mutation.py:116-120 | What one text leaves open about a number: the sign of zero, an integer against the float of its value, and which non-finite float or null it was |
| `CanonicalJson.IntFloatSameNumber` | app/node/src/openclaw_node/commands/config_mutation.py:118-120 | An integer and a float that share a text are the same number |
| `CanonicalJson.InsertionOrderInvisible` | app/node/src/openclaw_node/commands/config_mutation.py:107-111 | Reordering the members of an object with distinct UTF-16 keys leaves the text unchanged |
| `CanonicalJson.InsertionOrderCondition` | app/node/src/openclaw_node/commands/config_mutation.py:107-111 | Insertion order never shows exactly when no two keys have the same UTF-16 form |
| `CanonicalJson.InsertionOrderVisible` | app/node/src/openclaw_node/commands/config_mutation.py:107-111 | Two different keys with one UTF-16 form make insertion order show |
| `CanonicalJson.BindTextNamesCall` | app/node/src/openclaw_node/commands/config_mutation.py:35-45 | One bound text means one command, one action and one body of params, and conversely |
| `CanonicalJson.BindTextEncodable` | app/node/src/openclaw_node/commands/config_mutation.py:44-45 | The bound text can always be encoded as UTF-8 |
| `CanonicalJson.BindTextSpelled` | app/node/src/openclaw_node/commands/config_mutation.py:35-45 | The hashed text is, character for character, an object with the fields action, command and params in this order and no white space, around the texts of the three values |
| `PluginCanonical.PrintersAgree` | plugins/openclaw-hass-node-assist-tools/src/shared/node-approval.ts:130-140 | The two canonical printers give one text on every value with no split surrogate pair and safe integers |
| `PluginCanonical.SafeIntegersArePlain` | plugins/openclaw-hass-node-assist-tools/src/shared/node-approval.ts:163-173 | Every safe integer is printed by Number::toString in plain digits, as the node prints it |
| `PluginCanonical.ReceivedKeysDistinct` | plugins/openclaw-hass-node-assist-tools/src/shared/node-approval.ts:130-140 | A received dict has distinct UTF-16 keys, so insertion order never shows on what the node receives |
| `PluginCanonical.ReceivedTextAgrees` | plugins/openclaw-hass-node-assist-tools/src/shared/node-approval.ts:130-140 | The node's text of any value received from the plugin is the plugin's text |
| `PluginCanonical.ReceivedSameMembers` | plugins/openclaw-hass-node-assist-tools/src/shared/node-approval.ts:130-140 | The plugin's texts of two objects agree exactly when, as received, each member of either has one in the other with its key and a value of the same text |
| `PluginCanonical.BindTextsAgree` | plugins/openclaw-hass-node-assist-tools/src/shared/node-approval.ts:143-154 | Plugin and node bind the same text to any call, whatever keys the params hold |
| `JsonTransport.ReadsWhatWasWritten` | plugins/openclaw-hass-node-assist-tools/src/shared/node-approval.ts:308-311 | Reading the text `JSON.stringify` writes of any value, members in the object's own order, gives exactly the value the node is said to receive |
| `ApprovalMarker.MarkerBindsOneCall` | app/node/src/openclaw_node/commands/config_mutation.py:127-162 | A call is authorized by a marker only when it is the very call the marker was bound to, up to what the canonical text forgets |
| `ApprovalMarker.AuthorizedExactly` | app/node/src/openclaw_node/commands/config_mutation.py:127-162 | A call is authorized exactly when it has no marker and an exempt caller, or a well-formed, unexpired, unused marker bound to this call; only then is an id recorded, and the marker never stays in the params |
| `ApprovalMarker.VerdictExactly` | app/node/src/openclaw_node/commands/config_mutation.py:127-162 | Every verdict of every call: without a marker only an exempt caller passes and any other needs a proposal; a field that is no marker is malformed; a marker is expired, else for another call, else already used, else authorized |
| `ApprovalMarker.ReadMarkerExactly` | app/node/src/openclaw_node/commands/config_mutation.py:137-150 | A marker is an object with exactly the keys id, exp and bind, holding a string that is not empty, an integer and a string |
| `ApprovalMarker.SingleUse` | app/node/src/openclaw_node/commands/config_mutation.py:127-162 | With a clock that never goes back, a marker id is accepted again only strictly after the earlier expiry, so no marker is accepted twice |
| `ApprovalMarker.Remembered` | app/node/src/openclaw_node/commands/config_mutation.py:151-161 | Pruning keeps an accepted id until its expiry has passed |
| `ApprovalMarker.NodeApprovals.PruneExpired` | app/node/src/openclaw_node/commands/config_mutation.py:152-154 | The deleting loop leaves exactly the ids not yet expired |
| `ApprovalMarker.NodeApprovals.ConsumeApprovalMarker` | app/node/src/openclaw_node/commands/config_mutation.py:127-162 | The method updates the used-id table, the params and the verdict as the pure step does |
| `ApprovalMarker.ApprovalChecker.Check` | app/node/src/openclaw_node/commands/config_mutation.py:165-179 | Only the first check consumes the marker; later ones repeat its result |
| `ApprovalPolicy.DestructiveAlwaysNeedsApproval` | app/node/src/openclaw_node/approval_policy.py:20-80 | A destructive pair is gated, exempt for no caller and never prompt-free |
| `ApprovalPolicy.ExemptExactly` | app/node/src/openclaw_node/approval_policy.py:68-80 | Exactly the identified admins and super admins are exempt, for a user-directed pair or one of the own role's lifecycle pairs |
| `ApprovalPolicy.GatedPairs` | plugins/openclaw-hass-node-assist-tools/src/shared/node-approval.ts:39-65 | The gated pairs are the destructive, the user-directed and the lifecycle ones and four more, and exactly which are destructive |
| `ApprovalPolicy.SkipsExactlyWhenAllExempt` | plugins/openclaw-hass-node-assist-tools/src/shared/approval-policy.ts:48-58 | The plugin skips its prompt exactly when the node exempts every known admin and super admin |
| `GrantStore.JsQuotePrefixFree` | plugins/openclaw-hass-node-assist-tools/src/shared/approval-grants.ts:27-28 | Quoted JSON strings are prefix-free |
| `GrantStore.KeyOfInjective` | plugins/openclaw-hass-node-assist-tools/src/shared/approval-grants.ts:27-28 | Distinct triples have distinct keys |
| `GrantStore.PrefixNamesSession` | plugins/openclaw-hass-node-assist-tools/src/shared/approval-grants.ts:43-46 | A key starts with a session's prefix if and only if the grant is that session's |
| `GrantStore.RevokeRefines` | plugins/openclaw-hass-node-assist-tools/src/shared/approval-grants.ts:43-46 | Prefix revocation removes exactly the session's grants |
| `GrantStore.GrantRefines` | plugins/openclaw-hass-node-assist-tools/src/shared/approval-grants.ts:30-32 | Setting a key refines setting the triple |
| `GrantStore.DeleteRefines` | plugins/openclaw-hass-node-assist-tools/src/shared/approval-grants.ts:33-42 | Deleting a key refines deleting the triple |
| `GrantStore.Store.Grant` | plugins/openclaw-hass-node-assist-tools/src/shared/approval-grants.ts:30-32 | Records the grant for 3,600,000 ms and keeps every other |
| `GrantStore.Store.Has` | plugins/openclaw-hass-node-assist-tools/src/shared/approval-grants.ts:33-42 | True exactly for an unexpired grant; drops an expired one |
| `GrantStore.Store.RevokeSession` | plugins/openclaw-hass-node-assist-tools/src/shared/approval-grants.ts:43-46 | Leaves exactly the other sessions' grants |
| `ApprovalHook.MintedMarkerVerdict` | plugins/openclaw-hass-node-assist-tools/src/shared/node-approval.ts:235-241 | A minted marker is accepted up to its expiry with an unused id and expired after it |
| `ApprovalHook.HookMarkerAccepted` | plugins/openclaw-hass-node-assist-tools/src/shared/node-approval.ts:304-331 | For a gated call the hook mints a marker for, the node's handler, which strips the received action by Python's rules, reaches its marker check on the rewritten params exactly when that action holds no U+FEFF; it then accepts for every delay up to 719 s with an unused id and never after 720 s, whatever keys the params hold; the popped hint is well formed and names the caller's own session, or there is none outside Assist |
| `ApprovalHook.ActionReceived` | app/node/src/openclaw_node/commands/ha_config_automation.py:160-169 | The action a handler strips from the params is the one the hook trimmed exactly when it holds no U+FEFF; otherwise it is one for which no handler asks for a marker |
| `ApprovalHook.PopLeavesRest` | app/node/src/openclaw_node/gateway_ws.py:323-338 | No hint exactly when the field is absent, a refusal exactly when it holds no object with a session key that is not blank, otherwise that key; and always the other fields unchanged |
| `ApprovalHook.AssistKeyExactly` | plugins/openclaw-hass-node-assist-tools/src/shared/caller-context.ts:41-45 | A session key is an Assist key exactly when its trimmed text is empty or anything up to a colon, then `ha-assist:` in either case, then something without white space; and it is that text |
| `ApprovalHook.TrimCuts` | plugins/openclaw-hass-node-assist-tools/src/shared/caller-context.ts:41-45 | JavaScript's trim cuts white space off both ends, and nothing else, until none is left there |
| `ApprovalHook.TrimmedExactly` | plugins/openclaw-hass-node-assist-tools/src/tools/node-tool-invoke.ts:153-160 | A text argument is read trimmed; an absent one or one of another type is empty |
| `ApprovalHook.AssistKeyVisible` | plugins/openclaw-hass-node-assist-tools/src/shared/caller-context.ts:37-42 | A key the plugin takes for an Assist session is never blank to the node |
| `ApprovalHook.AdminMarkerAccepted` | plugins/openclaw-hass-node-assist-tools/src/tools/ha-admin-tools.ts:47-87 | An admin tool sends something exactly inside an Assist session and for arguments it does not refuse itself (no node, no slug or a denied one for an add-on command, no entity for an update); what it sends carries a well-formed hint of that session and a marker the node accepts on exactly the command's params, for every delay up to 719 s with an unused id and never after 720 s |
| `ApprovalHook.ReloadParams` | plugins/openclaw-hass-node-assist-tools/src/shared/node-approval.ts:90-94 | A reload is sent with its trimmed domain when that is not blank, and with nothing else |
| `ApprovalHook.InstallParams` | plugins/openclaw-hass-node-assist-tools/src/shared/node-approval.ts:95-100 | An update is sent with its trimmed entity, a boolean backup and a version that is not empty, as given, and with nothing else |
| `ApprovalHook.SlugParams` | plugins/openclaw-hass-node-assist-tools/src/shared/node-approval.ts:101-102 | Every add-on command is sent with its trimmed slug and nothing else |
| `ApprovalHook.RefusesExactly` | plugins/openclaw-hass-node-assist-tools/src/tools/ha-admin-tools.ts:47-74 | A tool refuses by itself exactly when there is no node, an add-on slug is blank or denied, or an update has no entity |
| `ApprovalHook.SlugDeniedExactly` | plugins/openclaw-hass-node-assist-tools/src/tools/ha-admin-tools.ts:24-33 | The denied slugs are none, homeassistant, supervisor and those that start with core_ |
| `ApprovalHook.CleanHasNoReserved` | plugins/openclaw-hass-node-assist-tools/src/shared/node-approval.ts:304-307 | No marker or hint supplied by the model survives |
| `ApprovalRuns.MarkerExactlyWhenMinted` | plugins/openclaw-hass-node-assist-tools/src/shared/node-approval.ts:247-341 | The marker a call goes on with, passed or rewritten, is the one the hook mints for it, and it has none exactly when the hook mints none, whatever it came with |
| `ApprovalRuns.HintExactlyInAssist` | plugins/openclaw-hass-node-assist-tools/src/shared/node-approval.ts:304-331 | A nodes call goes on, passed or rewritten, with the hook's own caller hint when it is gated and inside an Assist session, and with none otherwise, whatever it came with |
| `ApprovalRuns.UnmarkedExactly` | plugins/openclaw-hass-node-assist-tools/src/shared/approval-policy.ts:48-58 | A gated nodes call that is not refused goes on without a marker exactly inside an Assist session and for a pair the node exempts for every identified admin and super admin |
| `ApprovalRuns.PromptFreeMarkerNeedsLiveGrant` | plugins/openclaw-hass-node-assist-tools/src/shared/node-approval.ts:282-341 | After any run, for every call: when it goes on with a marker, it does so without a prompt exactly when the caller has a session key, the pair is not destructive, and the same trimmed session key, command and action were granted less than 3,600,000 ms ago with no end of that session since; and it prompts without an allow-always offer exactly when there is no session key or the pair is destructive |
| `ApprovalRuns.AllowAlwaysHolds` | plugins/openclaw-hass-node-assist-tools/src/shared/node-approval.ts:207-233 | Once a human answers an offer with allow-always, the same call goes on without a prompt for an hour, whatever happened before |
| `ApprovalRuns.StoreIsLive` | plugins/openclaw-hass-node-assist-tools/src/shared/approval-grants.ts:25-48 | The store says yes exactly for live grants |
| `ApprovalRuns.RunKeeps` | plugins/openclaw-hass-node-assist-tools/src/shared/node-approval.ts:207-233 | Every call, decision, session end and clock step keeps the store tied to the history of grants |
| `ApprovalRuns.OfferIsScope` | plugins/openclaw-hass-node-assist-tools/src/shared/node-approval.ts:210-233 | Allow-always is offered only for the caller's own trimmed session key and the command and action of the call, and never for a destructive pair |
| `ApprovalRuns.DestructiveAlwaysPrompts` | plugins/openclaw-hass-node-assist-tools/src/shared/node-approval.ts:229-233 | A destructive call always prompts and never offers allow-always |
| `ApprovalRuns.DestructiveAdminPrompts` | plugins/openclaw-hass-node-assist-tools/src/shared/node-approval.ts:247-270 | The same for the plugin's own admin tools |
| `ExecCommandText.FormatExecCommand` | app/node/src/openclaw_node/commands/exec_approvals.py:156-173 | The loop renders argv as the recursive form does |
| `ExecCommandText.ReadingsNeverMeet` | app/node/src/openclaw_node/commands/exec_approvals.py:156-173 | Once two readings of one text disagree about a quote they are never both outside quotes again |
| `ExecCommandText.QuotedArgDetermined` | app/node/src/openclaw_node/commands/exec_approvals.py:156-173 | A quoted argument is determined by the text although backslash is not escaped |
| `ExecCommandText.FormatInjective` | app/node/src/openclaw_node/commands/exec_approvals.py:156-173 | The approval text names exactly one argv |
| `ExecCommandText.BoundTextNamesOneArgv` | app/node/src/openclaw_node/commands/exec_approvals.py:189-216 | Two accepted requests with one command text have one argv |
| `ExecCommandText.ResolvesExactly` | app/node/src/openclaw_node/commands/exec_approvals.py:176-216 | Every answer: a raw command that is blank, or whose trimmed text is the rendering or the script of a literal /bin/sh -c or -lc form, is bound to the rendering, with the script as preview of a shell form and no preview otherwise; any other is refused |
| `ExecCommandText.CanonicalTextAccepted` | app/node/src/openclaw_node/commands/exec_approvals.py:189-216 | Sending back an argv's own text is accepted exactly when trimming leaves it alone or empties it |
| `ExecCommandText.PayloadIsNotText` | app/node/src/openclaw_node/commands/exec_approvals.py:176-208 | A shell payload never equals the trimmed rendering it stands in, which shows more characters |
| `ExecCommandText.CanonicalTextRefused` | app/node/src/openclaw_node/commands/exec_approvals.py:202-208 | A concrete argv whose own text is refused, because the raw command is trimmed and the rendering is not |
| `ExecApprovals.RedactMergeRestores` | app/node/src/openclaw_node/commands/exec_approvals.py:436-508 | Merging the redacted view back restores the document; only an empty socket object is dropped |
| `ExecApprovals.RedactFields` | app/node/src/openclaw_node/commands/exec_approvals.py:436-452 | The redacted view has no token and only the trimmed path; the rest is untouched |
| `ExecApprovals.MergeFields` | app/node/src/openclaw_node/commands/exec_approvals.py:455-508 | What a merge stores, field by field, and nothing else changes |
| `ExecApprovals.RoundKeepsSocket` | app/node/src/openclaw_node/commands/exec_approvals.py:455-508 | One get, edit outside the socket and set keeps the exact path, padding included, and the token |
| `ExecApprovals.RoundsKeepSocket` | app/node/src/openclaw_node/commands/exec_approvals.py:436-508 | Any number of rounds keeps them |
| `ExecApprovals.ExplicitFieldsStored` | app/node/src/openclaw_node/commands/exec_approvals.py:471-499 | An explicit token is stored as given; an explicit path is, exactly unless it is the trimmed form of a padded stored path |
| `ExecApprovals.MergeValid` | app/node/src/openclaw_node/commands/exec_approvals.py:374-407 | A valid document stays valid after the merge |
| `ExecApprovals.DocumentExactly` | app/node/src/openclaw_node/commands/exec_approvals.py:374-407 | A document is valid exactly when it states version 1 and each of its fields is one of the four and holds what that field may |
| `ExecApprovals.PolicyExactly` | app/node/src/openclaw_node/commands/exec_approvals.py:336-371 | A policy is valid exactly when each of its fields is one it knows, the two lists for agents only, and holds what that field may |
| `ExecApprovals.EntryExactly` | app/node/src/openclaw_node/commands/exec_approvals.py:295-314 | An allowlist entry is valid exactly when it has a pattern and each of its fields is one of the eight and holds what that field may |
| `ExecApprovals.McpToolExactly` | app/node/src/openclaw_node/commands/exec_approvals.py:317-333 | An MCP tool is valid exactly when it has server, tool, source and time of adding and each of its fields is one of the five and holds what that field may |
| `ExecApprovals.TimestampSpelled` | app/node/src/openclaw_node/commands/exec_approvals.py:260-292 | A timestamp is a finite number from zero on, whole or not, and no boolean |
| `ApprovalsWriter.EveryCommitIsCompareAndSwap` | app/node/src/openclaw_node/commands/exec_approvals.py:673-791 | In every interleaving of writers each commit replaced exactly the bytes whose hash it named (or an absent file), commits form one chain, each written document validates and carries the replaced file's socket, success means committed once and an error means not committed |
| `ApprovalsWriter.AloneDoesSet` | app/node/src/openclaw_node/commands/exec_approvals.py:717-791 | With the lock free, a set that nothing stops commits the requested document with the stored socket merged in; one that is stopped fails with the reason that applies and leaves the file; the lock is free again either way |
| `ApprovalsWriter.StoredExactly` | app/node/src/openclaw_node/commands/exec_approvals.py:410-428 | What is merged from is the file's document when it parses and validates, and nothing otherwise |
| `ApprovalsWriter.WriterKept` | app/node/src/openclaw_node/commands/exec_approvals.py:733-760 | What a writer read is still the file while it holds the lock |
| `ApprovalsWriter.LogGrows` | app/node/src/openclaw_node/commands/exec_approvals.py:733-780 | The file changes only by a prepared compare-and-swap |
| `ApprovalsWriter.LockKept` | app/node/src/openclaw_node/commands/exec_approvals.py:673-714 | At most one writer is inside the lock |
| `ApprovalsWriter.ApprovalsFile.Set` | app/node/src/openclaw_node/commands/exec_approvals.py:717-780 | An error leaves the file as it was, and each refusal is given exactly when it applies; success stores the merged document over the named base; a right base is refused only for encoding |
| `VersionLine.LineReadsBack` | app/node/src/openclaw_node/backup_store.py:181-234 | Reading back a printed index line gives the version with surrogate pairs joined |
| `VersionLine.TrailingCorrupt` | app/node/src/openclaw_node/backup_store.py:181-234 | A line with anything but white space right after its object is refused as corrupt |
| `VersionLine.LineRoundTrip` | app/node/src/openclaw_node/backup_store.py:181-234 | The version survives exactly when none of its strings holds a split surrogate pair |
| `VersionLine.LinePrintable` | app/node/src/openclaw_node/backup_store.py:181-198 | A line is printable ASCII, so one append adds one line |
| `VersionLine.LineSpelled` | app/node/src/openclaw_node/backup_store.py:181-198 | The line is, character for character, the fields actor, evicted when set, op, prev_sha256, proposal_id, sha256, size and ts in this order, with commas between them and braces around |
| `VersionLine.OpsSpelled` | app/node/src/openclaw_node/backup_store.py:59 | The operation names, against string literals |
| `VersionLine.WholeTowardZero` | app/node/src/openclaw_node/backup_store.py:222-227 | A size that is not whole is cut towards zero |
| `BackupStore.EncodePathInjective` | app/node/src/openclaw_node/backup_store.py:274-295 | Two paths never share an index file |
| `BackupStore.EncodedPlain` | app/node/src/openclaw_node/backup_store.py:274-295 | An encoded name holds letters, digits, hyphens, dots, underscores, tildes and percent signs only, so no slash |
| `BackupStore.EncodeByteSpelled` | app/node/src/openclaw_node/backup_store.py:274-295 | A name character is left alone and any other byte becomes a percent sign and its two upper-case hexadecimal digits |
| `BackupStore.NamedExactly` | app/node/src/openclaw_node/backup_store.py:292-295 | A path has an index file exactly when its encoded name is at most 250 characters, and every path of up to 83 bytes has one |
| `BackupStore.BreaksSpelled` | app/node/src/openclaw_node/backup_store.py:547-565 | The line breaks, against string literals |
| `BackupStore.LogReads` | app/node/src/openclaw_node/backup_store.py:547-565 | The index text of a list reads back as the list |
| `BackupStore.HistoryIsModel` | app/node/src/openclaw_node/backup_store.py:547-565 | History is the abstract list |
| `BackupStore.FetchGivesCaptured` | app/node/src/openclaw_node/backup_store.py:567-583 | Fetching any recorded version gives the captured bytes |
| `BackupStore.CaptureRecords` | app/node/src/openclaw_node/backup_store.py:487-529 | A capture adds one version with the call's metadata and the previous digest at the end, and its digest fetches the bytes |
| `BackupStore.MoveRecords` | app/node/src/openclaw_node/backup_store.py:441-485 | A move puts the source history before the destination's and empties the source |
| `BackupStore.RunRefines` | app/node/src/openclaw_node/backup_store.py:441-583 | In every single-writer run, with a crash possible after every write, the disk represents the abstract map |
| `BackupStore.StoreIsModel` | app/node/src/openclaw_node/backup_store.py:441-583 | From an empty store, at every crash point, histories are the abstract lists and every recorded version names a stored object with its bytes |
| `BackupStore.RunKeepsVersions` | app/node/src/openclaw_node/backup_store.py:441-565 | Whatever the histories on disk list at any point of a run, crashes included, they list at its end at least as often, over any paths that hold all moved ones, when no path is moved onto itself |
| `BackupStore.MoveMerges` | app/node/src/openclaw_node/backup_store.py:464-485 | On disk, a completed move leaves the source versions before the destination's exactly when the paths differ; a path moved onto itself is left without history |
| `BackupStore.EndedKeepsLines` | app/node/src/openclaw_node/backup_store.py:464-485 | Appending to a text that was ended first adds lines and changes none |
| `BackupStore.OverwriteMoveRestores` | app/node/src/openclaw_node/backup_store.py:441-461 | After an overwriting move the newest version at the destination is the destination's own bytes |
| `BackupStore.AtPositionExactly` | app/node/src/openclaw_node/backup_store.py:619-640 | The positions 1 to n select the versions in order, -1 to -n from the newest back, and no other position selects any |
| `BackupStore.Store.Capture` | app/node/src/openclaw_node/backup_store.py:487-529 | Performs exactly the writes of a capture, in order, returns the recorded version, and keeps the disk representing the captured bytes |
| `BackupStore.Store.RenameHistory` | app/node/src/openclaw_node/backup_store.py:441-485 | Performs exactly the writes of a move, reports whether anything moved, and keeps the disk representing the captured bytes |
| `BackupStore.Store.LoadHistory` | app/node/src/openclaw_node/backup_store.py:547-565 | The versions captured for the path, in order |
| `BackupStore.Store.FetchObject` | app/node/src/openclaw_node/backup_store.py:567-583 | For the digest of any recorded version the bytes captured for it; whatever is returned has the digest asked for |
| `RelaySlot.PendingDropsEvents` | app/node/src/openclaw_node/chat_relay.py:1449-1463 | While the ack is pending a tool event changes nothing, and an assistant event changes nothing unless it is terminal and carries the sentinel itself |
| `RelaySlot.InstallExactly` | app/node/src/openclaw_node/chat_relay.py:611-640 | A turn starts behind the sentinel with no evidence, no terminal text, no tools and an empty queue but for the line that tells of a replay on a plain stream |
| `RelaySlot.TeardownExactly` | app/node/src/openclaw_node/chat_relay.py:677-687 | A turn that ends before its ack takes its queue, its sentinel and its evidence with it and nothing else; one that ends later its queue and its tools |
| `ReplyText.ExtractText` | app/node/src/openclaw_node/chat_relay.py:1302-1334 | The reader returns, for every JSON shape, the text the specification gives: a string itself, of a block list the blocks after the last tool block, of an object its first field that holds anything, and no text when a block type cannot be looked up |
| `ReplyText.SpokenList` | app/node/src/openclaw_node/chat_relay.py:1302-1334 | Of a list of blocks, what is said is what the blocks after the last tool block, in any of its ten spellings, say, all of it and in order; only a type that cannot be looked up stops the reader |
| `ReplyText.SpokenShapes` | app/node/src/openclaw_node/chat_relay.py:1302-1334 | A string says itself; an object what the first of its fields content, text and message says that holds something, or nothing; null, false and zero nothing; any other value its own text |
| `JsonModel.TruthyExactly` | app/node/src/openclaw_node/chat_relay.py:1330-1334 | Everything holds something but null, false, zero and what is empty |
| `ReplyText.AfterToolsExactly` | app/node/src/openclaw_node/chat_relay.py:1320-1329 | No tool block follows the text kept, and one directly precedes it unless nothing is left out |
| `RelayRuns.PendingWindowSilent` | app/node/src/openclaw_node/chat_relay.py:1449-1463 | In every run, between the install of a turn and its ack no event is captured, sets the same-run flag or queues a tool frame |
| `RelayRuns.TurnLeavesNothing` | app/node/src/openclaw_node/chat_relay.py:544-700 | However a turn ends, neither queue nor sentinel stays; the run id is the sentinel until the ack and the acked id after; a response to another, answered or finished request changes nothing |
| `RelayRuns.PhasesExactly` | app/node/src/openclaw_node/chat_relay.py:655-837 | Where each step takes the turn's coroutine: when it waits, streams and ends, and how |
| `RelayRuns.RequestsExactly` | app/node/src/openclaw_node/chat_relay.py:1254-1299 | How a turn's request fares: registered from the install to the end of the wait, answered once by the response to it or by a disconnect |
| `RelayRuns.OneAnswer` | app/node/src/openclaw_node/chat_relay.py:560-837 | A turn acked with a run id yields at most one answer, the first terminal text captured, from an event tagged with the run id or an untagged session.message following one; it ends without answer or error only at the deadline |
| `RelayRuns.CapturedIsOwn` | app/node/src/openclaw_node/chat_relay.py:1651-1738 | Every captured event is the turn's own |
| `RelayRuns.HeardExactly` | app/node/src/openclaw_node/chat_relay.py:1651-1766 | Both ways, in every run: an event is heard exactly when there is text, a live queue and an ack, and it is tagged with the acked run or is the untagged transcript after tagged evidence and before any terminal text; a heard final chat event or transcript adds the answer and the close and nothing else adds any; and the same-run flag and the terminal text stand exactly for heard events |
| `RelayRuns.RunStream` | app/node/src/openclaw_node/chat_relay.py:1739-1766 | Answers are queued in the order captured, each directly before its close |
| `RelayRuns.ToolFrames` | app/node/src/openclaw_node/chat_relay.py:1469-1569 | Starts are numbered 1, 2, 3 and so on with no call id twice; an end repeats the start right before it or is nameless, id-less and 0; no positive number ends twice; the sequence guard never rejects |
| `RelayRuns.ToolShownExactly` | app/node/src/openclaw_node/chat_relay.py:1429-1595 | Both ways, in every run: what each tool event adds to the queue, from the frames so far: the next numbered start unless its call has started, the end of the frame it names, a line in plain mode, and nothing for an event that is stale or announces no call |
| `RelayOverlap.NewTurnHeardExactly` | app/node/src/openclaw_node/chat_relay.py:1768-1807 | After a disconnect, a turn begun while its predecessor may still be suspended keeps its queue, until another disconnect, exactly when the predecessor had left before it began or has not left since |
| `RelayOverlap.OldTurnStarvesNew` | app/node/src/openclaw_node/chat_relay.py:827-837 | When the predecessor leaves during the new turn, the new one takes in all only what had reached its queue, whatever follows; it is never answered unless an end was among that, and its deadline ends it only once passed |
| `RelayOverlap.AnswerLost` | app/node/src/openclaw_node/chat_relay.py:827-837 | The terminal message that would have been the new turn's answer then changes nothing |
| `RelayOverlap.ResetLeaves` | app/node/src/openclaw_node/chat_relay.py:1768-1807 | What a disconnect leaves: the session without a turn, and the turn in flight with its queue and a failure on it |
| `RelayOverlap.OldTakesExactly` | app/node/src/openclaw_node/chat_relay.py:716-837 | Taking an item ends the old turn exactly when it is the end or a failure, and only then touches the session |
| `RelayOverlap.OldGivesUpExactly` | app/node/src/openclaw_node/chat_relay.py:660-837 | A turn that waits or streams can give up at any time, and leaves with it |
| `RelayOverlap.OldTurnLeaves` | app/node/src/openclaw_node/chat_relay.py:716-837 | A turn that was streaming takes what it has and leaves at the first end or failure |
| `ChatRelay.EverySession` | app/node/src/openclaw_node/chat_relay.py:544-837 | After any calls on any sessions, each session's acked turn has taken at most one answer, from its own event, its frames are well ordered, and without a turn it has no queue, sentinel or request |
| `ChatRelay.QuietStep` | app/node/src/openclaw_node/chat_relay.py:1365-1766 | A step of one session keeps every session's slot that of a run of its own and the request tables in agreement |
| `ChatRelay.OnlyOwnerResponds` | app/node/src/openclaw_node/chat_relay.py:1254-1299 | A response is felt by the session whose waiting request it names and by no other |
| `ChatRelay.Relay.HandleResponse` | app/node/src/openclaw_node/chat_relay.py:1254-1299 | Only a registered waiting request is answered; the run id is installed at once; every session takes its own response step |
| `ChatRelay.Relay.HandleMessage` | app/node/src/openclaw_node/chat_relay.py:1651-1766 | Filters and queues an assistant event as the session step says, adding the answer and the close exactly when the session's turn must hear it; no other session changes |
| `ChatRelay.Relay.HandleTool` | app/node/src/openclaw_node/chat_relay.py:1429-1595 | Handles a tool event as the session step says, adding exactly what the session's turn must show; no other session changes |
| `ChatRelay.Relay.HandleToolStart` | app/node/src/openclaw_node/chat_relay.py:1469-1529 | A repeated call id is dropped; otherwise the start is recorded and shown |
| `ChatRelay.Relay.HandleToolEnd` | app/node/src/openclaw_node/chat_relay.py:1530-1582 | An end clears the active tool only on a match |
| `ChatRelay.Relay.HandleApproval` | app/node/src/openclaw_node/chat_relay.py:1336-1363 | An approval line reaches only a plain-text stream |
| `ChatRelay.Relay.InstallTurn` | app/node/src/openclaw_node/chat_relay.py:611-658 | Per-turn state starts clean behind the sentinel |
| `ChatRelay.Relay.ReleaseRequest` | app/node/src/openclaw_node/chat_relay.py:677-687 | The request is forgotten and a failed turn is torn down |
| `ChatRelay.Relay.AbandonTurn` | app/node/src/openclaw_node/chat_relay.py:660-687 | A send failure, timeout or cancellation before the ack leaves neither queue, sentinel nor request |
| `ChatRelay.Relay.ResumeTurn` | app/node/src/openclaw_node/chat_relay.py:664-704 | The coroutine resumes on the acked run id, or tears its turn down |
| `ChatRelay.Relay.FinishTurn` | app/node/src/openclaw_node/chat_relay.py:827-837 | The consumer's exit unregisters its queue |
| `ChatRelay.Relay.TakeItem` | app/node/src/openclaw_node/chat_relay.py:716-780 | The consumer takes the queue's head |
| `ChatRelay.Relay.ResetAll` | app/node/src/openclaw_node/chat_relay.py:1768-1807 | A disconnect clears every session and fails every live queue once |
| `ChatRelay.Relay.SetCanonical` | app/node/src/openclaw_node/chat_relay.py:1156-1165 | A raw session key is read as the canonical key remembered for it, and as itself without one |
| `Authz.ForbiddenForRole` | app/node/src/openclaw_node/authz.py:493-520 | The set updates give the defaults, patched, plus what superiors pass down |
| `Authz.InheritedProhibitions` | app/node/src/openclaw_node/authz.py:523-540 | The loop gives exactly the service entries added for more privileged roles |
| `Authz.PrivilegeNeverInverts` | app/node/src/openclaw_node/authz.py:493-591 | When the administrator patches add service entries only, a call allowed to a role is allowed to every more privileged one |
| `Authz.CheckOutcomes` | app/node/src/openclaw_node/effect_policy.py:53-86 | When each refusal is given: the deny class for everyone, approval for an administrator's unclassified service, and only table commands and household services for users |
| `Authz.ServiceCalled` | app/node/src/openclaw_node/authz.py:543-560 | A service call is judged by the text with its domain before the one dot and its service after it, and by none exactly when either is no simple name |
| `Authz.DeniedExactly` | app/node/src/openclaw_node/effect_policy.py:53-86 | A service call is refused by the deny class exactly when the deny class names domain, dot, service |
| `Authz.ServiceDecided` | app/node/src/openclaw_node/effect_policy.py:53-86 | Every service call: the deny class stops everyone; then the set, and its entries by pattern or star, stop everyone but the operator; then a household service goes through; any other needs approval for an administrator and is refused to a user |
| `Authz.UnnamedDecided` | app/node/src/openclaw_node/effect_policy.py:53-86 | A service call without simple names is the operator's alone |
| `Authz.LightIsService` | app/node/src/openclaw_node/authz.py:543-552 | A light command is judged as the service call light.turn_on or light.turn_off it stands for |
| `Authz.PlainDecided` | app/node/src/openclaw_node/effect_policy.py:53-86 | A command that calls no service is refused to a user outside the user table and to all but the operator when the set names it, and allowed otherwise |
| `Authz.UserToAdmin` | app/node/src/openclaw_node/effect_policy.py:53-86 | What a user may call an admin may call |
| `Authz.AdminToSuper` | app/node/src/openclaw_node/effect_policy.py:53-86 | What an admin may call a super admin may call |
| `Authz.SuperToOperator` | app/node/src/openclaw_node/effect_policy.py:53-86 | What a super admin may call an operator may call |
| `Authz.UserAllowsExactly` | app/node/src/openclaw_node/effect_policy.py:53-86 | A user may make exactly the calls of the user table that the forbidden set does not name and whose service is clear |
| `Authz.AdminAllowsExactly` | app/node/src/openclaw_node/effect_policy.py:53-86 | An administrator may make exactly the calls the forbidden set does not name and whose service, if any, is clear |
| `Authz.UserOutranksAdminExactly` | app/node/src/openclaw_node/authz.py:493-591 | For any configuration and any command: what a user may call and an admin may not is exactly the user-table commands named in the admin set and not in the user set whose service is clear for users |
| `Authz.AdminOutranksSuperExactly` | app/node/src/openclaw_node/authz.py:493-591 | For any configuration and any command: what an admin may call and a super admin may not is exactly the commands named in the super admin's set and not in the admin's whose service is clear for admins |
| `Authz.PlainOrderExact` | app/node/src/openclaw_node/authz.py:493-520 | On the configuration alone, for commands that call no service: when users never outrank admins and when admins never outrank super admins, both if and only if |
| `Authz.AdminPatchInverts` | app/node/src/openclaw_node/authz.py:503-513 | An admin patch adding any user-table command refuses it to admins while users keep it, a service-bearing one when its service is clear for users |
| `Authz.SuperPatchInverts` | app/node/src/openclaw_node/authz.py:503-513 | A super admin patch adding a command admins may call refuses it to super admins while admins keep it |
| `Authz.ServicesPassDown` | app/node/src/openclaw_node/authz.py:523-540 | Service entries added for a role bind the less privileged ones |
| `Authz.UserTablesDisjoint` | app/node/src/openclaw_node/authz.py:265-329 | No command is both open and closed to household users |
| `Authz.GatedCommandsClosed` | app/node/src/openclaw_node/authz.py:265-329 | Users are refused exactly the gated commands and four more; the commands closed to administrators are the gated file commands and system.run |
| `MarkerScrub.ScrubIsClean` | app/node/src/openclaw_node/authz.py:617-632 | After one left-to-right pass no match of the phrase is left, for any text |
| `MarkerScrub.ScrubKeepsRest` | app/node/src/openclaw_node/authz.py:622-632 | Everything outside the matches survives, in order: the output is the pieces the matches cut the text into, each as it was, with the replacement between them |
| `MarkerScrub.PhraseSpelled` | app/node/src/openclaw_node/authz.py:617-619 | A match is the three words in either case with white space between them, all of it |
| `MarkerScrub.MessageSpelled` | app/node/src/openclaw_node/authz.py:622-632 | The message is the disclaimer, an empty line and the scrubbed text |
| `MarkerScrub.PhraseOnlyInDisclaimer` | app/node/src/openclaw_node/authz.py:622-632 | In the message sent the phrase can stand only inside the disclaimer |
| `MarkerScrub.PhrasePlain` | app/node/src/openclaw_node/authz.py:617-619 | No match of the phrase holds a bracket |
| `ParamsShape.CheckParamsShape` | app/node/src/openclaw_node/gateway_ws.py:263-283 | The stack walk accepts exactly values that nest at most 64 objects and arrays deep and hold at most 4096 members and items, and names a bound that is broken |
| `GlobWalk.GlobMatchesExact` | app/node/src/openclaw_node/commands/fs.py:496-510 | A path matches exactly when some number of leading ** components can be dropped so that the rest matches |
| `GlobWalk.StarsSpelled` | app/node/src/openclaw_node/commands/fs.py:506 | A pattern starts with stars when it starts with two stars and a slash |
| `GlobWalk.FoundExactly` | app/node/src/openclaw_node/commands/fs.py:528-549 | The recursion finds exactly the matching paths that lead to an entry and, unless hidden entries are asked for, have no component that starts with a dot |
| `GlobWalk.PathIsJoined` | app/node/src/openclaw_node/commands/fs.py:534-535 | A path is its components with slashes between them |
| `GlobWalk.FoundOnce` | app/node/src/openclaw_node/commands/fs.py:528-549 | No path is found twice |
| `GlobWalk.IterMatches` | app/node/src/openclaw_node/commands/fs.py:513-559 | The stack walk returns the sorted matches of plain recursion when there are at most the cap, is truncated exactly when there are more, and closes every descriptor exactly once |

## Left out

- Sockets, HTTP handlers, Home Assistant and Supervisor clients, the conversation entity and the wording of logs and messages: input and output.
- SHA-256 is a function parameter, injective where a result needs it; `fnmatch`, the service deny class and the household service table are parameters, so the results hold for every choice; the clock, random ids, the pre-flight refusals and the unsafe-integer scan are inputs.
- A float is its shortest decimal; how Python and JavaScript find that decimal is not part of this model.
- Python dicts are sequences of members in insertion order with distinct keys; the model's printer is defined on repeated keys too.
- The text after the hook's tool call is JSON that arrives unchanged at the node; the gateway in between is not part of this model.
- ChatRelay.Relay: all dictionaries keyed by session are one dictionary of slots, and a queue object is its content; request ids are fresh.
- ChatRelay.Relay.InstallTurn: requires that no turn is in flight on the session, which the source does not ensure after a disconnect: `reset` drops the turn locks, so a new turn can begin while the old one is suspended. RelayOverlap has that case, with one turn left over, on the state of the session and not on the object.
- JsonTransport.ReadsWhatWasWritten: a numeral with a zero fraction, which neither side writes, would be read as an integer.
- ApprovalHook.AdminMarkerAccepted: finding the node by its name and the answer of the gateway are not modelled.
- RelayRuns.OneAnswer: does not model `relay_turn`, and assumes the gateway never sends the sentinel as a run id; acks without a run id are steps of every run, but the provenance of an answer is stated for turns whose ack carried one, because the relay then accepts untagged events by design.
- The cadence and text of keepalives, the spacing of plain-text progress lines and their repeat counter: they do not touch answers or frames.
- `active_caller`, `_record_ended` and the ended-turn table: lookups that would only add easy members.
- ApprovalsWriter.EveryCommitIsCompareAndSwap: assumes one stable lock file and a readable policy file, and leaves fsync, file modes and the swapping of the lock file out.
- `_resolve_policy`, `_validate_argv`, `_validate_cwd` and `_validate_env`: shape checks.
- BackupStore.RunRefines: an append and a replace are each atomic, as the source relies on; torn writes, eviction, `diff`, `meta.json` and the selectors of `resolve_version` other than a position are not modelled.
- VersionLine.LineReadsBack: `FromJson` reads lines without inner spaces and treats a field of another JSON type as corrupt, where the source would convert it with `str`; the store itself never writes such lines.
- BackupStore.EncodePathInjective: paths are their UTF-8 bytes, and the constant `.jsonl` suffix is dropped.
- Authz.PrivilegeNeverInverts: premises are that the administrator patches add service entries only and that no built-in admin pattern matches a household service; `Authz.UserOutranksAdminExactly` and `Authz.AdminOutranksSuperExactly` need no premise on the patches. The two service parameters arrive already trimmed.
- MarkerScrub.PhraseOnlyInDisclaimer: takes the disclaimer as given, ending with its closing bracket; its wording is not modelled.
- ReplyText.ExtractText: Python's `str` of a value that is no string is a parameter; the fallbacks of `handle_event` to other payload fields when the text is empty are not modelled.
- GlobWalk.IterMatches: a directory that cannot be opened is a leaf, and the tree does not change during the walk.
- `redact_code`, `scrub_codes`, actor signatures, pairing, bootstrap, vision and the tool descriptors: smaller state, easier than the parts chosen.
