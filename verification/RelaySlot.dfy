/** What the relay keeps for one canonical session key (chat_relay.py), and how each
    frame from the gateway changes it. */
module RelaySlot {
  import opened Text

  /** A run id as a string: empty, the pending-ack sentinel, or any other. */
  datatype Tag = Untagged | Pending | RunId(id: Str)

  datatype Family = ChatFamily | SessionMessage

  /** An assistant event with its extracted text; `final` when its state is `final` or absent. */
  datatype Message = Message(family: Family, tag: Tag, final: bool, text: Str)

  predicate Terminal(m: Message) {
    m.family == SessionMessage || m.final
  }

  /** What a turn's queue holds. An answer carries the event it came from and a frame
      the call id its start was deduplicated by; Status is any progress line. */
  datatype Item =
    | Status
    | Answer(message: Message)
    | Close
    | Failure
    | Frame(start: bool, name: Str, id: Str, number: nat, call: Str)

  /** The relay's dictionaries at one key; an absent entry is the default its reader
      supplies. `queue` is the content of the turn's queue, which outlives `listening`. */
  datatype Slot = Slot(
    activeRun: Tag,
    seen: bool,
    terminal: Str,
    listening: bool,
    queue: seq<Item>,
    useFrames: bool,
    toolSeq: nat,
    toolName: Str,
    toolId: Str,
    activeSeq: nat,
    started: set<Str>)

  const Empty: Slot := Slot(Untagged, false, [], false, [], false, 0, [], [], 0, {})

  function Push(s: Slot, items: seq<Item>): Slot {
    if s.listening then s.(queue := s.queue + items) else s
  }

  // ---------------------------------------------------------------------------
  // The turn's own steps

  /** Step 1 of `_stream_turn_locked`. */
  function Install(s: Slot, useFrames: bool, replay: bool): Slot {
    Slot(Pending, false, [], true, if replay && !useFrames then [Status] else [], useFrames, 0, [], [], 0, {})
  }

  /** `_cleanup_pending_turn` of a streaming turn. */
  function Cleanup(s: Slot): Slot {
    s.(listening := false, activeRun := if s.activeRun == Pending then Untagged else s.activeRun, seen := false)
  }

  /** The `finally` of the consumer loop. */
  function Finish(s: Slot): Slot {
    s.(listening := false, useFrames := false, toolSeq := 0, toolId := [], activeSeq := 0, started := {})
  }

  /** `reset` after a disconnect. */
  function Reset(s: Slot): Slot {
    Empty.(queue := if s.listening then s.queue + [Failure] else s.queue)
  }

  /** The run id a successful chat.send ack installs. */
  function Ack(s: Slot, runId: Tag): Slot {
    if runId != Untagged then s.(activeRun := runId)
    else if s.activeRun == Pending then s.(activeRun := Untagged)
    else s
  }

  /** A turn starts with nothing of the one before: the sentinel, an empty queue but for
      the line that tells of a replay, and no tools. */
  lemma InstallExactly(s: Slot, useFrames: bool, replay: bool)
    ensures var t := Install(s, useFrames, replay);
            && t.activeRun == Pending && !t.seen && t.terminal == [] && t.listening && t.useFrames == useFrames
            && t.queue == (if useFrames || !replay then [] else [Status])
            && t.toolSeq == t.activeSeq == 0 && t.toolName == [] && t.toolId == [] && t.started == {}
  {}

  /** A turn that ends before its ack takes its queue, its sentinel and its evidence with it
      and nothing else; one that ends later its queue and its tools. */
  lemma TeardownExactly(s: Slot)
    ensures Cleanup(s) == s.(listening := false, seen := false,
                             activeRun := if s.activeRun.Pending? then Untagged else s.activeRun)
    ensures var t := Finish(s);
            && !t.listening && !t.useFrames && t.toolSeq == t.activeSeq == 0 && t.toolId == [] && t.started == {}
            && t.activeRun == s.activeRun && t.seen == s.seen && t.terminal == s.terminal && t.queue == s.queue
            && t.toolName == s.toolName
  {}

  // ---------------------------------------------------------------------------
  // Events

  function Approval(s: Slot): Slot {
    if s.useFrames then s else Push(s, [Status])
  }

  predicate Stale(s: Slot, m: Message) {
    s.activeRun != Untagged &&
    ( || (m.tag != Untagged && m.tag != s.activeRun)
      || (m.family == ChatFamily && m.tag == Untagged)
      || (s.activeRun == Pending && m.tag == Untagged)
      || (m.family == SessionMessage && m.tag == Untagged && s.terminal != [])
      || (m.family == SessionMessage && m.tag == Untagged && s.activeRun != Pending && s.listening && !s.seen))
  }

  predicate Captures(s: Slot, m: Message) {
    m.text != [] && s.listening && !Stale(s, m)
  }

  /** The assistant half of `handle_event`. */
  function Hear(s: Slot, m: Message): Slot {
    if !Captures(s, m) then s
    else
      var heard := s.(seen := s.seen || (m.tag != Untagged && m.tag == s.activeRun && s.activeRun != Pending));
      if Terminal(m) then Push(heard, [Answer(m), Close]).(terminal := m.text) else heard
  }

  datatype Phase = Start | End | Error | Other

  /** A tool event; `name` is its name, or its title on the item stream, without the MCP prefix. */
  datatype ToolEvent = ToolEvent(
    itemStream: bool,
    kindTool: bool,
    tag: Tag,
    phase: Phase,
    name: Str,
    callId: Str,
    id: Str,
    itemId: Str)

  function FirstNonEmpty(a: Str, b: Str, c: Str): Str {
    if a != [] then a else if b != [] then b else c
  }

  function ToolId(e: ToolEvent): Str {
    FirstNonEmpty(e.id, e.callId, e.itemId)
  }

  const TOOL_PREFIX: Str := Name("tool:")

  function RemovePrefix(s: Str, prefix: Str): Str {
    if prefix <= s then s[|prefix|..] else s
  }

  /** The id both announcements of one call share. */
  function CallOf(e: ToolEvent): Str {
    RemovePrefix(FirstNonEmpty(e.callId, e.id, e.itemId), TOOL_PREFIX)
  }

  predicate ToolStale(s: Slot, e: ToolEvent) {
    && s.activeRun != Untagged
    && (s.activeRun == Pending || (e.tag != Untagged && e.tag != s.activeRun) || (e.tag == Untagged && !s.seen))
  }

  function ToolStart(s: Slot, name: Str, id: Str, call: Str): Slot {
    if call != [] && call in s.started then s
    else
      var s1 := s.(started := if call != [] then s.started + {call} else s.started, toolName := name);
      if s.useFrames then
        Push(s1, [Frame(true, name, id, s.toolSeq + 1, call)])
          .(toolSeq := s.toolSeq + 1, toolId := id, activeSeq := s.toolSeq + 1)
      else Push(s1, [Status])
  }

  /** The sequence guard on an end event. */
  predicate SeqGuard(s: Slot) {
    s.toolSeq >= s.activeSeq
  }

  predicate EndMatches(s: Slot, name: Str, id: Str) {
    || (id != [] && id == s.toolId)
    || (id == [] && s.toolId == [] && (name == [] || name == s.toolName))
  }

  function ToolEnd(s: Slot, name: Str, id: Str): Slot {
    if !s.useFrames then Push(s, [Status]).(toolName := [])
    else if EndMatches(s, name, id) && SeqGuard(s) then
      Push(s, [Frame(false, if s.toolName != [] then s.toolName else name, s.toolId, s.activeSeq, [])])
        .(toolName := [], toolId := [], activeSeq := 0)
    else s
  }

  /** The tool half of `handle_event`. */
  function Tool(s: Slot, e: ToolEvent): Slot {
    if (e.itemStream && !e.kindTool && e.callId == []) || ToolStale(s, e) then s
    else if e.phase == Start && e.name != [] then ToolStart(s, e.name, ToolId(e), CallOf(e))
    else if e.phase == End then ToolEnd(s, e.name, ToolId(e))
    else if e.phase == Error && !s.useFrames then Push(s, [Status]).(toolName := [])
    else s
  }

  /** While the ack is pending no event changes anything, unless an assistant event
      carries the sentinel itself as its run id. */
  lemma PendingDropsEvents(s: Slot, m: Message, e: ToolEvent)
    requires s.activeRun == Pending && s.listening
    ensures Hear(s, m) == s <==> !(m.tag == Pending && m.text != [] && Terminal(m))
    ensures Tool(s, e) == s
  {
    if m.tag == Pending && m.text != [] && Terminal(m) {
      assert |Hear(s, m).queue| == |s.queue| + 2;
    }
  }
}
