/** Whole runs of streaming turns on one session: the coroutine, the relay and the
    gateway interleaved one atomic step at a time. */
module RelayRuns {
  import opened Text
  import opened RelaySlot

  datatype Ending = Answered | DeadlinePassed | Raised | Cancelled

  datatype Progress = Idle | AwaitAck | Streaming | Ended(how: Ending)

  datatype Future = Waiting | Acked(runId: Tag) | Refused

  /** The slot, the turn's own variables, and the record of what it took from its
      queue and which events it captured. */
  datatype State = State(
    slot: Slot,
    at: Progress,
    request: Str,
    registered: bool,
    future: Future,
    taken: seq<Item>,
    heard: seq<Message>,
    clock: int,
    deadline: int)

  datatype Action =
    | Begin(request: Str, deadline: int, useFrames: bool, replay: bool)
    | Respond(request: Str, ok: bool, runId: Tag)
    | Resume
    | Expire
    | SendFails
    | Cancel
    | Event(message: Message)
    | ToolCall(event: ToolEvent)
    | ApprovalNotice
    | Take
    | Disconnect
    | Tick(now: int)

  function Initial(): State {
    State(Empty, Idle, [], false, Waiting, [], [], 0, 0)
  }

  predicate InFlight(s: State) {
    s.at == AwaitAck || s.at == Streaming
  }

  /** The ack wait fails: the request is forgotten and the slot torn down. */
  function Abandon(s: State, how: Ending): State {
    s.(slot := Cleanup(s.slot), registered := false, at := Ended(how))
  }

  function Leave(s: State, how: Ending): State {
    s.(slot := Finish(s.slot), at := Ended(how))
  }

  /** `handle_response`: only a registered request that is still waiting is answered. */
  function Responded(s: State, request: Str, ok: bool, runId: Tag): State {
    if !s.registered || s.request != request || s.future != Waiting then s
    else if ok then s.(slot := Ack(s.slot, runId), future := Acked(runId))
    else s.(future := Refused)
  }

  function Resumed(s: State): State {
    if s.at != AwaitAck || s.future == Waiting then s
    else if s.future == Refused then Abandon(s, Raised)
    else s.(slot := s.slot.(activeRun := s.future.runId), registered := false, at := Streaming)
  }

  /** The consumer takes the head of its queue. */
  function Taken(s: State): State {
    if s.at != Streaming || s.slot.queue == [] then s
    else
      var item := s.slot.queue[0];
      var s1 := s.(slot := s.slot.(queue := s.slot.queue[1..]), taken := s.taken + [item]);
      if item == Close then Leave(s1, Answered)
      else if item == Failure then Leave(s1, Raised)
      else s1
  }

  function Step(s: State, a: Action): State {
    match a
    case Begin(request, deadline, useFrames, replay) =>
      if InFlight(s) then s
      else State(Install(s.slot, useFrames, replay), AwaitAck, request, true, Waiting, [], [], s.clock, deadline)
    case Respond(request, ok, runId) => Responded(s, request, ok, runId)
    case Resume => Resumed(s)
    case Expire =>
      if s.clock < s.deadline then s
      else if s.at == AwaitAck then Abandon(s, Raised)
      else if s.at == Streaming then Leave(s, DeadlinePassed)
      else s
    case SendFails => if s.at == AwaitAck then Abandon(s, Raised) else s
    case Cancel =>
      if s.at == AwaitAck then Abandon(s, Cancelled)
      else if s.at == Streaming then Leave(s, Cancelled)
      else s
    case Event(m) =>
      s.(slot := Hear(s.slot, m), heard := if Captures(s.slot, m) then s.heard + [m] else s.heard)
    case ToolCall(e) => s.(slot := Tool(s.slot, e))
    case ApprovalNotice => s.(slot := Approval(s.slot))
    case Take => Taken(s)
    case Disconnect =>
      s.(slot := Reset(s.slot), registered := false,
         future := if s.registered && s.future == Waiting then Refused else s.future)
    case Tick(now) => if now > s.clock then s.(clock := now) else s
  }

  /** Where each step takes the turn: the phases of its coroutine. */
  lemma PhasesExactly(s: State, a: Action)
    ensures Step(s, a).at
         == match a
            case Begin(_, _, _, _) => if InFlight(s) then s.at else AwaitAck
            case Resume =>
              if s.at != AwaitAck || s.future == Waiting then s.at
              else if s.future == Refused then Ended(Raised) else Streaming
            case Expire =>
              if s.clock >= s.deadline && s.at == AwaitAck then Ended(Raised)
              else if s.clock >= s.deadline && s.at == Streaming then Ended(DeadlinePassed)
              else s.at
            case SendFails => if s.at == AwaitAck then Ended(Raised) else s.at
            case Cancel => if s.at == AwaitAck || s.at == Streaming then Ended(Cancelled) else s.at
            case Take =>
              if s.at == Streaming && s.slot.queue != [] && s.slot.queue[0] == Close then Ended(Answered)
              else if s.at == Streaming && s.slot.queue != [] && s.slot.queue[0] == Failure then Ended(Raised)
              else s.at
            case _ => s.at
  {}

  /** How the turn's request fares: registered from the install to the end of the wait, and
      answered once, by the response to it or by a disconnect. */
  lemma RequestsExactly(s: State, a: Action)
    ensures var s' := Step(s, a);
            && s'.future == (match a
                             case Begin(_, _, _, _) => if InFlight(s) then s.future else Waiting
                             case Respond(request, ok, runId) =>
                               if s.registered && s.request == request && s.future == Waiting
                               then if ok then Acked(runId) else Refused
                               else s.future
                             case Disconnect => if s.registered && s.future == Waiting then Refused else s.future
                             case _ => s.future)
            && (s'.at != s.at && s.at == AwaitAck ==> !s'.registered)
            && (a.Disconnect? ==> !s'.registered)
            && (a.Begin? && !InFlight(s) ==> s'.registered && s'.request == a.request && s'.deadline == a.deadline)
            && (a.Tick? && a.now > s.clock ==> s'.clock == a.now)
  {}

  /** The gateway never uses the sentinel as a run id. */
  predicate Genuine(a: Action) {
    (a.Respond? ==> a.runId != Pending) && (a.Event? ==> a.message.tag != Pending)
  }

  function Run(actions: seq<Action>): State {
    if actions == [] then Initial() else Step(Run(actions[..|actions| - 1]), actions[|actions| - 1])
  }

  predicate AllGenuine(actions: seq<Action>) {
    forall i :: 0 <= i < |actions| ==> Genuine(actions[i])
  }

  /** Some run leads to the state. */
  ghost predicate Reachable(s: State) {
    exists actions: seq<Action> :: AllGenuine(actions) && Run(actions) == s
  }

  lemma InitialReachable()
    ensures Reachable(Initial())
  {
    assert AllGenuine([]) && Run([]) == Initial();
  }

  lemma StepReachable(s: State, a: Action)
    requires Reachable(s) && Genuine(a)
    ensures Reachable(Step(s, a))
  {
    var actions: seq<Action> :| AllGenuine(actions) && Run(actions) == s;
    var longer := actions + [a];
    assert longer[..|actions|] == actions && longer[|longer| - 1] == a;
    assert AllGenuine(longer);
    assert Run(longer) == Step(s, a);
  }

  // ---------------------------------------------------------------------------
  // Who listens when

  predicate Lifecycle(s: State) {
    && (s.slot.listening ==> InFlight(s) && s.slot.activeRun == (if s.future.Acked? then s.future.runId else Pending))
    && (s.slot.activeRun == Pending ==> s.at == AwaitAck && s.slot.listening && !s.future.Acked?)
    && (s.at == Streaming ==> s.future.Acked?)
    && (s.future.Acked? ==> s.future.runId != Pending)
    && (s.registered ==> s.at == AwaitAck)
    && (s.at == AwaitAck && s.future == Waiting ==> s.registered && s.slot.listening)
    && (forall how :: s.at == Ended(how) && how == DeadlinePassed ==> s.clock >= s.deadline)
  }

  lemma HearKeepsControl(s: Slot, m: Message)
    ensures Hear(s, m).listening == s.listening && Hear(s, m).activeRun == s.activeRun
    ensures Hear(s, m).useFrames == s.useFrames
  {}

  lemma ToolKeepsControl(s: Slot, e: ToolEvent)
    ensures Tool(s, e).listening == s.listening && Tool(s, e).activeRun == s.activeRun
    ensures Tool(s, e).useFrames == s.useFrames
    ensures Tool(s, e).seen == s.seen && Tool(s, e).terminal == s.terminal
  {}

  lemma LifecycleKept(s: State, a: Action)
    requires Lifecycle(s) && Genuine(a)
    ensures Lifecycle(Step(s, a))
  {
    if a.Event? {
      HearKeepsControl(s.slot, a.message);
    } else if a.ToolCall? {
      ToolKeepsControl(s.slot, a.event);
    }
  }

  lemma {:induction false} RunLifecycle(actions: seq<Action>)
    requires AllGenuine(actions)
    ensures Lifecycle(Run(actions))
  {
    if actions != [] {
      RunLifecycle(actions[..|actions| - 1]);
      LifecycleKept(Run(actions[..|actions| - 1]), actions[|actions| - 1]);
    }
  }

  /** However a turn ends (answer, deadline, send failure, refusal, cancellation or
      disconnect), neither its queue, nor the sentinel, nor its request stays behind,
      and no response can change anything any more. While it runs, the run id is the
      sentinel until the ack and the acked id after it. */
  lemma TurnLeavesNothing(actions: seq<Action>, request: Str, ok: bool, runId: Tag)
    requires AllGenuine(actions)
    ensures var s := Run(actions);
            && (!InFlight(s) ==> !s.slot.listening && s.slot.activeRun != Pending)
            && (!InFlight(s) ==> Step(s, Respond(request, ok, runId)) == s)
            && (s.slot.listening ==> s.slot.activeRun == (if s.future.Acked? then s.future.runId else Pending))
            && (s.request != request || s.future != Waiting ==> Step(s, Respond(request, ok, runId)) == s)
  {
    RunLifecycle(actions);
  }

  // ---------------------------------------------------------------------------
  // The stream

  /** Everything the turn's queue ever held, in order. */
  function Stream(s: State): seq<Item> {
    s.taken + s.slot.queue
  }

  function AnswersOf(items: seq<Item>): seq<Message> {
    if items == [] then []
    else
      AnswersOf(items[..|items| - 1]) + AnswerIn(items[|items| - 1])
  }

  function AnswerIn(item: Item): seq<Message> {
    if item.Answer? then [item.message] else []
  }

  function TerminalsOf(heard: seq<Message>): seq<Message> {
    if heard == [] then []
    else
      var last := heard[|heard| - 1];
      TerminalsOf(heard[..|heard| - 1]) + if Terminal(last) then [last] else []
  }

  predicate Plain(items: seq<Item>) {
    forall i :: 0 <= i < |items| ==> !items[i].Answer? && !items[i].Close?
  }

  /** Each answer is directly followed by the close that ends the iterator. */
  predicate Paired(items: seq<Item>) {
    && (forall i :: 0 <= i < |items| && items[i].Answer? ==> i + 1 < |items| && items[i + 1].Close?)
    && (forall i :: 0 <= i < |items| && items[i].Close? ==> 0 < i && items[i - 1].Answer?)
  }

  predicate Stops(item: Item) {
    item.Close? || item.Failure?
  }

  predicate TakenInvariant(s: State) {
    && (forall i :: 0 <= i < |s.taken| - 1 ==> !Stops(s.taken[i]))
    && (InFlight(s) ==> forall i :: 0 <= i < |s.taken| ==> !Stops(s.taken[i]))
    && (s.at == Ended(Answered) ==> s.taken != [] && s.taken[|s.taken| - 1].Close?)
  }

  predicate StreamInvariant(s: State) {
    && AnswersOf(Stream(s)) == TerminalsOf(s.heard)
    && Paired(Stream(s))
    && TakenInvariant(s)
  }

  lemma {:induction false} AnswersConcat(a: seq<Item>, b: seq<Item>)
    ensures AnswersOf(a + b) == AnswersOf(a) + AnswersOf(b)
  {
    if b == [] {
      assert a + b == a;
    } else {
      var n := |b| - 1;
      AnswersConcat(a, b[..n]);
      FrontOfConcat(a, b);
      Assoc(AnswersOf(a), AnswersOf(b[..n]), AnswerIn(b[n]));
    }
  }

  lemma {:induction false} PlainAnswers(items: seq<Item>)
    requires Plain(items)
    ensures AnswersOf(items) == []
  {
    if items != [] {
      PlainAnswers(items[..|items| - 1]);
    }
  }

  lemma PlainAppended(all: seq<Item>, items: seq<Item>)
    requires Paired(all) && Plain(items)
    ensures Paired(all + items) && AnswersOf(all + items) == AnswersOf(all)
  {
    AnswersConcat(all, items);
    PlainAnswers(items);
    var longer := all + items;
    forall i | 0 <= i < |longer| && longer[i].Answer?
      ensures i + 1 < |longer| && longer[i + 1].Close?
    {
      assert longer[i] == all[i] && longer[i + 1] == all[i + 1];
    }
    forall i | 0 <= i < |longer| && longer[i].Close?
      ensures 0 < i && longer[i - 1].Answer?
    {
      assert longer[i] == all[i] && longer[i - 1] == all[i - 1];
    }
  }

  lemma AnswerAppended(all: seq<Item>, m: Message)
    requires Paired(all)
    ensures Paired(all + [Answer(m), Close]) && AnswersOf(all + [Answer(m), Close]) == AnswersOf(all) + [m]
  {
    var pair := [Answer(m), Close];
    AnswersConcat(all, pair);
    AnswersOfPair(m);
    var longer := all + pair;
    forall i | 0 <= i < |longer| && longer[i].Answer?
      ensures i + 1 < |longer| && longer[i + 1].Close?
    {
      if i < |all| {
        assert longer[i] == all[i] && longer[i + 1] == all[i + 1];
      }
    }
    forall i | 0 <= i < |longer| && longer[i].Close?
      ensures 0 < i && longer[i - 1].Answer?
    {
      if i < |all| {
        assert longer[i] == all[i] && longer[i - 1] == all[i - 1];
      }
    }
  }

  lemma AnswersOfPair(m: Message)
    ensures AnswersOf([Answer(m), Close]) == [m]
  {
    var one := [Answer(m)];
    assert [Answer(m), Close][..1] == one;
    assert one[..0] == [];
    assert AnswersOf(one) == [m];
  }

  /** What a frame from the gateway adds to the queue besides answers. */
  ghost predicate Pushes(s: Slot, s': Slot, items: seq<Item>) {
    s'.queue == s.queue + items && Plain(items) && !(exists i :: 0 <= i < |items| && items[i].Failure?)
  }

  lemma ToolPushes(s: Slot, e: ToolEvent) returns (items: seq<Item>)
    ensures Pushes(s, Tool(s, e), items)
  {
    var s' := Tool(s, e);
    items := s'.queue[|s.queue|..];
  }

  lemma PlainPushKeeps(s: State, s': State, items: seq<Item>)
    requires StreamInvariant(s) && s'.taken == s.taken && s'.heard == s.heard && s'.at == s.at
    requires s'.slot.queue == s.slot.queue + items && Plain(items)
    ensures StreamInvariant(s')
  {
    PlainAppended(Stream(s), items);
    Assoc(s.taken, s.slot.queue, items);
    assert Stream(s') == Stream(s) + items;
  }

  lemma EventKeepsStream(s: State, m: Message)
    requires StreamInvariant(s)
    ensures StreamInvariant(Step(s, Event(m)))
  {
    var s' := Step(s, Event(m));
    if Captures(s.slot, m) {
      assert s'.heard[..|s'.heard| - 1] == s.heard;
      if Terminal(m) {
        var pair := [Answer(m), Close];
        AnswerAppended(Stream(s), m);
        Assoc(s.taken, s.slot.queue, pair);
        assert Stream(s') == Stream(s) + pair;
      } else {
        assert TerminalsOf(s'.heard) == TerminalsOf(s.heard) + [];
      }
    }
  }

  lemma TakeKeepsItems(s: State)
    ensures Stream(Step(s, Take)) == Stream(s) && Step(s, Take).heard == s.heard
  {
    if s.at == Streaming && s.slot.queue != [] {
      var item := s.slot.queue[0];
      assert s.slot.queue == [item] + s.slot.queue[1..];
      Assoc(s.taken, [item], s.slot.queue[1..]);
    }
  }

  lemma TakeKeepsTaken(s: State)
    requires TakenInvariant(s)
    ensures TakenInvariant(Step(s, Take))
  {
    var s' := Step(s, Take);
    if s.at == Streaming && s.slot.queue != [] {
      var n := |s.taken|;
      assert s'.taken[n] == s.slot.queue[0];
      assert forall i :: 0 <= i < n ==> s'.taken[i] == s.taken[i];
    }
  }

  lemma TakeKeepsStream(s: State)
    requires StreamInvariant(s)
    ensures StreamInvariant(Step(s, Take))
  {
    TakeKeepsItems(s);
    TakeKeepsTaken(s);
  }

  lemma BeginKeepsStream(s: State, a: Action)
    requires StreamInvariant(s) && a.Begin?
    ensures StreamInvariant(Step(s, a))
  {
    var s' := Step(s, a);
    if !InFlight(s) {
      PlainAnswers(Stream(s'));
    }
  }

  lemma ControlKeepsItems(s: State, a: Action)
    requires a.Respond? || a.Resume? || a.Expire? || a.SendFails? || a.Cancel? || a.Tick?
    ensures var s' := Step(s, a);
            && s'.taken == s.taken && s'.heard == s.heard && s'.slot.queue == s.slot.queue
            && (InFlight(s') ==> InFlight(s)) && (s'.at == Ended(Answered) ==> s.at == Ended(Answered))
  {}

  /** Steps that end a turn or answer its request leave its items alone. */
  lemma ControlKeepsStream(s: State, a: Action)
    requires StreamInvariant(s)
    requires a.Respond? || a.Resume? || a.Expire? || a.SendFails? || a.Cancel? || a.Tick?
    ensures StreamInvariant(Step(s, a))
  {
    ControlKeepsItems(s, a);
    SameStream(s, Step(s, a));
  }

  lemma SameStream(s: State, s': State)
    requires StreamInvariant(s) && s'.taken == s.taken && s'.heard == s.heard && s'.slot.queue == s.slot.queue
    requires (InFlight(s') ==> InFlight(s)) && (s'.at == Ended(Answered) ==> s.at == Ended(Answered))
    ensures StreamInvariant(s')
  {
    assert Stream(s') == Stream(s);
  }

  lemma StreamKept(s: State, a: Action)
    requires StreamInvariant(s)
    ensures StreamInvariant(Step(s, a))
  {
    match a
    case Begin(_, _, _, _) => BeginKeepsStream(s, a);
    case Event(m) => EventKeepsStream(s, m);
    case Take => TakeKeepsStream(s);
    case ToolCall(e) =>
      var items := ToolPushes(s.slot, e);
      PlainPushKeeps(s, Step(s, a), items);
    case ApprovalNotice =>
      PlainPushKeeps(s, Step(s, a), if s.slot.listening && !s.slot.useFrames then [Status] else []);
    case Disconnect =>
      PlainPushKeeps(s, Step(s, a), if s.slot.listening then [Failure] else []);
    case _ => ControlKeepsStream(s, a);
  }

  lemma {:induction false} RunStream(actions: seq<Action>)
    ensures StreamInvariant(Run(actions))
  {
    if actions != [] {
      RunStream(actions[..|actions| - 1]);
      StreamKept(Run(actions[..|actions| - 1]), actions[|actions| - 1]);
    }
  }

  // ---------------------------------------------------------------------------
  // Where captured events come from

  predicate TaggedBefore(heard: seq<Message>, k: int, tag: Tag) {
    exists j :: 0 <= j < k && j < |heard| && heard[j].tag == tag
  }

  predicate NoTerminalBefore(heard: seq<Message>, k: int) {
    forall j :: 0 <= j < k && j < |heard| ==> !Terminal(heard[j])
  }

  /** The event carries the turn's run id, or is the untagged transcript message that
      follows tagged evidence and precedes any terminal text. */
  predicate OwnEvent(heard: seq<Message>, k: int, run: Tag)
    requires 0 <= k < |heard|
  {
    || heard[k].tag == run
    || ( && heard[k].family == SessionMessage && heard[k].tag == Untagged
         && TaggedBefore(heard, k, run) && NoTerminalBefore(heard, k))
  }

  predicate Evidence(s: State) {
    && (!s.future.Acked? ==> s.heard == [])
    && (s.slot.listening && !s.future.Acked? ==> !s.slot.seen && s.slot.terminal == [])
    && (s.future.Acked? && s.future.runId != Untagged ==>
          && (forall k :: 0 <= k < |s.heard| ==> OwnEvent(s.heard, k, s.future.runId))
          && (s.slot.listening ==> (s.slot.seen <==> TaggedBefore(s.heard, |s.heard|, s.future.runId)))
          && (s.slot.listening ==> (s.slot.terminal == [] <==> NoTerminalBefore(s.heard, |s.heard|))))
  }

  lemma OwnEventKept(heard: seq<Message>, m: Message, k: int, run: Tag)
    requires 0 <= k < |heard| && OwnEvent(heard, k, run)
    ensures OwnEvent(heard + [m], k, run)
  {
    var longer := heard + [m];
    assert forall j :: 0 <= j < |heard| ==> longer[j] == heard[j];
    if TaggedBefore(heard, k, run) {
      var j :| 0 <= j < k && j < |heard| && heard[j].tag == run;
      assert longer[j].tag == run;
    }
  }

  /** A captured event is the turn's own. */
  lemma CapturedIsOwn(s: State, m: Message)
    requires Lifecycle(s) && Evidence(s) && Captures(s.slot, m) && m.tag != Pending
    requires s.future.Acked? && s.future.runId != Untagged
    ensures OwnEvent(s.heard + [m], |s.heard|, s.future.runId)
  {
    var longer := s.heard + [m];
    assert longer[|s.heard|] == m;
    assert forall j :: 0 <= j < |s.heard| ==> longer[j] == s.heard[j];
    if m.tag != s.future.runId {
      assert s.slot.seen && s.slot.terminal == [];
      var j :| 0 <= j < |s.heard| && s.heard[j].tag == s.future.runId;
      assert longer[j].tag == s.future.runId;
    }
  }

  lemma EventKeepsEvidence(s: State, m: Message)
    requires Lifecycle(s) && Evidence(s) && m.tag != Pending
    ensures Evidence(Step(s, Event(m)))
  {
    var s' := Step(s, Event(m));
    if Captures(s.slot, m) {
      assert s.future.Acked?;
      var longer := s.heard + [m];
      assert longer[|s.heard|] == m;
      assert forall j :: 0 <= j < |s.heard| ==> longer[j] == s.heard[j];
      if s.future.runId != Untagged {
        CapturedIsOwn(s, m);
        forall k | 0 <= k < |longer|
          ensures OwnEvent(longer, k, s.future.runId)
        {
          if k < |s.heard| {
            OwnEventKept(s.heard, m, k, s.future.runId);
          }
        }
        SeenIsTagged(s, m);
        TerminalIsHeard(s, m);
      }
    }
  }

  lemma {:induction false} TaggedMore(heard: seq<Message>, m: Message, tag: Tag)
    ensures TaggedBefore(heard + [m], |heard| + 1, tag) <==> TaggedBefore(heard, |heard|, tag) || m.tag == tag
    ensures NoTerminalBefore(heard + [m], |heard| + 1) <==> NoTerminalBefore(heard, |heard|) && !Terminal(m)
  {
    var longer := heard + [m];
    assert longer[|heard|] == m && forall j :: 0 <= j < |heard| ==> longer[j] == heard[j];
  }

  lemma SeenIsTagged(s: State, m: Message)
    requires Lifecycle(s) && Evidence(s) && Captures(s.slot, m) && m.tag != Pending
    requires s.future.Acked? && s.future.runId != Untagged
    ensures Hear(s.slot, m).seen <==> TaggedBefore(s.heard + [m], |s.heard| + 1, s.future.runId)
  {
    TaggedMore(s.heard, m, s.future.runId);
  }

  lemma TerminalIsHeard(s: State, m: Message)
    requires Lifecycle(s) && Evidence(s) && Captures(s.slot, m)
    requires s.future.Acked? && s.future.runId != Untagged
    ensures Hear(s.slot, m).terminal == [] <==> NoTerminalBefore(s.heard + [m], |s.heard| + 1)
  {
    TaggedMore(s.heard, m, s.future.runId);
  }

  lemma EvidenceKept(s: State, a: Action)
    requires Lifecycle(s) && Evidence(s) && Genuine(a)
    ensures Evidence(Step(s, a))
  {
    match a
    case Event(m) => EventKeepsEvidence(s, m);
    case ToolCall(e) => ToolKeepsControl(s.slot, e);
    case _ => OthersKeepEvidence(s, a);
  }

  lemma OthersKeepEvidence(s: State, a: Action)
    requires Lifecycle(s) && Evidence(s) && Genuine(a) && !a.Event? && !a.ToolCall?
    ensures Evidence(Step(s, a))
  {
    var s' := Step(s, a);
    assert a.Begin? || s'.heard == s.heard;
  }

  lemma {:induction false} RunEvidence(actions: seq<Action>)
    requires AllGenuine(actions)
    ensures Evidence(Run(actions))
  {
    if actions != [] {
      RunEvidence(actions[..|actions| - 1]);
      RunLifecycle(actions[..|actions| - 1]);
      EvidenceKept(Run(actions[..|actions| - 1]), actions[|actions| - 1]);
    }
  }

  /** The event is one the turn must hear: there is text and a live queue, the ack has
      come, and the event is the turn's own, or the ack named no run. */
  predicate MustHear(s: State, m: Message) {
    && m.text != [] && s.slot.listening && s.future.Acked?
    && (s.future.runId == Untagged || OwnEvent(s.heard + [m], |s.heard|, s.future.runId))
  }

  lemma HearsOwn(s: State, m: Message)
    requires Lifecycle(s) && Evidence(s) && m.tag != Pending
    ensures Captures(s.slot, m) <==> MustHear(s, m)
  {
    var longer, n := s.heard + [m], |s.heard|;
    assert longer[n] == m && forall j :: 0 <= j < n ==> longer[j] == s.heard[j];
    if s.future.Acked? {
      BeforeOnly(s.heard, m, s.future.runId);
      if s.future.runId != Untagged && Captures(s.slot, m) {
        CapturedIsOwn(s, m);
      }
    }
  }

  lemma BeforeOnly(heard: seq<Message>, m: Message, tag: Tag)
    ensures TaggedBefore(heard + [m], |heard|, tag) <==> TaggedBefore(heard, |heard|, tag)
    ensures NoTerminalBefore(heard + [m], |heard|) <==> NoTerminalBefore(heard, |heard|)
  {
    var longer := heard + [m];
    assert forall j :: 0 <= j < |heard| ==> longer[j] == heard[j];
  }

  /** What an event adds to the queue. */
  function AnswersDue(s: State, m: Message): seq<Item> {
    if MustHear(s, m) && (m.family == SessionMessage || m.final) then [Answer(m), Close] else []
  }

  lemma AnswersAdded(s: State, m: Message)
    requires Lifecycle(s) && Evidence(s) && m.tag != Pending
    ensures Hear(s.slot, m).queue == s.slot.queue + AnswersDue(s, m)
  {
    HearsOwn(s, m);
  }

  /** Main result, both ways, over every run: an event is heard exactly when the turn must
      hear it; a final chat event or a transcript message then puts the answer and the end
      on the queue and nothing else does; and the turn has evidence of its own run, and a
      terminal text, exactly when it has heard some. */
  lemma HeardExactly(actions: seq<Action>, m: Message)
    requires AllGenuine(actions) && m.tag != Pending
    ensures var s := Run(actions);
            var s' := Step(s, Event(m));
            && s'.slot.queue == s.slot.queue + AnswersDue(s, m)
            && s'.heard == (if MustHear(s, m) then s.heard + [m] else s.heard)
            && (s'.slot.listening && s'.future.Acked? && s'.future.runId.RunId? ==>
                  && (s'.slot.seen <==> exists k :: 0 <= k < |s'.heard| && s'.heard[k].tag == s'.future.runId)
                  && (s'.slot.terminal != [] <==>
                        exists k :: 0 <= k < |s'.heard| && (s'.heard[k].family == SessionMessage || s'.heard[k].final)))
  {
    var s := Run(actions);
    RunLifecycle(actions);
    RunEvidence(actions);
    AnswersAdded(s, m);
    HearsOwn(s, m);
    EventKeepsEvidence(s, m);
  }

  // ---------------------------------------------------------------------------
  // Between install and ack

  /** Until its ack the turn has captured nothing, seen no event of its own, and queued
      nothing but status lines and the failure of a disconnect. */
  predicate Silent(s: State) {
    s.at == AwaitAck && !s.future.Acked? ==>
      && s.heard == [] && s.taken == [] && !s.slot.seen && s.slot.terminal == []
      && (s.slot.listening ==> s.slot.activeRun == Pending)
      && forall i :: 0 <= i < |s.slot.queue| ==> s.slot.queue[i].Status? || s.slot.queue[i].Failure?
  }

  lemma DeafToolKeeps(s: Slot, e: ToolEvent)
    requires !s.listening || s.activeRun == Pending
    ensures Tool(s, e).queue == s.queue
    ensures s.activeRun == Pending ==> Tool(s, e) == s
  {}

  lemma SilentKept(s: State, a: Action)
    requires Lifecycle(s) && Silent(s) && Genuine(a)
    ensures Silent(Step(s, a))
  {
    if a.ToolCall? {
      ToolKeepsControl(s.slot, a.event);
      if s.at == AwaitAck && !s.future.Acked? {
        DeafToolKeeps(s.slot, a.event);
      }
    }
  }

  /** Main result on the pending window, over runs: no event is captured, sets the
      same-run flag or queues a tool frame between the install of a turn and its ack. */
  lemma {:induction false} PendingWindowSilent(actions: seq<Action>)
    requires AllGenuine(actions)
    ensures Silent(Run(actions))
  {
    if actions != [] {
      PendingWindowSilent(actions[..|actions| - 1]);
      RunLifecycle(actions[..|actions| - 1]);
      SilentKept(Run(actions[..|actions| - 1]), actions[|actions| - 1]);
    }
  }

  // ---------------------------------------------------------------------------
  // The answer

  /** The last thing taken, or the last before the close. */
  predicate FinalAnswer(s: State, i: int) {
    i == |s.taken| - 1 || (0 <= i == |s.taken| - 2 && s.taken[i + 1].Close?)
  }

  lemma AnswerTakenLast(s: State, i: nat)
    requires StreamInvariant(s) && i < |s.taken| && s.taken[i].Answer?
    ensures FinalAnswer(s, i)
  {
    assert Stream(s)[i] == s.taken[i];
    if i + 1 < |s.taken| {
      assert Stream(s)[i + 1] == s.taken[i + 1];
    }
  }

  lemma {:induction false} FirstTerminal(heard: seq<Message>) returns (k: nat)
    requires TerminalsOf(heard) != []
    ensures k < |heard| && heard[k] == TerminalsOf(heard)[0] && Terminal(heard[k]) && NoTerminalBefore(heard, k)
  {
    var n := |heard| - 1;
    if TerminalsOf(heard[..n]) == [] {
      NoTerminals(heard[..n]);
      k := n;
      forall j | 0 <= j < k
        ensures !Terminal(heard[j])
      {
        assert heard[..n][j] == heard[j];
      }
    } else {
      k := FirstTerminal(heard[..n]);
      forall j | 0 <= j < k
        ensures !Terminal(heard[j])
      {
        assert heard[..n][j] == heard[j];
      }
    }
  }

  lemma {:induction false} NoTerminals(heard: seq<Message>)
    requires TerminalsOf(heard) == []
    ensures NoTerminalBefore(heard, |heard|)
  {
    if heard != [] {
      var n := |heard| - 1;
      NoTerminals(heard[..n]);
      forall j | 0 <= j < |heard|
        ensures !Terminal(heard[j])
      {
        assert j < n ==> heard[..n][j] == heard[j];
      }
    }
  }

  /** The taken answer is the first one ever queued. */
  lemma PlainBeforeAnswer(s: State, i: nat)
    requires StreamInvariant(s) && i < |s.taken| && s.taken[i].Answer?
    ensures Plain(s.taken[..i])
  {
    forall j | 0 <= j < i
      ensures !s.taken[j].Answer? && !s.taken[j].Close?
    {
      if s.taken[j].Answer? {
        AnswerTakenLast(s, j);
      }
    }
  }

  lemma TakenAnswerIsFirst(s: State, i: nat)
    requires StreamInvariant(s) && i < |s.taken| && s.taken[i].Answer?
    ensures TerminalsOf(s.heard) != [] && TerminalsOf(s.heard)[0] == s.taken[i].message
  {
    PlainBeforeAnswer(s, i);
    assert Stream(s)[..i] == s.taken[..i];
    FirstAnswerAt(Stream(s), i);
  }

  lemma {:induction false} FirstAnswerAt(items: seq<Item>, i: nat)
    requires i < |items| && items[i].Answer? && Plain(items[..i])
    ensures AnswersOf(items) != [] && AnswersOf(items)[0] == items[i].message
  {
    var front := items[..|items| - 1];
    if i == |front| {
      PlainAnswers(front);
    } else {
      assert front[..i] == items[..i];
      FirstAnswerAt(front, i);
    }
  }

  /** Main result: in every run, a turn acked with run id `run` takes at most one
      answer and nothing after it but the close. The answer is the first terminal
      text captured for the turn, from an event tagged `run` or from an untagged
      session.message that follows one. The iterator ends without an answer and
      without an error only at the deadline. */
  lemma OneAnswer(actions: seq<Action>, run: Tag)
    requires AllGenuine(actions) && run.RunId? && Run(actions).future == Acked(run)
    ensures var s := Run(actions);
            && (forall i :: 0 <= i < |s.taken| && s.taken[i].Answer? ==>
                  FinalAnswer(s, i) && AnswerSource(s, s.taken[i].message, run))
            && (s.at == Ended(Answered) ==> |s.taken| >= 2 && s.taken[|s.taken| - 2].Answer?)
            && (s.at == Ended(DeadlinePassed) ==> s.clock >= s.deadline)
  {
    var s := Run(actions);
    RunLifecycle(actions);
    RunStream(actions);
    RunEvidence(actions);
    TakenAnswers(s, run);
    if s.at == Ended(Answered) {
      ClosedAfterAnswer(s);
    }
  }

  lemma TakenAnswers(s: State, run: Tag)
    requires StreamInvariant(s) && Evidence(s) && s.future == Acked(run) && run.RunId?
    ensures forall i :: 0 <= i < |s.taken| && s.taken[i].Answer? ==>
              FinalAnswer(s, i) && AnswerSource(s, s.taken[i].message, run)
  {
    forall i | 0 <= i < |s.taken| && s.taken[i].Answer?
      ensures FinalAnswer(s, i) && AnswerSource(s, s.taken[i].message, run)
    {
      AnswerTakenLast(s, i);
      TakenAnswerSource(s, i, run);
    }
  }

  /** The message is the turn's first terminal text and comes from its own event. */
  predicate AnswerSource(s: State, m: Message, run: Tag) {
    Terminal(m) &&
    exists k :: 0 <= k < |s.heard| && s.heard[k] == m && NoTerminalBefore(s.heard, k) && OwnEvent(s.heard, k, run)
  }

  lemma TakenAnswerSource(s: State, i: nat, run: Tag)
    requires StreamInvariant(s) && Evidence(s) && s.future == Acked(run) && run.RunId?
    requires i < |s.taken| && s.taken[i].Answer?
    ensures AnswerSource(s, s.taken[i].message, run)
  {
    TakenAnswerIsFirst(s, i);
    var k := FirstTerminal(s.heard);
    assert OwnEvent(s.heard, k, run);
  }

  lemma ClosedAfterAnswer(s: State)
    requires StreamInvariant(s) && s.at == Ended(Answered)
    ensures |s.taken| >= 2 && s.taken[|s.taken| - 2].Answer?
  {
    var n := |s.taken| - 1;
    assert Stream(s)[n] == s.taken[n];
    assert 0 < n && Stream(s)[n - 1] == s.taken[n - 1];
  }

  // ---------------------------------------------------------------------------
  // Tool frames

  type Frames = fs: seq<Item> | forall i :: 0 <= i < |fs| ==> fs[i].Frame? witness []

  function FramesOf(items: seq<Item>): Frames {
    if items == [] then [] else FramesOf(items[..|items| - 1]) + FrameIn(items[|items| - 1])
  }

  function FrameIn(item: Item): Frames {
    if item.Frame? then [item] else []
  }

  function Starts(fs: Frames): nat {
    if fs == [] then 0 else Starts(fs[..|fs| - 1]) + if fs[|fs| - 1].start then 1 else 0
  }

  function Calls(fs: Frames): set<Str> {
    if fs == [] then {} else Calls(fs[..|fs| - 1]) + if fs[|fs| - 1].start then {fs[|fs| - 1].call} else {}
  }

  /** The index of the start frame still open, or -1. */
  function Open(fs: Frames): int {
    if fs != [] && fs[|fs| - 1].start then |fs| - 1 else -1
  }

  /** What one more frame must be after these. */
  predicate Follows(fs: Frames, f: Item)
    requires f.Frame?
  {
    if f.start then f.number == Starts(fs) + 1 && (f.call != [] ==> f.call !in Calls(fs))
    else if Open(fs) == -1 then f.name == [] && f.id == [] && f.number == 0
    else var o := fs[Open(fs)]; f.name == o.name && f.id == o.id && f.number == o.number
  }

  predicate WellFramed(fs: Frames) {
    fs == [] || (WellFramed(fs[..|fs| - 1]) && Follows(fs[..|fs| - 1], fs[|fs| - 1]))
  }

  /** The tool dictionaries describe the frames sent so far. */
  predicate Tracks(s: Slot, fs: Frames) {
    if !s.useFrames then fs == []
    else
      && s.toolSeq == Starts(fs)
      && Calls(fs) - {[]} == s.started
      && if Open(fs) == -1 then s.toolName == [] && s.toolId == [] && s.activeSeq == 0
         else var o := fs[Open(fs)]; s.toolName == o.name && s.toolId == o.id && s.activeSeq == o.number && o.name != []
  }

  predicate FrameInvariant(s: State) {
    && WellFramed(FramesOf(Stream(s)))
    && (s.slot.listening ==> Tracks(s.slot, FramesOf(Stream(s))))
    && SeqGuard(s.slot)
  }

  lemma {:induction false} FramesConcat(a: seq<Item>, b: seq<Item>)
    ensures FramesOf(a + b) == FramesOf(a) + FramesOf(b)
  {
    if b == [] {
      assert a + b == a;
    } else {
      var n := |b| - 1;
      FramesConcat(a, b[..n]);
      FrontOfConcat(a, b);
      Assoc(FramesOf(a), FramesOf(b[..n]), FrameIn(b[n]));
    }
  }

  lemma FramesOfOne(item: Item)
    ensures FramesOf([item]) == FrameIn(item)
  {
    assert [item][..0] == [];
  }

  lemma FramesOfPair(m: Message)
    ensures FramesOf([Answer(m), Close]) == []
  {
    FramesOfOne(Answer(m));
    assert [Answer(m), Close][..1] == [Answer(m)];
  }

  lemma StartTracked(s: Slot, fs: Frames, name: Str, id: Str, call: Str)
    requires s.listening && s.useFrames && Tracks(s, fs) && name != [] && !(call != [] && call in s.started)
    ensures var f := Frame(true, name, id, s.toolSeq + 1, call);
            && Follows(fs, f) && Tracks(ToolStart(s, name, id, call), fs + [f])
            && ToolStart(s, name, id, call).queue == s.queue + [f]
  {
    var f := Frame(true, name, id, s.toolSeq + 1, call);
    var longer: Frames := fs + [f];
    assert longer[..|fs|] == fs && longer[|fs|] == f;
  }

  lemma EndTracked(s: Slot, fs: Frames, name: Str, id: Str)
    requires s.listening && s.useFrames && Tracks(s, fs) && EndMatches(s, name, id) && SeqGuard(s)
    ensures var f := Frame(false, if s.toolName != [] then s.toolName else name, s.toolId, s.activeSeq, []);
            Follows(fs, f) && Tracks(ToolEnd(s, name, id), fs + [f]) && ToolEnd(s, name, id).queue == s.queue + [f]
  {
    var f := Frame(false, if s.toolName != [] then s.toolName else name, s.toolId, s.activeSeq, []);
    var longer: Frames := fs + [f];
    assert longer[..|fs|] == fs && longer[|fs|] == f;
  }

  /** The items a tool event pushes, and the record they leave. */
  ghost predicate Adds(s: Slot, s': Slot, fs: Frames, items: seq<Item>) {
    && s'.queue == s.queue + items && SeqGuard(s') && |items| <= 1
    && (items != [] && items[0].Frame? ==> Follows(fs, items[0]))
    && Tracks(s', fs + FramesOf(items))
  }

  lemma NothingAdded(s: Slot, s': Slot, fs: Frames, items: seq<Item>)
    requires Tracks(s', fs) && SeqGuard(s') && s'.queue == s.queue + items && (items == [] || items == [Status])
    ensures Adds(s, s', fs, items)
  {
    FramesOfOne(Status);
    assert fs + [] == fs;
  }

  lemma OneAdded(s: Slot, s': Slot, fs: Frames, f: Item)
    requires f.Frame? && Follows(fs, f) && Tracks(s', fs + [f]) && s'.queue == s.queue + [f]
    requires SeqGuard(s')
    ensures Adds(s, s', fs, [f])
  {
    FramesOfOne(f);
  }

  lemma ToolStartAdds(s: Slot, fs: Frames, name: Str, id: Str, call: Str) returns (items: seq<Item>)
    requires s.listening && Tracks(s, fs) && SeqGuard(s) && name != []
    ensures Adds(s, ToolStart(s, name, id, call), fs, items)
  {
    var s' := ToolStart(s, name, id, call);
    if call != [] && call in s.started {
      items := [];
      NothingAdded(s, s', fs, items);
    } else if s.useFrames {
      var f := Frame(true, name, id, s.toolSeq + 1, call);
      StartTracked(s, fs, name, id, call);
      OneAdded(s, s', fs, f);
      items := [f];
    } else {
      items := [Status];
      NothingAdded(s, s', fs, items);
    }
  }

  lemma ToolEndAdds(s: Slot, fs: Frames, name: Str, id: Str) returns (items: seq<Item>)
    requires s.listening && Tracks(s, fs) && SeqGuard(s)
    ensures Adds(s, ToolEnd(s, name, id), fs, items)
  {
    var s' := ToolEnd(s, name, id);
    if !s.useFrames {
      items := [Status];
      NothingAdded(s, s', fs, items);
    } else if EndMatches(s, name, id) {
      var f := Frame(false, if s.toolName != [] then s.toolName else name, s.toolId, s.activeSeq, []);
      EndTracked(s, fs, name, id);
      OneAdded(s, s', fs, f);
      items := [f];
    } else {
      items := [];
      NothingAdded(s, s', fs, items);
    }
  }

  /** A tool event adds at most one frame, and it is the one that must come next. */
  lemma ToolTracked(s: Slot, fs: Frames, e: ToolEvent) returns (items: seq<Item>)
    requires s.listening && Tracks(s, fs) && SeqGuard(s)
    ensures Adds(s, Tool(s, e), fs, items)
  {
    if (e.itemStream && !e.kindTool && e.callId == []) || ToolStale(s, e) {
      items := [];
      NothingAdded(s, s, fs, items);
    } else if e.phase == Start && e.name != [] {
      items := ToolStartAdds(s, fs, e.name, ToolId(e), CallOf(e));
    } else if e.phase == End {
      items := ToolEndAdds(s, fs, e.name, ToolId(e));
    } else {
      items := if e.phase == Error && !s.useFrames then [Status] else [];
      NothingAdded(s, Tool(s, e), fs, items);
    }
  }

  lemma WellFramedMore(fs: Frames, f: Item)
    requires WellFramed(fs) && f.Frame? && Follows(fs, f)
    ensures WellFramed(fs + [f])
  {
    assert (fs + [f])[..|fs|] == fs;
  }

  lemma FrameAdded(fs: Frames, items: seq<Item>)
    requires WellFramed(fs) && |items| <= 1 && (items != [] && items[0].Frame? ==> Follows(fs, items[0]))
    ensures WellFramed(fs + FramesOf(items))
  {
    if items == [] {
      assert fs + [] == fs;
    } else {
      assert items == [items[0]];
      FramesOfOne(items[0]);
      if items[0].Frame? {
        WellFramedMore(fs, items[0]);
      } else {
        assert fs + [] == fs;
      }
    }
  }

  lemma StreamExtends(s: State, s': State, items: seq<Item>)
    requires s'.taken == s.taken && s'.slot.queue == s.slot.queue + items
    ensures FramesOf(Stream(s')) == FramesOf(Stream(s)) + FramesOf(items)
  {
    Assoc(s.taken, s.slot.queue, items);
    FramesConcat(Stream(s), items);
  }

  lemma ToolKeepsFrames(s: State, e: ToolEvent)
    requires FrameInvariant(s)
    ensures FrameInvariant(Step(s, ToolCall(e)))
  {
    var s' := Step(s, ToolCall(e));
    if s.slot.listening {
      var fs := FramesOf(Stream(s));
      var items := ToolTracked(s.slot, fs, e);
      StreamExtends(s, s', items);
      FrameAdded(fs, items);
    } else {
      QuietTool(s.slot, e);
    }
  }

  lemma QuietTool(s: Slot, e: ToolEvent)
    requires !s.listening && SeqGuard(s)
    ensures Tool(s, e).queue == s.queue && SeqGuard(Tool(s, e)) && !Tool(s, e).listening
  {}

  /** Items without frames leave the tool record alone. */
  lemma NoFramePushKeeps(s: State, s': State, items: seq<Item>)
    requires FrameInvariant(s) && s'.taken == s.taken && FramesOf(items) == []
    requires s'.slot.queue == s.slot.queue + items
    requires SeqGuard(s'.slot)
    requires s'.slot.listening ==> s.slot.listening && SameTools(s.slot, s'.slot)
    ensures FrameInvariant(s')
  {
    StreamExtends(s, s', items);
    assert FramesOf(Stream(s)) + [] == FramesOf(Stream(s));
  }

  predicate SameTools(a: Slot, b: Slot) {
    && a.useFrames == b.useFrames && a.toolSeq == b.toolSeq && a.toolName == b.toolName
    && a.toolId == b.toolId && a.activeSeq == b.activeSeq && a.started == b.started
  }

  lemma BeginKeepsFrames(s: State, a: Action)
    requires FrameInvariant(s) && a.Begin?
    ensures FrameInvariant(Step(s, a))
  {
    if !InFlight(s) {
      var s' := Step(s, a);
      assert Stream(s') == s'.slot.queue;
      FramesOfOne(Status);
      assert FramesOf(Stream(s')) == [];
    }
  }

  lemma EventKeepsFrames(s: State, m: Message)
    requires FrameInvariant(s)
    ensures FrameInvariant(Step(s, Event(m)))
  {
    FramesOfPair(m);
    NoFramePushKeeps(s, Step(s, Event(m)), if Captures(s.slot, m) && Terminal(m) then [Answer(m), Close] else []);
  }

  lemma StatusKeepsFrames(s: State, a: Action)
    requires FrameInvariant(s) && (a.ApprovalNotice? || a.Disconnect?)
    ensures FrameInvariant(Step(s, a))
  {
    FramesOfOne(Status);
    FramesOfOne(Failure);
    var item := if a.ApprovalNotice? then Status else Failure;
    var pushed := s.slot.listening && (a.Disconnect? || !s.slot.useFrames);
    NoFramePushKeeps(s, Step(s, a), if pushed then [item] else []);
  }

  lemma ControlKeepsSlot(s: State, a: Action)
    requires SeqGuard(s.slot)
    requires a.Respond? || a.Resume? || a.Expire? || a.SendFails? || a.Cancel? || a.Tick?
    ensures var s' := Step(s, a);
            && s'.taken == s.taken && s'.slot.queue == s.slot.queue && SeqGuard(s'.slot)
            && (s'.slot.listening ==> s.slot.listening && SameTools(s.slot, s'.slot))
  {}

  lemma ControlKeepsFrames(s: State, a: Action)
    requires FrameInvariant(s)
    requires a.Respond? || a.Resume? || a.Expire? || a.SendFails? || a.Cancel? || a.Tick?
    ensures FrameInvariant(Step(s, a))
  {
    var s' := Step(s, a);
    ControlKeepsSlot(s, a);
    assert s'.slot.queue == s.slot.queue + [];
    NoFramePushKeeps(s, s', []);
  }

  lemma FramesKept(s: State, a: Action)
    requires FrameInvariant(s)
    ensures FrameInvariant(Step(s, a))
  {
    match a
    case Begin(_, _, _, _) => BeginKeepsFrames(s, a);
    case ToolCall(e) => ToolKeepsFrames(s, e);
    case Event(m) => EventKeepsFrames(s, m);
    case ApprovalNotice => StatusKeepsFrames(s, a);
    case Disconnect => StatusKeepsFrames(s, a);
    case Take => TakeKeepsFrames(s);
    case _ => ControlKeepsFrames(s, a);
  }

  lemma TakeKeepsSlot(s: State)
    requires SeqGuard(s.slot)
    ensures var s' := Step(s, Take);
            SeqGuard(s'.slot) && (s'.slot.listening ==> s.slot.listening && SameTools(s.slot, s'.slot))
  {}

  lemma TakeKeepsFrames(s: State)
    requires FrameInvariant(s)
    ensures FrameInvariant(Step(s, Take))
  {
    var s' := Step(s, Take);
    TakeKeepsItems(s);
    TakeKeepsSlot(s);
    SameStreamSameFrames(s, s');
  }

  lemma SameStreamSameFrames(s: State, s': State)
    requires FrameInvariant(s) && Stream(s') == Stream(s) && SeqGuard(s'.slot)
    requires s'.slot.listening ==> s.slot.listening && SameTools(s.slot, s'.slot)
    ensures FrameInvariant(s')
  {}

  lemma {:induction false} RunFrames(actions: seq<Action>)
    ensures FrameInvariant(Run(actions))
  {
    if actions != [] {
      RunFrames(actions[..|actions| - 1]);
      FramesKept(Run(actions[..|actions| - 1]), actions[|actions| - 1]);
    }
  }

  lemma {:induction false} FrameAt(fs: Frames, i: nat)
    requires WellFramed(fs) && i < |fs|
    ensures WellFramed(fs[..i]) && Follows(fs[..i], fs[i])
  {
    var n := |fs| - 1;
    if i < n {
      FrameAt(fs[..n], i);
      assert fs[..n][..i] == fs[..i] && fs[..n][i] == fs[i];
    }
  }

  lemma {:induction false} StartNumbers(fs: Frames, i: nat)
    requires WellFramed(fs) && i < |fs| && fs[i].start
    ensures 1 <= fs[i].number <= Starts(fs) && (fs[i].call != [] ==> fs[i].call in Calls(fs))
  {
    var n := |fs| - 1;
    if i < n {
      assert fs[..n][i] == fs[i];
      StartNumbers(fs[..n], i);
    }
  }

  predicate FramesInOrder(fs: Frames, i: nat, j: nat)
    requires i < j < |fs|
  {
    && (fs[i].start && fs[j].start ==> fs[i].number < fs[j].number && (fs[i].call != [] ==> fs[i].call != fs[j].call))
    && (fs[j].start ==> fs[j].number == Starts(fs[..j]) + 1)
    && (!fs[j].start && fs[j - 1].start ==>
          fs[j].number == fs[j - 1].number > 0 && fs[j].name == fs[j - 1].name && fs[j].id == fs[j - 1].id)
    && (!fs[j].start && !fs[j - 1].start ==> fs[j].number == 0 && fs[j].name == [] && fs[j].id == [])
    && (!fs[i].start && !fs[j].start && fs[i].number > 0 ==> fs[i].number != fs[j].number)
  }

  lemma WellFramedInOrder(fs: Frames, i: nat, j: nat)
    requires WellFramed(fs) && i < j < |fs|
    ensures FramesInOrder(fs, i, j)
  {
    FrameAt(fs, j);
    assert fs[..j][j - 1] == fs[j - 1] && fs[..j][i] == fs[i];
    if fs[i].start {
      StartNumbers(fs[..j], i);
    }
    if fs[j - 1].start {
      StartNumbers(fs[..j], j - 1);
    }
    if !fs[i].start && !fs[j].start && fs[i].number > 0 {
      EndsDiffer(fs, i, j);
    }
  }

  /** Main result on tool frames, for the frames queued so far in any run: starts are
      numbered 1, 2, 3 and so on; no nonempty call id starts twice; an end with a positive
      number directly follows the start it names, with its name and id; any other
      end is nameless, id-less and numbered 0; no positive number ends twice; and the
      sequence guard always holds. */
  lemma ToolFrames(actions: seq<Action>)
    ensures var fs := FramesOf(Stream(Run(actions)));
            && SeqGuard(Run(actions).slot)
            && (fs != [] ==> Follows([], fs[0]))
            && (forall i, j :: 0 <= i < j < |fs| ==> FramesInOrder(fs, i, j))
  {
    RunFrames(actions);
    var fs := FramesOf(Stream(Run(actions)));
    if fs != [] {
      FrameAt(fs, 0);
      assert fs[..0] == [];
    }
    forall i, j | 0 <= i < j < |fs|
      ensures FramesInOrder(fs, i, j)
    {
      WellFramedInOrder(fs, i, j);
    }
  }

  // ---------------------------------------------------------------------------
  // What every tool event adds

  /** The tool event is one the turn must show: it has a live queue and its ack, the event
      announces a tool call, and it carries the acked run or none after evidence of it; an
      ack without a run lets every event through. */
  predicate MustShow(s: State, e: ToolEvent) {
    && s.slot.listening && s.future.Acked? && (e.itemStream ==> e.kindTool || e.callId != [])
    && (|| s.future.runId == Untagged || e.tag == s.future.runId
        || (e.tag == Untagged && TaggedBefore(s.heard, |s.heard|, s.future.runId)))
  }

  /** The id a frame shows. */
  function ShownId(e: ToolEvent): Str {
    if e.id != [] then e.id else if e.callId != [] then e.callId else e.itemId
  }

  /** The id a start is known by on both streams. */
  function KnownBy(e: ToolEvent): Str {
    var raw := if e.callId != [] then e.callId else if e.id != [] then e.id else e.itemId;
    if Name("tool:") <= raw then raw[5..] else raw
  }

  /** An end names the open start by id, or by name or by nothing when neither has an id. */
  predicate Closes(e: ToolEvent, name: Str, id: Str) {
    if ShownId(e) != [] then ShownId(e) == id else id == [] && (e.name == [] || e.name == name)
  }

  /** What the event must add to a turn that shows frames, given the frames so far: a start
      with the next number unless its call has started; the end of the frame it closes. */
  function FramesDue(fs: Frames, e: ToolEvent): seq<Item> {
    if e.phase == Start then
      if e.name == [] || (KnownBy(e) != [] && KnownBy(e) in Calls(fs)) then []
      else [Frame(true, e.name, ShownId(e), Starts(fs) + 1, KnownBy(e))]
    else if e.phase == End then
      if Open(fs) == -1 then if Closes(e, [], []) then [Frame(false, [], [], 0, [])] else []
      else
        var o := fs[Open(fs)];
        if Closes(e, o.name, o.id) then [Frame(false, o.name, o.id, o.number, [])] else []
    else []
  }

  /** What it must add to a turn that shows plain lines, given the calls started so far. */
  function LinesDue(started: set<Str>, e: ToolEvent): seq<Item> {
    if e.phase == End || e.phase == Error then [Status]
    else if e.phase == Start && e.name != [] && (KnownBy(e) == [] || KnownBy(e) !in started) then [Status]
    else []
  }

  lemma KnownIds(e: ToolEvent)
    ensures ToolId(e) == ShownId(e) && CallOf(e) == KnownBy(e)
  {
    assert |Name("tool:")| == 5;
  }

  lemma ShowsOwn(s: State, e: ToolEvent)
    requires Lifecycle(s) && Evidence(s) && s.slot.listening
    ensures MustShow(s, e) <==> !(e.itemStream && !e.kindTool && e.callId == []) && !ToolStale(s.slot, e)
  {}

  lemma FramesAdded(s: Slot, fs: Frames, e: ToolEvent)
    requires s.listening && s.useFrames && Tracks(s, fs) && SeqGuard(s)
    requires !(e.itemStream && !e.kindTool && e.callId == []) && !ToolStale(s, e)
    ensures Tool(s, e).queue == s.queue + FramesDue(fs, e)
  {
    KnownIds(e);
    assert KnownBy(e) != [] ==> (KnownBy(e) in Calls(fs) <==> KnownBy(e) in s.started);
  }

  lemma LinesAdded(s: Slot, e: ToolEvent)
    requires s.listening && !s.useFrames
    requires !(e.itemStream && !e.kindTool && e.callId == []) && !ToolStale(s, e)
    ensures Tool(s, e).queue == s.queue + LinesDue(s.started, e)
  {
    KnownIds(e);
  }

  lemma StartsNoted(s: Slot, e: ToolEvent)
    requires s.listening && !(e.itemStream && !e.kindTool && e.callId == []) && !ToolStale(s, e)
    ensures Tool(s, e).started
         == s.started + if e.phase == Start && e.name != [] && KnownBy(e) != [] then {KnownBy(e)} else {}
  {
    KnownIds(e);
  }

  /** What a tool event adds to the queue. */
  function ItemsDue(s: State, e: ToolEvent): seq<Item> {
    if !MustShow(s, e) then []
    else if s.slot.useFrames then FramesDue(FramesOf(Stream(s)), e)
    else LinesDue(s.slot.started, e)
  }

  lemma ItemsAdded(s: State, e: ToolEvent)
    requires Lifecycle(s) && Evidence(s) && FrameInvariant(s)
    ensures Tool(s.slot, e).queue == s.slot.queue + ItemsDue(s, e)
  {
    if s.slot.listening {
      ShowsOwn(s, e);
      if MustShow(s, e) && s.slot.useFrames {
        FramesAdded(s.slot, FramesOf(Stream(s)), e);
      } else if MustShow(s, e) {
        LinesAdded(s.slot, e);
      }
    } else {
      QuietTool(s.slot, e);
    }
  }

  /** Main result, both ways, over every run: a tool event adds exactly what it must, and
      to a turn that must not show it nothing; and the calls started are those of the
      named starts shown. */
  lemma ToolShownExactly(actions: seq<Action>, e: ToolEvent)
    requires AllGenuine(actions)
    ensures var s := Run(actions);
            var s' := Step(s, ToolCall(e));
            var noted := MustShow(s, e) && e.phase == Start && e.name != [] && KnownBy(e) != [];
            && s'.slot.queue == s.slot.queue + ItemsDue(s, e)
            && (s.slot.listening ==> s'.slot.started == s.slot.started + if noted then {KnownBy(e)} else {})
  {
    var s := Run(actions);
    RunLifecycle(actions);
    RunEvidence(actions);
    RunFrames(actions);
    ItemsAdded(s, e);
    if s.slot.listening {
      ShownNoted(s, e);
    }
  }

  lemma ShownNoted(s: State, e: ToolEvent)
    requires Lifecycle(s) && Evidence(s) && s.slot.listening
    ensures var noted := MustShow(s, e) && e.phase == Start && e.name != [] && KnownBy(e) != [];
            Tool(s.slot, e).started == s.slot.started + if noted then {KnownBy(e)} else {}
  {
    ShowsOwn(s, e);
    if MustShow(s, e) {
      StartsNoted(s.slot, e);
    }
  }

  lemma EndsDiffer(fs: Frames, i: nat, j: nat)
    requires WellFramed(fs) && i < j < |fs| && !fs[i].start && !fs[j].start && fs[i].number > 0
    ensures fs[i].number != fs[j].number
  {
    FrameAt(fs, i);
    FrameAt(fs, j);
    assert 0 < i && fs[..i][i - 1] == fs[i - 1] && fs[..j][j - 1] == fs[j - 1];
    if fs[j - 1].start {
      FrameAt(fs, j - 1);
      assert fs[..j - 1][i - 1] == fs[i - 1];
      StartNumbers(fs[..j - 1], i - 1);
    }
  }

  /** What every reachable state satisfies. */
  lemma ReachableFacts(s: State)
    requires Reachable(s)
    ensures Lifecycle(s) && StreamInvariant(s) && Evidence(s) && FrameInvariant(s) && Silent(s)
  {
    var actions: seq<Action> :| AllGenuine(actions) && Run(actions) == s;
    RunLifecycle(actions);
    RunStream(actions);
    RunEvidence(actions);
    RunFrames(actions);
    PendingWindowSilent(actions);
  }
}
