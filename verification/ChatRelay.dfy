/** The relay object (chat_relay.py), whose methods act on one session's slot and leave
    every other session alone. Its dictionaries, all keyed by canonical session key, are
    one dictionary of slots here. A ghost record of each session's turn ties every
    sequence of calls to the runs of RelayRuns, session by session. */
module ChatRelay {
  import opened Text
  import opened RelaySlot
  import opened RelayRuns

  // ---------------------------------------------------------------------------
  // The relay's books against the sessions' runs

  datatype Books = Books(
    slots: map<Str, Slot>,
    pending: map<Str, Future>,
    canonical: map<Str, Str>,
    turns: map<Str, State>)

  function SlotIn(b: Books, k: Str): Slot {
    if k in b.slots then b.slots[k] else Empty
  }

  function TurnIn(b: Books, k: Str): State {
    if k in b.turns then b.turns[k] else Initial()
  }

  ghost predicate SessionValid(b: Books, k: Str) {
    Reachable(TurnIn(b, k)) && TurnIn(b, k).slot == SlotIn(b, k)
  }

  /** A registered request of a session is the one the two request tables hold for it. */
  predicate RequestHeld(b: Books, k: Str) {
    var s := TurnIn(b, k);
    s.registered ==>
      && s.request in b.pending && b.pending[s.request] == s.future
      && s.request in b.canonical && b.canonical[s.request] == k
  }

  /** Every chat.send in the tables is the registered request of its session. */
  predicate RequestOwned(b: Books, request: Str) {
    request in b.canonical ==>
      TurnIn(b, b.canonical[request]).registered && TurnIn(b, b.canonical[request]).request == request
  }

  ghost predicate DistinctRequests(b: Books) {
    forall j, k :: j != k && InFlight(TurnIn(b, j)) && InFlight(TurnIn(b, k))
                   ==> TurnIn(b, j).request != TurnIn(b, k).request
  }

  /** Each session's slot is that of a run, and the request tables agree with the runs. */
  ghost predicate ValidBooks(b: Books) {
    && (forall k :: SessionValid(b, k))
    && (forall k :: RequestHeld(b, k))
    && (forall request :: RequestOwned(b, request))
    && DistinctRequests(b)
  }

  /** Session `k` took this step, its slot with it, and no other session changed. */
  ghost predicate Stepped(b: Books, b': Books, k: Str, a: Action) {
    && TurnIn(b', k) == Step(TurnIn(b, k), a) && SlotIn(b', k) == TurnIn(b', k).slot
    && forall o :: o != k ==> TurnIn(b', o) == TurnIn(b, o) && SlotIn(b', o) == SlotIn(b, o)
  }

  /** The step left the turn's request and its registration alone. */
  predicate SameRequest(s: State, s': State) {
    && s'.registered == s.registered && s'.request == s.request && s'.future == s.future
    && (InFlight(s') ==> InFlight(s))
  }

  lemma SteppedSessions(b: Books, b': Books, k: Str, a: Action)
    requires ValidBooks(b) && Genuine(a) && Stepped(b, b', k, a)
    ensures forall o :: SessionValid(b', o)
  {
    forall o
      ensures SessionValid(b', o)
    {
      assert SessionValid(b, o);
      if o == k {
        StepReachable(TurnIn(b, k), a);
      }
    }
  }

  lemma SteppedDistinct(b: Books, b': Books, k: Str, a: Action)
    requires ValidBooks(b) && Stepped(b, b', k, a)
    requires TurnIn(b', k).request == TurnIn(b, k).request && (InFlight(TurnIn(b', k)) ==> InFlight(TurnIn(b, k)))
    ensures DistinctRequests(b')
  {
    forall i, j | i != j && InFlight(TurnIn(b', i)) && InFlight(TurnIn(b', j))
      ensures TurnIn(b', i).request != TurnIn(b', j).request
    {
      assert TurnIn(b, i).request != TurnIn(b, j).request;
    }
  }

  /** A step that touches neither the session's request nor the request tables. */
  lemma QuietStep(b: Books, b': Books, k: Str, a: Action)
    requires ValidBooks(b) && Genuine(a) && Stepped(b, b', k, a)
    requires b'.pending == b.pending && b'.canonical == b.canonical
    requires SameRequest(TurnIn(b, k), Step(TurnIn(b, k), a))
    ensures ValidBooks(b')
  {
    SteppedSessions(b, b', k, a);
    SteppedDistinct(b, b', k, a);
    forall o
      ensures RequestHeld(b', o) && RequestOwned(b', o)
    {
      assert RequestHeld(b, o) && RequestOwned(b, o);
    }
  }

  /** A step that ends the wait for the ack and drops its request from the tables. */
  lemma ReleasingStep(b: Books, b': Books, k: Str, a: Action)
    requires ValidBooks(b) && Genuine(a) && Stepped(b, b', k, a) && InFlight(TurnIn(b, k))
    requires var request := TurnIn(b, k).request;
             b'.pending == b.pending - {request} && b'.canonical == b.canonical - {request}
    requires !TurnIn(b', k).registered && TurnIn(b', k).request == TurnIn(b, k).request
    ensures ValidBooks(b')
  {
    SteppedSessions(b, b', k, a);
    SteppedDistinct(b, b', k, a);
    forall o
      ensures RequestHeld(b', o)
    {
      assert RequestHeld(b, o) && SessionValid(b, o);
      ReachableFacts(TurnIn(b, o));
    }
    forall request
      ensures RequestOwned(b', request)
    {
      assert RequestOwned(b, request);
    }
  }

  /** A turn begins with a fresh request. */
  lemma BeginningStep(b: Books, b': Books, k: Str, a: Action)
    requires ValidBooks(b) && a.Begin? && Stepped(b, b', k, a) && !InFlight(TurnIn(b, k))
    requires a.request !in b.pending && a.request !in b.canonical
    requires forall o :: InFlight(TurnIn(b, o)) ==> TurnIn(b, o).request != a.request
    requires b'.pending == b.pending[a.request := Waiting] && b'.canonical == b.canonical[a.request := k]
    ensures ValidBooks(b')
  {
    SteppedSessions(b, b', k, a);
    assert SessionValid(b, k);
    ReachableFacts(TurnIn(b, k));
    forall o
      ensures RequestHeld(b', o) && RequestOwned(b', o)
    {
      assert RequestHeld(b, o) && RequestOwned(b, o);
    }
    forall i, j | i != j && InFlight(TurnIn(b', i)) && InFlight(TurnIn(b', j))
      ensures TurnIn(b', i).request != TurnIn(b', j).request
    {
      assert i != k && j != k ==> TurnIn(b, i).request != TurnIn(b, j).request;
    }
  }

  /** The session whose waiting chat.send this is. */
  predicate Owns(b: Books, request: Str, k: Str) {
    && request in b.canonical && b.canonical[request] == k
    && request in b.pending && b.pending[request] == Waiting
  }

  /** A response is a step of the request's owner alone. */
  lemma OnlyOwnerResponds(b: Books, request: Str, ok: bool, runId: Tag, k: Str)
    requires ValidBooks(b) && !Owns(b, request, k)
    ensures Step(TurnIn(b, k), Respond(request, ok, runId)) == TurnIn(b, k)
  {
    assert RequestHeld(b, k);
  }

  lemma RespondingStep(b: Books, b': Books, k: Str, request: Str, ok: bool, runId: Tag)
    requires ValidBooks(b) && runId != Pending && Owns(b, request, k)
    requires Stepped(b, b', k, Respond(request, ok, runId))
    requires b'.pending == b.pending[request := if ok then Acked(runId) else Refused] && b'.canonical == b.canonical
    ensures ValidBooks(b')
  {
    SteppedSessions(b, b', k, Respond(request, ok, runId));
    assert RequestOwned(b, request) && RequestHeld(b, k);
    SteppedDistinct(b, b', k, Respond(request, ok, runId));
    forall o
      ensures RequestHeld(b', o) && RequestOwned(b', o)
    {
      assert RequestHeld(b, o) && RequestOwned(b, o);
    }
  }

  /** An answer to a request that is no chat.send. */
  lemma UnownedStep(b: Books, b': Books, request: Str)
    requires ValidBooks(b) && request !in b.canonical
    requires b'.turns == b.turns && b'.slots == b.slots && b'.canonical == b.canonical
    requires forall r :: r != request && r in b.pending ==> r in b'.pending && b'.pending[r] == b.pending[r]
    ensures ValidBooks(b')
  {
    forall o
      ensures SessionValid(b', o) && RequestHeld(b', o) && RequestOwned(b', o)
    {
      assert SessionValid(b, o) && RequestHeld(b, o) && RequestOwned(b, o);
    }
    forall i, j | i != j && InFlight(TurnIn(b', i)) && InFlight(TurnIn(b', j))
      ensures TurnIn(b', i).request != TurnIn(b', j).request
    {
      assert TurnIn(b, i).request != TurnIn(b, j).request;
    }
  }

  /** A response, whoever it is for: every session takes its response step. */
  lemma RespondedBooks(b: Books, b': Books, request: Str, ok: bool, runId: Tag)
    requires ValidBooks(b) && runId != Pending && b'.canonical == b.canonical
    requires var consumed := request in b.pending && b.pending[request] == Waiting;
             && (!consumed ==> b' == b)
             && (consumed ==> b'.pending == b.pending[request := if ok then Acked(runId) else Refused])
             && (consumed && request !in b.canonical ==> b'.turns == b.turns && b'.slots == b.slots)
             && (consumed && request in b.canonical ==>
                   Stepped(b, b', b.canonical[request], Respond(request, ok, runId)))
    ensures ValidBooks(b')
    ensures forall k :: TurnIn(b', k) == Step(TurnIn(b, k), Respond(request, ok, runId))
  {
    forall k | !Owns(b, request, k)
      ensures Step(TurnIn(b, k), Respond(request, ok, runId)) == TurnIn(b, k)
    {
      OnlyOwnerResponds(b, request, ok, runId, k);
    }
    if request in b.pending && b.pending[request] == Waiting {
      if request in b.canonical {
        RespondingStep(b, b', b.canonical[request], request, ok, runId);
      } else {
        UnownedStep(b, b', request);
      }
    }
  }

  lemma ResettingStep(b: Books, b': Books)
    requires ValidBooks(b) && b'.pending == map[] && b'.canonical == map[]
    requires forall k :: TurnIn(b', k) == Step(TurnIn(b, k), Disconnect) && SlotIn(b', k) == Reset(SlotIn(b, k))
    ensures ValidBooks(b')
  {
    forall o
      ensures SessionValid(b', o) && RequestHeld(b', o) && RequestOwned(b', o)
    {
      assert SessionValid(b, o);
      StepReachable(TurnIn(b, o), Disconnect);
    }
    forall i, j | i != j && InFlight(TurnIn(b', i)) && InFlight(TurnIn(b', j))
      ensures TurnIn(b', i).request != TurnIn(b', j).request
    {
      assert TurnIn(b, i).request != TurnIn(b, j).request;
    }
  }

  lemma ResetBooks(b: Books, b': Books)
    requires b'.slots == map k | k in b.slots :: Reset(b.slots[k])
    requires b'.turns == map k | k in b.turns :: Step(b.turns[k], Disconnect)
    ensures forall k :: TurnIn(b', k) == Step(TurnIn(b, k), Disconnect) && SlotIn(b', k) == Reset(SlotIn(b, k))
  {}

  /** What every sequence of calls on any sessions keeps, for each session: its acked turn
      has taken at most one answer, from its own event; its frames are well ordered; and
      without a turn it has no queue, no sentinel and no request. */
  lemma EverySession(b: Books, k: Str)
    requires ValidBooks(b)
    ensures var s := TurnIn(b, k);
            && (s.future.Acked? && s.future.runId.RunId? ==>
                  forall i :: 0 <= i < |s.taken| && s.taken[i].Answer? ==>
                    FinalAnswer(s, i) && AnswerSource(s, s.taken[i].message, s.future.runId))
            && (s.at == Ended(DeadlinePassed) ==> s.clock >= s.deadline)
            && WellFramed(FramesOf(Stream(s)))
            && (!InFlight(s) ==> !SlotIn(b, k).listening && SlotIn(b, k).activeRun != Pending)
            && (!InFlight(s) ==> forall request :: request in b.canonical ==> b.canonical[request] != k)
  {
    var s := TurnIn(b, k);
    assert SessionValid(b, k);
    ReachableFacts(s);
    if s.future.Acked? && s.future.runId.RunId? {
      TakenAnswers(s, s.future.runId);
    }
    forall request | request in b.canonical && !InFlight(s)
      ensures b.canonical[request] != k
    {
      assert RequestOwned(b, request);
    }
  }

  /** The session's record and slot took the step and no other session's did. */
  lemma StepDone(b: Books, b': Books, k: Str, a: Action)
    requires b'.turns == b.turns[k := Step(TurnIn(b, k), a)]
    requires SlotIn(b', k) == Step(TurnIn(b, k), a).slot && forall o :: o != k ==> SlotIn(b', o) == SlotIn(b, o)
    ensures Stepped(b, b', k, a)
  {}

  lemma BeginSlot(s: State, a: Action)
    requires a.Begin? && !InFlight(s)
    ensures Step(s, a).slot == Install(s.slot, a.useFrames, a.replay)
  {}

  lemma ResumeSlot(s: State)
    requires s.at == AwaitAck && s.future != Waiting
    ensures var s' := Step(s, Resume);
            && s'.slot == (if s.future.Acked? then s.slot.(activeRun := s.future.runId) else Cleanup(s.slot))
            && !s'.registered && s'.request == s.request
  {}

  lemma TakenExactly(s: State)
    requires s.at == Streaming && s.slot.queue != []
    ensures var t := s.slot.(queue := s.slot.queue[1..]);
            Step(s, Take).slot == if s.slot.queue[0] == Close || s.slot.queue[0] == Failure then Finish(t) else t
    ensures SameRequest(s, Step(s, Take))
  {}

  /** What a frame from the gateway adds to a session's queue, from the session's run. */
  lemma MessageDue(b: Books, k: Str, m: Message)
    requires ValidBooks(b) && m.tag != Pending
    ensures Hear(SlotIn(b, k), m).queue == SlotIn(b, k).queue + AnswersDue(TurnIn(b, k), m)
  {
    assert SessionValid(b, k);
    ReachableFacts(TurnIn(b, k));
    AnswersAdded(TurnIn(b, k), m);
  }

  lemma ToolDue(b: Books, k: Str, e: ToolEvent)
    requires ValidBooks(b)
    ensures Tool(SlotIn(b, k), e).queue == SlotIn(b, k).queue + ItemsDue(TurnIn(b, k), e)
  {
    assert SessionValid(b, k);
    ReachableFacts(TurnIn(b, k));
    ItemsAdded(TurnIn(b, k), e);
  }

  // ---------------------------------------------------------------------------
  // The object

  class Relay {
    var slots: map<Str, Slot>
    var canonicalByRaw: map<Str, Str>
    var pending: map<Str, Future>
    var chatSendCanonical: map<Str, Str>
    /** The turn of each session, as RelayRuns has it. */
    ghost var turns: map<Str, State>

    constructor ()
      ensures Valid() && turns == map[]
      ensures slots == map[] && pending == map[] && chatSendCanonical == map[] && canonicalByRaw == map[]
    {
      slots, canonicalByRaw, pending, chatSendCanonical, turns := map[], map[], map[], map[], map[];
      InitialReachable();
    }

    ghost function Ledger(): Books
      reads this`slots, this`pending, this`chatSendCanonical, this`turns
    {
      Books(slots, pending, chatSendCanonical, turns)
    }

    ghost predicate Valid()
      reads this`slots, this`pending, this`chatSendCanonical, this`turns
    {
      ValidBooks(Ledger())
    }

    function At(k: Str): Slot
      reads this`slots
    {
      if k in slots then slots[k] else Empty
    }

    ghost function Turn(k: Str): State
      reads this`slots, this`pending, this`chatSendCanonical, this`turns
    {
      TurnIn(Ledger(), k)
    }

    function Canonical(raw: Str): Str
      reads this`canonicalByRaw
    {
      if raw in canonicalByRaw && canonicalByRaw[raw] != [] then canonicalByRaw[raw] else raw
    }

    /** What `_ensure_session` remembers of the gateway's answer. */
    method SetCanonical(raw: Str, canonical: Str)
      requires Valid()
      modifies this`canonicalByRaw
      ensures Valid() && Ledger() == old(Ledger())
      ensures Canonical(raw) == if canonical == [] then raw else canonical
      ensures forall other :: other != raw ==> Canonical(other) == old(Canonical(other))
    {
      canonicalByRaw := canonicalByRaw[raw := canonical];
    }

    twostate predicate OthersUnchanged(k: Str)
      reads this`slots
    {
      forall o :: o != k ==> (o in slots <==> o in old(slots)) && (o in slots ==> slots[o] == old(slots)[o])
    }

    // -------------------------------------------------------------------------
    // Slots

    method Put(k: Str, s: Slot)
      modifies this`slots
      ensures At(k) == s && OthersUnchanged(k)
    {
      slots := slots[k := s];
    }

    /** `queue.put_nowait`, when the session has a live queue. */
    method PutNowait(k: Str, items: seq<Item>)
      modifies this`slots
      ensures At(k) == Push(old(At(k)), items) && OthersUnchanged(k)
    {
      var s := At(k);
      if s.listening {
        Put(k, s.(queue := s.queue + items));
      }
    }

    ghost method Record(k: Str, a: Action)
      modifies this`turns
      ensures turns == old(turns)[k := Step(old(Turn(k)), a)]
    {
      turns := turns[k := Step(Turn(k), a)];
    }

    // -------------------------------------------------------------------------
    // A turn's own steps

    method InstallSlot(k: Str, useFrames: bool, replay: bool)
      modifies this`slots
      ensures At(k) == Install(old(At(k)), useFrames, replay) && OthersUnchanged(k)
    {
      var s := At(k).(activeRun := Pending, seen := false, terminal := [], useFrames := useFrames);
      s := s.(toolSeq := 0, toolName := [], toolId := [], activeSeq := 0, started := {});
      Put(k, s.(queue := [], listening := true));
      if replay && !useFrames {
        PutNowait(k, [Status]);
      }
    }

    /** Step 1 of `_stream_turn_locked`, then the registration of its fresh request. */
    method InstallTurn(k: Str, request: Str, useFrames: bool, replay: bool, ghost deadline: int)
      requires Valid() && !InFlight(Turn(k))
      requires request !in pending && request !in chatSendCanonical
      requires forall o :: InFlight(TurnIn(Ledger(), o)) ==> TurnIn(Ledger(), o).request != request
      modifies this`slots, this`pending, this`chatSendCanonical, this`turns
      ensures Valid() && Stepped(old(Ledger()), Ledger(), k, Begin(request, deadline, useFrames, replay))
      ensures At(k) == Install(old(At(k)), useFrames, replay) && OthersUnchanged(k)
      ensures pending == old(pending)[request := Waiting]
      ensures chatSendCanonical == old(chatSendCanonical)[request := k]
    {
      ghost var b, begin := Ledger(), Begin(request, deadline, useFrames, replay);
      assert SessionValid(b, k);
      BeginSlot(Turn(k), begin);
      InstallSlot(k, useFrames, replay);
      pending := pending[request := Waiting];
      chatSendCanonical := chatSendCanonical[request := k];
      Record(k, begin);
      StepDone(b, Ledger(), k, begin);
      BeginningStep(b, Ledger(), k, begin);
    }

    /** Forget the request, and after a failure tear the turn down (`_cleanup_pending_turn`). */
    method ReleaseRequest(k: Str, request: Str, ackOk: bool)
      modifies this`slots, this`pending, this`chatSendCanonical
      ensures At(k) == (if ackOk then old(At(k)) else Cleanup(old(At(k)))) && OthersUnchanged(k)
      ensures pending == old(pending) - {request} && chatSendCanonical == old(chatSendCanonical) - {request}
    {
      pending := pending - {request};
      chatSendCanonical := chatSendCanonical - {request};
      if !ackOk {
        var s := At(k).(listening := false);
        if s.activeRun == Pending {
          s := s.(activeRun := Untagged);
        }
        Put(k, s.(seen := false));
      }
    }

    /** The wait for the ack ends without one: the send fails, the deadline passes or the
        turn is cancelled. */
    method AbandonTurn(k: Str, request: Str, ghost why: Action)
      requires Valid() && Turn(k).at == AwaitAck && request == Turn(k).request
      requires why == SendFails || why == Cancel || (why == Expire && Turn(k).clock >= Turn(k).deadline)
      modifies this`slots, this`pending, this`chatSendCanonical, this`turns
      ensures Valid() && Stepped(old(Ledger()), Ledger(), k, why)
      ensures At(k) == Cleanup(old(At(k))) && OthersUnchanged(k) && request !in pending && request !in chatSendCanonical
    {
      ghost var b := Ledger();
      assert SessionValid(b, k) && RequestHeld(b, k);
      ReleaseRequest(k, request, false);
      Record(k, why);
      ReleasingStep(b, Ledger(), k, why);
    }

    /** The coroutine resumes with its future's result. */
    method ResumeTurn(k: Str, request: Str, result: Future)
      requires Valid() && Turn(k).at == AwaitAck && request == Turn(k).request
      requires result == Turn(k).future && result != Waiting
      modifies this`slots, this`pending, this`chatSendCanonical, this`turns
      ensures Valid() && Stepped(old(Ledger()), Ledger(), k, Resume)
      ensures At(k) == (if result.Acked? then old(At(k)).(activeRun := result.runId) else Cleanup(old(At(k))))
      ensures OthersUnchanged(k) && request !in pending && request !in chatSendCanonical
    {
      ghost var b := Ledger();
      assert SessionValid(b, k) && RequestHeld(b, k);
      ResumeSlot(Turn(k));
      ReleaseRequest(k, request, result.Acked?);
      if result.Acked? {
        Put(k, At(k).(activeRun := result.runId));
      }
      Record(k, Resume);
      StepDone(b, Ledger(), k, Resume);
      ReleasingStep(b, Ledger(), k, Resume);
    }

    /** The `finally` of the consumer loop. */
    method CloseQueue(k: Str)
      modifies this`slots
      ensures At(k) == Finish(old(At(k))) && OthersUnchanged(k)
    {
      var s := At(k).(listening := false, useFrames := false);
      Put(k, s.(toolSeq := 0, toolId := [], activeSeq := 0, started := {}));
    }

    /** The consumer leaves at the deadline or is cancelled. */
    method FinishTurn(k: Str, ghost why: Action)
      requires Valid() && Turn(k).at == Streaming
      requires why == Cancel || (why == Expire && Turn(k).clock >= Turn(k).deadline)
      modifies this`slots, this`turns
      ensures Valid() && Stepped(old(Ledger()), Ledger(), k, why)
      ensures At(k) == Finish(old(At(k))) && OthersUnchanged(k)
    {
      ghost var b := Ledger();
      assert SessionValid(b, k) && RequestHeld(b, k);
      ReachableFacts(Turn(k));
      CloseQueue(k);
      Record(k, why);
      QuietStep(b, Ledger(), k, why);
    }

    method PopItem(k: Str) returns (item: Item)
      requires At(k).queue != []
      modifies this`slots
      ensures item == old(At(k)).queue[0] && OthersUnchanged(k)
      ensures At(k) == var s := old(At(k)).(queue := old(At(k)).queue[1..]);
                       if item == Close || item == Failure then Finish(s) else s
    {
      var s := At(k);
      item := s.queue[0];
      Put(k, s.(queue := s.queue[1..]));
      if item == Close || item == Failure {
        CloseQueue(k);
      }
    }

    /** The consumer takes the next item of its queue; a close or a failure ends it. */
    method TakeItem(k: Str) returns (item: Item)
      requires Valid() && Turn(k).at == Streaming && At(k).queue != []
      modifies this`slots, this`turns
      ensures Valid() && Stepped(old(Ledger()), Ledger(), k, Take) && OthersUnchanged(k)
      ensures item == old(At(k)).queue[0]
      ensures At(k).queue == old(At(k)).queue[1..]
      ensures item == Close || item == Failure ==> !At(k).listening
    {
      ghost var b := Ledger();
      assert SessionValid(b, k) && RequestHeld(b, k);
      TakenExactly(Turn(k));
      item := PopItem(k);
      Record(k, Take);
      QuietStep(b, Ledger(), k, Take);
    }

    /** The event loop's clock, as a turn reads it: what makes a deadline in `AbandonTurn`
        and `FinishTurn` pass. */
    ghost method Observe(k: Str, now: int)
      requires Valid()
      modifies this`turns
      ensures Valid() && Stepped(old(Ledger()), Ledger(), k, Tick(now))
    {
      ghost var b := Ledger();
      assert SessionValid(b, k) && RequestHeld(b, k);
      Record(k, Tick(now));
      QuietStep(b, Ledger(), k, Tick(now));
    }

    // -------------------------------------------------------------------------
    // Frames from the gateway

    method InstallRunId(k: Str, runId: Tag)
      modifies this`slots
      ensures At(k) == Ack(old(At(k)), runId) && OthersUnchanged(k)
    {
      if runId != Untagged {
        Put(k, At(k).(activeRun := runId));
      } else if At(k).activeRun == Pending {
        Put(k, At(k).(activeRun := Untagged));
      }
    }

    /** The tables' part of `handle_response`. */
    method AnswerRequest(request: Str, ok: bool, runId: Tag) returns (consumed: bool)
      modifies this`slots, this`pending
      ensures consumed == (request in old(pending) && old(pending)[request] == Waiting)
      ensures !consumed ==> pending == old(pending)
      ensures consumed ==> pending == old(pending)[request := if ok then Acked(runId) else Refused]
      ensures !(consumed && ok && request in chatSendCanonical) ==> slots == old(slots)
      ensures consumed && ok && request in chatSendCanonical ==>
                && At(chatSendCanonical[request]) == Ack(old(At(chatSendCanonical[request])), runId)
                && OthersUnchanged(chatSendCanonical[request])
    {
      if request !in pending || pending[request] != Waiting {
        return false;
      }
      consumed := true;
      if ok {
        if request in chatSendCanonical {
          InstallRunId(chatSendCanonical[request], runId);
        }
        pending := pending[request := Acked(runId)];
      } else {
        pending := pending[request := Refused];
      }
    }

    /** `handle_response`: the run id is installed before the waiting turn resumes. A
        response to a request that is unknown or already answered changes nothing. Every
        session takes its own response step, which only the request's owner feels. */
    method HandleResponse(request: Str, ok: bool, runId: Tag) returns (consumed: bool)
      requires Valid() && runId != Pending
      modifies this`slots, this`pending, this`turns
      ensures Valid() && forall k :: TurnIn(Ledger(), k) == Step(TurnIn(old(Ledger()), k), Respond(request, ok, runId))
      ensures consumed == (request in old(pending) && old(pending)[request] == Waiting)
      ensures !consumed ==> Ledger() == old(Ledger())
      ensures consumed ==> pending == old(pending)[request := if ok then Acked(runId) else Refused]
      ensures forall k :: At(k) == if consumed && ok && request in chatSendCanonical && chatSendCanonical[request] == k
                                   then Ack(old(At(k)), runId) else old(At(k))
    {
      ghost var b := Ledger();
      ghost var owned := request in chatSendCanonical;
      ghost var owner := if owned then chatSendCanonical[request] else [];
      assert SessionValid(b, owner) && RequestHeld(b, owner) && RequestOwned(b, request);
      consumed := AnswerRequest(request, ok, runId);
      if consumed && owned {
        Record(owner, Respond(request, ok, runId));
      }
      RespondedBooks(b, Ledger(), request, ok, runId);
    }

    method HearMessage(k: Str, m: Message)
      modifies this`slots
      ensures At(k) == Hear(old(At(k)), m) && OthersUnchanged(k)
    {
      var s := At(k);
      if m.text == [] || !s.listening {
        return;
      }
      if s.activeRun != Untagged {
        var mismatched := m.tag != Untagged && m.tag != s.activeRun;
        var staleChat := m.family == ChatFamily && m.tag == Untagged;
        var stalePending := s.activeRun == Pending && m.tag == Untagged;
        var session := m.family == SessionMessage && m.tag == Untagged;
        var staleRepeat := session && s.terminal != [];
        var staleUnconfirmed := session && s.activeRun != Pending && !s.seen;
        if mismatched || staleChat || stalePending || staleRepeat || staleUnconfirmed {
          return;
        }
        if m.tag != Untagged && m.tag == s.activeRun && s.activeRun != Pending {
          s := s.(seen := true);
        }
      }
      Put(k, s);
      if m.family == SessionMessage || m.final {
        PutNowait(k, [Answer(m), Close]);
        Put(k, At(k).(terminal := m.text));
      }
    }

    /** The assistant half of `handle_event`. */
    method HandleMessage(k: Str, m: Message)
      requires Valid() && m.tag != Pending
      modifies this`slots, this`turns
      ensures Valid() && Stepped(old(Ledger()), Ledger(), k, Event(m))
      ensures At(k) == Hear(old(At(k)), m) && OthersUnchanged(k)
      ensures At(k).queue == old(At(k)).queue + AnswersDue(old(Turn(k)), m)
    {
      ghost var b := Ledger();
      assert SessionValid(b, k) && RequestHeld(b, k);
      MessageDue(b, k, m);
      HearMessage(k, m);
      Record(k, Event(m));
      QuietStep(b, Ledger(), k, Event(m));
    }

    method ApplyApproval(k: Str)
      modifies this`slots
      ensures At(k) == Approval(old(At(k))) && OthersUnchanged(k)
    {
      if !At(k).useFrames {
        PutNowait(k, [Status]);
      }
    }

    method HandleApproval(raw: Str)
      requires Valid()
      modifies this`slots, this`turns
      ensures Valid() && Stepped(old(Ledger()), Ledger(), Canonical(raw), ApprovalNotice)
      ensures At(Canonical(raw)) == Approval(old(At(Canonical(raw)))) && OthersUnchanged(Canonical(raw))
    {
      var k := Canonical(raw);
      ghost var b := Ledger();
      assert SessionValid(b, k) && RequestHeld(b, k);
      ApplyApproval(k);
      Record(k, ApprovalNotice);
      QuietStep(b, Ledger(), k, ApprovalNotice);
    }

    method HandleToolStart(k: Str, name: Str, id: Str, call: Str)
      modifies this`slots
      ensures At(k) == ToolStart(old(At(k)), name, id, call) && OthersUnchanged(k)
    {
      var s := At(k);
      if call != [] {
        if call in s.started {
          return;
        }
        s := s.(started := s.started + {call});
      }
      s := s.(toolName := name);
      if s.useFrames {
        s := s.(toolSeq := s.toolSeq + 1);
        s := s.(toolId := id, activeSeq := s.toolSeq);
        Put(k, s);
        PutNowait(k, [Frame(true, name, id, s.toolSeq, call)]);
      } else {
        Put(k, s);
        PutNowait(k, [Status]);
      }
    }

    method HandleToolEnd(k: Str, name: Str, id: Str)
      modifies this`slots
      ensures At(k) == ToolEnd(old(At(k)), name, id) && OthersUnchanged(k)
    {
      var s := At(k);
      if !s.useFrames {
        PutNowait(k, [Status]);
        Put(k, At(k).(toolName := []));
        return;
      }
      var idMatch := id != [] && id == s.toolId;
      var bothIdless := id == [] && s.toolId == [] && (name == [] || name == s.toolName);
      if (idMatch || bothIdless) && s.toolSeq >= s.activeSeq {
        PutNowait(k, [Frame(false, if s.toolName != [] then s.toolName else name, s.toolId, s.activeSeq, [])]);
        Put(k, At(k).(toolName := [], toolId := [], activeSeq := 0));
      }
    }

    method ApplyTool(k: Str, e: ToolEvent)
      modifies this`slots
      ensures At(k) == Tool(old(At(k)), e) && OthersUnchanged(k)
    {
      if e.itemStream && !e.kindTool && e.callId == [] {
        return;
      }
      var s := At(k);
      if s.activeRun != Untagged {
        if s.activeRun == Pending || (e.tag != Untagged && e.tag != s.activeRun) || (e.tag == Untagged && !s.seen) {
          return;
        }
      }
      if e.phase == Start && e.name != [] {
        HandleToolStart(k, e.name, ToolId(e), CallOf(e));
      } else if e.phase == End {
        HandleToolEnd(k, e.name, ToolId(e));
      } else if e.phase == Error && !s.useFrames {
        PutNowait(k, [Status]);
        Put(k, At(k).(toolName := []));
      }
    }

    /** The tool half of `handle_event`; an event without a session key is dropped. */
    method HandleTool(raw: Str, e: ToolEvent)
      requires Valid()
      modifies this`slots, this`turns
      ensures Valid()
      ensures Canonical(raw) == [] ==> Ledger() == old(Ledger())
      ensures Canonical(raw) != [] ==>
                && Stepped(old(Ledger()), Ledger(), Canonical(raw), ToolCall(e))
                && At(Canonical(raw)) == Tool(old(At(Canonical(raw))), e)
                && At(Canonical(raw)).queue == old(At(Canonical(raw))).queue + ItemsDue(old(Turn(Canonical(raw))), e)
      ensures OthersUnchanged(Canonical(raw))
    {
      if Canonical(raw) != [] {
        HandleToolOf(Canonical(raw), e);
      }
    }

    method HandleToolOf(k: Str, e: ToolEvent)
      requires Valid()
      modifies this`slots, this`turns
      ensures Valid() && Stepped(old(Ledger()), Ledger(), k, ToolCall(e)) && OthersUnchanged(k)
      ensures At(k) == Tool(old(At(k)), e)
      ensures At(k).queue == old(At(k)).queue + ItemsDue(old(Turn(k)), e)
    {
      ghost var b := Ledger();
      assert SessionValid(b, k) && RequestHeld(b, k);
      ToolDue(b, k, e);
      ApplyTool(k, e);
      Record(k, ToolCall(e));
      QuietStep(b, Ledger(), k, ToolCall(e));
    }

    /** `reset`: every session's slot is cleared, every live queue gets one failure, and
        no request is left to answer. */
    method ResetAll()
      requires Valid()
      modifies this
      ensures Valid() && forall k :: TurnIn(Ledger(), k) == Step(TurnIn(old(Ledger()), k), Disconnect)
      ensures forall k :: SlotIn(Ledger(), k) == Reset(SlotIn(old(Ledger()), k))
      ensures pending == map[] && chatSendCanonical == map[] && canonicalByRaw == map[]
    {
      ghost var b := Ledger();
      slots := map k | k in slots :: Reset(slots[k]);
      pending, chatSendCanonical, canonicalByRaw := map[], map[], map[];
      turns := map k | k in turns :: Step(turns[k], Disconnect);
      ResetBooks(b, Ledger());
      ResettingStep(b, Ledger());
    }
  }
}
