/** Two turns of one session: `reset` drops the turn locks (chat_relay.py), so after a
    disconnect a new turn can begin while the old one's coroutine is still suspended,
    and the old one's exit then unregisters the new one's queue. */
module RelayOverlap {
  import opened RelaySlot
  import opened RelayRuns

  /** The turn that owns the session's dictionaries, and the turn left over from before
      the disconnect with the queue it still holds. */
  datatype World = World(turn: State, oldQueue: seq<Item>, oldAt: Progress)

  datatype Move =
    | Own(action: Action)
    | OldTakes
    | OldGivesUp // its deadline, a cancellation or its refused request

  /** What a disconnect leaves of the turn in flight. */
  function AfterReset(former: State): World {
    var slot := Reset(former.slot);
    World(State(slot, Idle, [], false, Waiting, [], [], former.clock, 0), slot.queue, former.at)
  }

  /** The old turn's exit clears the session's entries, whoever they belong to. */
  function OldLeaves(w: World, how: Ending): World {
    w.(turn := w.turn.(slot := if w.oldAt == Streaming then Finish(w.turn.slot) else Cleanup(w.turn.slot)),
       oldAt := Ended(how))
  }

  function MoveStep(w: World, m: Move): World {
    match m
    case Own(a) => w.(turn := Step(w.turn, a))
    case OldTakes =>
      if w.oldAt != Streaming || w.oldQueue == [] then w
      else
        var rest := w.(oldQueue := w.oldQueue[1..]);
        if w.oldQueue[0] == Close then OldLeaves(rest, Answered)
        else if w.oldQueue[0] == Failure then OldLeaves(rest, Raised)
        else rest
    case OldGivesUp => if w.oldAt == Streaming || w.oldAt == AwaitAck then OldLeaves(w, Cancelled) else w
  }

  function RunMoves(w: World, moves: seq<Move>): World {
    if moves == [] then w else MoveStep(RunMoves(w, moves[..|moves| - 1]), moves[|moves| - 1])
  }

  predicate Begins(m: Move) {
    m.Own? && m.action.Begin?
  }

  predicate NoneBegins(moves: seq<Move>) {
    forall i :: 0 <= i < |moves| ==> !Begins(moves[i])
  }

  predicate NoneDisconnects(moves: seq<Move>) {
    forall i :: 0 <= i < |moves| ==> moves[i] != Own(Disconnect)
  }

  /** The old turn leaves with this move. */
  predicate Leaves(w: World, m: Move) {
    !w.oldAt.Ended? && MoveStep(w, m).oldAt.Ended?
  }

  // ---------------------------------------------------------------------------
  // The turn left over

  /** The disconnect leaves the session as it leaves any turn's, with no turn of its own,
      and the turn in flight with its queue and the failure on it. */
  lemma ResetLeaves(former: State)
    ensures var w := AfterReset(former);
            && w.turn.slot == Step(former, Disconnect).slot && !InFlight(w.turn) && !w.turn.registered
            && w.oldAt == former.at
            && w.oldQueue == former.slot.queue + if former.slot.listening then [Failure] else []
  {}

  /** Taking an item ends the old turn exactly when the item is the end or a failure, and
      only then touches the session. */
  lemma OldTakesExactly(w: World)
    requires w.oldAt == Streaming && w.oldQueue != []
    ensures var t := MoveStep(w, OldTakes);
            && t.oldQueue == w.oldQueue[1..]
            && t.oldAt == (match w.oldQueue[0]
                           case Close => Ended(Answered)
                           case Failure => Ended(Raised)
                           case _ => w.oldAt)
            && (!t.oldAt.Ended? ==> t.turn == w.turn)
            && (t.oldAt.Ended? ==> t.turn == w.turn.(slot := Finish(w.turn.slot)))
  {}

  /** A turn that waits or streams can give up at any time, and leaves with it. */
  lemma OldGivesUpExactly(w: World)
    ensures var t := MoveStep(w, OldGivesUp);
            && (w.oldAt == Streaming || w.oldAt == AwaitAck ==> t.oldAt == Ended(Cancelled) && !t.turn.slot.listening)
            && (w.oldAt == Idle || w.oldAt.Ended? ==> t == w)
  {}

  /** A turn that was streaming when the connection went takes what it has and leaves. */
  lemma OldTurnLeaves(w: World, k: nat)
    requires w.oldAt == Streaming && k < |w.oldQueue| && (w.oldQueue[k] == Close || w.oldQueue[k] == Failure)
    ensures RunMoves(w, seq(k + 1, _ => OldTakes)).oldAt.Ended?
  {
    TakesFrom(w, k);
  }

  lemma {:induction false} TakesFrom(w: World, k: nat)
    requires w.oldAt == Streaming && k < |w.oldQueue|
    ensures var e := RunMoves(w, seq(k, _ => OldTakes));
            e.oldAt.Ended? || (e.oldAt == Streaming && e.oldQueue == w.oldQueue[k..])
    ensures (w.oldQueue[k] == Close || w.oldQueue[k] == Failure) ==> RunMoves(w, seq(k + 1, _ => OldTakes)).oldAt.Ended?
    decreases k
  {
    assert seq(k + 1, _ => OldTakes)[..k] == seq(k, _ => OldTakes);
    if k > 0 {
      TakesFrom(w, k - 1);
      assert seq(k, _ => OldTakes)[..k - 1] == seq(k - 1, _ => OldTakes);
    }
  }

  // ---------------------------------------------------------------------------
  // Single steps

  lemma StepKeepsListening(s: State, a: Action)
    requires !a.Begin? && a != Disconnect && InFlight(Step(s, a))
    ensures InFlight(s) && Step(s, a).slot.listening == s.slot.listening
  {}

  lemma InFlightSince(w: World, m: Move)
    requires !Begins(m) && InFlight(MoveStep(w, m).turn)
    ensures InFlight(w.turn)
  {}

  lemma OldStaysGone(w: World, m: Move)
    ensures w.oldAt.Ended? ==> MoveStep(w, m).oldAt.Ended?
  {}

  lemma MoveListens(w: World, m: Move)
    requires !Begins(m) && m != Own(Disconnect) && InFlight(MoveStep(w, m).turn)
    ensures MoveStep(w, m).turn.slot.listening <==> w.turn.slot.listening && !Leaves(w, m)
  {
    if m.Own? {
      StepKeepsListening(w.turn, m.action);
    }
  }

  // ---------------------------------------------------------------------------
  // When the new turn is heard

  lemma {:induction false} StillListening(w: World, moves: seq<Move>)
    requires w.turn.slot.listening && NoneBegins(moves) && NoneDisconnects(moves)
    ensures var e := RunMoves(w, moves);
            && (w.oldAt.Ended? ==> e.oldAt.Ended?)
            && (InFlight(e.turn) ==> (e.turn.slot.listening <==> w.oldAt.Ended? || !e.oldAt.Ended?))
  {
    if moves != [] {
      var front, last := moves[..|moves| - 1], moves[|moves| - 1];
      var e := RunMoves(w, front);
      StillListening(w, front);
      OldStaysGone(e, last);
      if InFlight(MoveStep(e, last).turn) {
        InFlightSince(e, last);
        MoveListens(e, last);
      }
    }
  }

  lemma {:induction false} NotBegun(w: World, moves: seq<Move>)
    requires !InFlight(w.turn) && NoneBegins(moves)
    ensures !InFlight(RunMoves(w, moves).turn)
  {
    if moves != [] {
      var front, last := moves[..|moves| - 1], moves[|moves| - 1];
      NotBegun(w, front);
      if InFlight(RunMoves(w, moves).turn) {
        InFlightSince(RunMoves(w, front), last);
      }
    }
  }

  /** Main result: after a disconnect, a turn that begins while its predecessor is still
      suspended keeps its queue, for as long as it runs without another disconnect,
      exactly when the predecessor had left before it began or has not left since. */
  lemma NewTurnHeardExactly(former: State, before: seq<Move>, begin: Action, after: seq<Move>)
    requires NoneBegins(before) && begin.Begin? && NoneBegins(after) && NoneDisconnects(after)
    ensures var begun := RunMoves(AfterReset(former), before);
            var e := RunMoves(MoveStep(begun, Own(begin)), after);
            InFlight(e.turn) ==> (e.turn.slot.listening <==> begun.oldAt.Ended? || !e.oldAt.Ended?)
  {
    var begun := RunMoves(AfterReset(former), before);
    NotBegun(AfterReset(former), before);
    StillListening(MoveStep(begun, Own(begin)), after);
  }

  // ---------------------------------------------------------------------------
  // What a turn gets once its queue is unregistered

  /** Neither an end of stream nor a failure among the items. */
  predicate Unended(items: seq<Item>) {
    forall i :: 0 <= i < |items| ==> items[i] != Close && items[i] != Failure
  }

  lemma SlotUnheard(s: Slot, m: Message, e: ToolEvent)
    requires !s.listening
    ensures Hear(s, m) == s
    ensures !Tool(s, e).listening && Tool(s, e).queue == s.queue
    ensures Approval(s) == s && !Reset(s).listening && Reset(s).queue == s.queue
  {}

  lemma TakenUnheard(s: State)
    requires !s.slot.listening
    ensures var t := Taken(s);
            && !t.slot.listening && Stream(t) == Stream(s)
            && (Unended(s.slot.queue) ==> t.at == s.at && Unended(t.slot.queue))
  {
    if s.at == Streaming && s.slot.queue != [] {
      var q := s.slot.queue;
      assert q == [q[0]] + q[1..];
      assert s.taken + q == s.taken + [q[0]] + q[1..];
    }
  }

  /** One action of a turn no event reaches any more. */
  lemma StepUnheard(s: State, a: Action)
    requires !s.slot.listening && !a.Begin?
    ensures var t := Step(s, a);
            && !t.slot.listening && Stream(t) == Stream(s) && t.deadline == s.deadline && t.clock >= s.clock
            && (Unended(s.slot.queue) ==> Unended(t.slot.queue) && (t.at == Ended(Answered) ==> s.at == t.at))
            && (t.at == Ended(DeadlinePassed) ==> s.at == t.at || t.clock >= t.deadline)
  {
    match a
    case Event(m) => SlotUnheard(s.slot, m, ToolEvent(false, false, Untagged, Other, [], [], [], []));
    case ToolCall(e) => SlotUnheard(s.slot, Message(ChatFamily, Untagged, false, []), e);
    case Take => TakenUnheard(s);
    case _ =>
  }

  /** The turn has lost its queue, holding `items` in all, and has not been answered. */
  predicate Starved(w: World, items: seq<Item>, deadline: int) {
    && !w.turn.slot.listening
    && Stream(w.turn) == items && w.turn.deadline == deadline
    && Unended(w.turn.slot.queue)
    && w.turn.at != Ended(Answered)
    && (w.turn.at == Ended(DeadlinePassed) ==> w.turn.clock >= deadline)
  }

  lemma MoveStarved(w: World, items: seq<Item>, deadline: int, m: Move)
    requires Starved(w, items, deadline) && !Begins(m)
    ensures Starved(MoveStep(w, m), items, deadline)
  {
    if m.Own? {
      StepUnheard(w.turn, m.action);
    }
  }

  lemma {:induction false} RunStarved(w: World, items: seq<Item>, deadline: int, moves: seq<Move>)
    requires Starved(w, items, deadline) && NoneBegins(moves)
    ensures Starved(RunMoves(w, moves), items, deadline)
  {
    if moves != [] {
      RunStarved(w, items, deadline, moves[..|moves| - 1]);
      MoveStarved(RunMoves(w, moves[..|moves| - 1]), items, deadline, moves[|moves| - 1]);
    }
  }

  /** Main result: when the old turn leaves during the new one, the new one takes in all
      only what had reached its queue by then, whatever the gateway goes on to send, even
      a disconnect; without an end among that it is never answered, and it ends by its
      deadline only once that has passed. */
  lemma OldTurnStarvesNew(w: World, m: Move, moves: seq<Move>)
    requires InFlight(w.turn) && Leaves(w, m) && Unended(w.turn.slot.queue) && NoneBegins(moves)
    ensures var e := RunMoves(MoveStep(w, m), moves).turn;
            && Stream(e) == Stream(w.turn) && !e.slot.listening
            && e.at != Ended(Answered)
            && (e.at == Ended(DeadlinePassed) ==> e.clock >= w.turn.deadline)
  {
    RunStarved(MoveStep(w, m), Stream(w.turn), w.turn.deadline, moves);
  }

  /** The message that would have answered the new turn changes nothing any more. */
  lemma AnswerLost(w: World, m: Move, message: Message)
    requires Leaves(w, m) && Captures(w.turn.slot, message) && Terminal(message)
    ensures var heard, unheard := Step(w.turn, Event(message)), MoveStep(w, m).turn;
            && heard.slot.queue == w.turn.slot.queue + [Answer(message), Close]
            && Step(unheard, Event(message)) == unheard
  {}
}
