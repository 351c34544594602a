/** Writers of the approvals file (`handle_system_exec_approvals_set` and its lock
    in exec_approvals.py): every interleaving is a chain of compare-and-swaps. */
module ApprovalsWriter {
  import opened Text
  import opened JsonModel
  import opened ExecApprovals

  type Bytes = seq<Byte>

  /** What the handler is built from: SHA-256 hex, `json.loads` of UTF-8,
      `_serialize_document`, which raises (None) on text UTF-8 cannot encode, the
      validator and the socket merge. */
  datatype Rules = Rules(
    hash: Bytes -> Str,
    parse: Bytes -> Option<Json>,
    serialize: Dict -> Option<Bytes>,
    valid: Dict -> bool,
    merge: (Dict, Dict) -> Dict)

  function PolicyRules(hash: Bytes -> Str, parse: Bytes -> Option<Json>, serialize: Dict -> Option<Bytes>): Rules {
    Rules(hash, parse, serialize, d => ValidDocument(JObject(d)), (d, current) => MergeSocket(d, current))
  }

  /** Digests are not empty and a serialized document parses back. */
  ghost predicate Codec(hash: Bytes -> Str, parse: Bytes -> Option<Json>, serialize: Dict -> Option<Bytes>) {
    && (forall b :: hash(b) != [])
    && (forall d :: serialize(d).Some? ==> parse(serialize(d).value) == Some(JObject(d)))
  }

  ghost predicate Sound(c: Rules) {
    && Codec(c.hash, c.parse, c.serialize)
    && (forall d, current :: c.valid(d) ==> c.valid(c.merge(d, current)))
  }

  lemma PolicyRulesSound(hash: Bytes -> Str, parse: Bytes -> Option<Json>, serialize: Dict -> Option<Bytes>)
    requires Codec(hash, parse, serialize)
    ensures Sound(PolicyRules(hash, parse, serialize))
  {
    var c := PolicyRules(hash, parse, serialize);
    forall d, current | c.valid(d)
      ensures c.valid(c.merge(d, current))
    {
      MergeValid(d, current);
    }
  }

  /** The file's bytes, or None when it does not exist. */
  type File = Option<Bytes>

  const MISSING: Str := Name("missing:")

  function MissingHash(c: Rules): Str {
    MISSING + c.hash([])
  }

  function FileHash(c: Rules, file: File): Str {
    if file.None? then MissingHash(c) else c.hash(file.value)
  }

  /** `_read_snapshot` of a readable file: malformed or invalid content reads as the
      deny-all default, which has no socket. */
  function Stored(c: Rules, file: File): Dict {
    if file.None? then []
    else
      match c.parse(file.value)
      case Some(JObject(d)) => if c.valid(d) then d else []
      case _ => []
  }

  /** What is stored is the file's valid document, and nothing for a file that is missing,
      malformed or not valid. */
  lemma StoredExactly(c: Rules, file: File, d: Dict)
    ensures file.Some? && c.parse(file.value) == Some(JObject(d)) && c.valid(d) ==> Stored(c, file) == d
    ensures Stored(c, file) != [] ==>
              file.Some? && c.parse(file.value) == Some(JObject(Stored(c, file))) && c.valid(Stored(c, file))
  {}

  predicate Accepts(c: Rules, document: Json) {
    document.JObject? && c.valid(document.members)
  }

  datatype Refusal = InvalidParam | BaseHashRequired | Changed | IoError | EncodeError

  /** The comparison made under the lock. */
  function CheckBase(c: Rules, file: File, base: Str): Option<Refusal> {
    if file.Some? then
      if base == [] then Some(BaseHashRequired)
      else if base != c.hash(file.value) then Some(Changed)
      else None
    else if base != [] && base != MissingHash(c) then Some(Changed)
    else None
  }

  // ---------------------------------------------------------------------------
  // Interleavings

  datatype Pc =
    | Waiting(doc: Dict, base: Str)
    | Locked(doc: Dict, base: Str)
    | HasRead(doc: Dict, base: Str, seen: File)
    | HasTemp(asked: Dict, doc: Dict, base: Str, seen: File, temp: Bytes)
    | Replaced // committed, lock still held
    | Succeeded
    | Failed(why: Refusal)

  datatype Commit = Commit(writer: nat, base: Str, replaced: File, wrote: Bytes, asked: Dict, doc: Dict)

  /** Each call of the handler is one writer with its own number. */
  datatype State = State(file: File, holder: Option<nat>, writers: map<nat, Pc>, log: seq<Commit>)

  datatype Action =
    | Call(writer: nat, document: Json, base: Str)
    | Acquire(writer: nat)
    | Read(writer: nat)
    | Prepare(writer: nat)
    | Replace(writer: nat)
    | Release(writer: nat)
    | Break(writer: nat) // any OSError before the replacement

  ghost predicate HoldsLock(pc: Pc) {
    pc.Locked? || pc.HasRead? || pc.HasTemp? || pc.Replaced?
  }

  predicate BeforeReplacement(pc: Pc) {
    pc.Waiting? || pc.Locked? || pc.HasRead? || pc.HasTemp?
  }

  ghost function Fail(s: State, w: nat, why: Refusal): State {
    s.(writers := s.writers[w := Failed(why)], holder := if s.holder == Some(w) then None else s.holder)
  }

  /** One atomic step; an action its writer is not ready for changes nothing. */
  ghost function Step(c: Rules, s: State, a: Action): State {
    match a
    case Call(w, document, base) =>
      if w in s.writers then s
      else if !Accepts(c, document) then s.(writers := s.writers[w := Failed(InvalidParam)])
      else s.(writers := s.writers[w := Waiting(document.members, PyStrip(base))])
    case Acquire(w) =>
      if w in s.writers && s.writers[w].Waiting? && s.holder.None?
      then s.(holder := Some(w), writers := s.writers[w := Locked(s.writers[w].doc, s.writers[w].base)])
      else s
    case Read(w) =>
      if w in s.writers && s.writers[w].Locked?
      then s.(writers := s.writers[w := HasRead(s.writers[w].doc, s.writers[w].base, s.file)])
      else s
    case Prepare(w) =>
      if w in s.writers && s.writers[w].HasRead? then
        var pc := s.writers[w];
        var merged := c.merge(pc.doc, Stored(c, pc.seen));
        var refusal := CheckBase(c, pc.seen, pc.base);
        if refusal.Some? then Fail(s, w, refusal.value)
        else if c.serialize(merged).None? then Fail(s, w, EncodeError)
        else s.(writers := s.writers[w := HasTemp(pc.doc, merged, pc.base, pc.seen, c.serialize(merged).value)])
      else s
    case Replace(w) =>
      if w in s.writers && s.writers[w].HasTemp? then
        var pc := s.writers[w];
        s.(file := Some(pc.temp), writers := s.writers[w := Replaced],
           log := s.log + [Commit(w, pc.base, s.file, pc.temp, pc.asked, pc.doc)])
      else s
    case Release(w) =>
      if w in s.writers && s.writers[w].Replaced?
      then s.(holder := None, writers := s.writers[w := Succeeded])
      else s
    case Break(w) =>
      if w in s.writers && BeforeReplacement(s.writers[w]) then Fail(s, w, IoError)
      else s
  }

  ghost function Run(c: Rules, initial: File, actions: seq<Action>): State {
    if actions == [] then State(initial, None, map[], [])
    else Step(c, Run(c, initial, actions[..|actions| - 1]), actions[|actions| - 1])
  }

  // ---------------------------------------------------------------------------
  // What every interleaving keeps

  /** The hash the caller named is the hash of the bytes replaced; a missing file
      may be named by its own hash or left unnamed. */
  ghost predicate NamesBase(c: Rules, base: Str, replaced: File) {
    base == FileHash(c, replaced) || (replaced.None? && base == [])
  }

  ghost predicate GoodCommit(c: Rules, k: Commit) {
    && NamesBase(c, k.base, k.replaced)
    && c.valid(k.doc)
    && c.parse(k.wrote) == Some(JObject(k.doc))
    && k.doc == c.merge(k.asked, Stored(c, k.replaced))
  }

  ghost predicate LockInvariant(s: State) {
    && (forall w :: w in s.writers && HoldsLock(s.writers[w]) ==> s.holder == Some(w))
    && (s.holder.Some? ==> s.holder.value in s.writers && HoldsLock(s.writers[s.holder.value]))
  }

  ghost predicate Prepared(c: Rules, pc: Pc)
    requires pc.HasTemp?
  {
    && NamesBase(c, pc.base, pc.seen)
    && pc.doc == c.merge(pc.asked, Stored(c, pc.seen))
    && c.serialize(pc.doc) == Some(pc.temp)
  }

  ghost predicate WriterInvariant(c: Rules, s: State, w: nat) {
    w in s.writers ==>
      var pc := s.writers[w];
      && (pc.Waiting? || pc.Locked? || pc.HasRead? || pc.HasTemp? ==> c.valid(pc.doc))
      && (pc.HasRead? || pc.HasTemp? ==> pc.seen == s.file)
      && (pc.HasTemp? ==> Prepared(c, pc))
  }

  ghost predicate Committed(s: State, w: nat) {
    exists k :: 0 <= k < |s.log| && s.log[k].writer == w
  }

  /** The file once these commits are made. */
  function After(initial: File, log: seq<Commit>): File {
    if log == [] then initial else Some(log[|log| - 1].wrote)
  }

  /** The log is a chain of replacements that leads from the initial file to the present one. */
  ghost predicate Chain(initial: File, log: seq<Commit>, file: File) {
    && (forall k :: 0 <= k < |log| ==> log[k].replaced == After(initial, log[..k]))
    && file == After(initial, log)
  }

  ghost predicate Invariant(c: Rules, initial: File, s: State) {
    && LockInvariant(s)
    && (forall w :: WriterInvariant(c, s, w))
    && (forall w :: Committed(s, w) <==> Done(s, w))
    && LogInvariant(c, initial, s)
  }

  lemma LockKept(c: Rules, s: State, a: Action)
    requires LockInvariant(s)
    ensures LockInvariant(Step(c, s, a))
  {
  }

  /** Only the lock's holder can have read the file, so a replacement finds no other reader. */
  lemma WriterKept(c: Rules, s: State, a: Action, w: nat)
    requires Sound(c) && LockInvariant(s) && WriterInvariant(c, s, w)
    ensures WriterInvariant(c, Step(c, s, a), w)
  {
  }

  ghost predicate Done(s: State, w: nat) {
    w in s.writers && (s.writers[w].Replaced? || s.writers[w].Succeeded?)
  }

  lemma DoneKept(c: Rules, s: State, a: Action, w: nat)
    requires Committed(s, w) <==> Done(s, w)
    ensures Committed(Step(c, s, a), w) <==> Done(Step(c, s, a), w)
  {
    var s' := Step(c, s, a);
    if s'.log != s.log {
      CommittedExtends(s, s', s'.log[|s.log|], w);
    }
  }

  /** The log grows only by the compare-and-swap its writer prepared. */
  lemma LogGrows(c: Rules, s: State, a: Action)
    requires Sound(c) && WriterInvariant(c, s, a.writer)
    ensures var s' := Step(c, s, a);
            || (s'.log == s.log && s'.file == s.file)
            || (exists k: Commit :: s'.log == s.log + [k] && s'.file == Some(k.wrote) && k.replaced == s.file
                  && GoodCommit(c, k) && k.writer == a.writer && a.writer in s.writers && s.writers[a.writer].HasTemp?)
  {
    var s' := Step(c, s, a);
    if s'.log != s.log {
      var pc := s.writers[a.writer];
      assert GoodCommit(c, Commit(a.writer, pc.base, s.file, pc.temp, pc.asked, pc.doc));
    }
  }

  ghost predicate LogInvariant(c: Rules, initial: File, s: State) {
    && (forall i, j :: 0 <= i < j < |s.log| ==> s.log[i].writer != s.log[j].writer)
    && (forall k :: 0 <= k < |s.log| ==> GoodCommit(c, s.log[k]))
    && Chain(initial, s.log, s.file)
  }

  lemma LogExtends(c: Rules, initial: File, s: State, s': State, k: Commit)
    requires LogInvariant(c, initial, s)
    requires s'.log == s.log + [k] && s'.file == Some(k.wrote) && k.replaced == s.file && GoodCommit(c, k)
    requires !Committed(s, k.writer)
    ensures LogInvariant(c, initial, s')
  {
    forall i, j | 0 <= i < j < |s'.log|
      ensures s'.log[i].writer != s'.log[j].writer
    {
      assert s'.log[i] == s.log[i];
    }
    forall i | 0 <= i < |s'.log|
      ensures GoodCommit(c, s'.log[i])
    {
      assert i < |s.log| ==> s'.log[i] == s.log[i];
    }
    ChainExtends(initial, s.log, s.file, k);
  }

  lemma ChainExtends(initial: File, log: seq<Commit>, file: File, k: Commit)
    requires Chain(initial, log, file) && k.replaced == file
    ensures Chain(initial, log + [k], Some(k.wrote))
  {
    var longer := log + [k];
    forall i | 0 <= i < |longer|
      ensures longer[i].replaced == After(initial, longer[..i])
    {
      assert longer[..i] == log[..i];
      assert i == |log| ==> log[..i] == log;
    }
  }

  lemma CommittedExtends(s: State, s': State, entry: Commit, v: nat)
    requires s'.log == s.log + [entry]
    ensures Committed(s', v) <==> Committed(s, v) || entry.writer == v
  {
    assert s'.log[|s.log|] == entry;
    if Committed(s, v) {
      var k :| 0 <= k < |s.log| && s.log[k].writer == v;
      assert s'.log[k].writer == v;
    }
  }

  lemma LogKept(c: Rules, initial: File, s: State, a: Action)
    requires Sound(c) && LogInvariant(c, initial, s) && WriterInvariant(c, s, a.writer)
    requires Committed(s, a.writer) <==> Done(s, a.writer)
    ensures LogInvariant(c, initial, Step(c, s, a))
  {
    var s' := Step(c, s, a);
    LogGrows(c, s, a);
    if !(s'.log == s.log && s'.file == s.file) {
      var k: Commit :| s'.log == s.log + [k] && s'.file == Some(k.wrote) && k.replaced == s.file
                  && GoodCommit(c, k) && k.writer == a.writer && a.writer in s.writers && s.writers[a.writer].HasTemp?;
      LogExtends(c, initial, s, s', k);
    }
  }

  lemma StepKeeps(c: Rules, initial: File, s: State, a: Action)
    requires Sound(c) && Invariant(c, initial, s)
    ensures Invariant(c, initial, Step(c, s, a))
  {
    var s' := Step(c, s, a);
    LockKept(c, s, a);
    forall w
      ensures WriterInvariant(c, s', w)
    {
      assert WriterInvariant(c, s, w);
      WriterKept(c, s, a, w);
    }
    forall w
      ensures Committed(s', w) <==> Done(s', w)
    {
      DoneKept(c, s, a, w);
    }
    assert WriterInvariant(c, s, a.writer);
    LogKept(c, initial, s, a);
  }

  lemma {:induction false} RunKeeps(c: Rules, initial: File, actions: seq<Action>)
    requires Sound(c)
    ensures Invariant(c, initial, Run(c, initial, actions))
  {
    if actions != [] {
      var s, a := Run(c, initial, actions[..|actions| - 1]), actions[|actions| - 1];
      RunKeeps(c, initial, actions[..|actions| - 1]);
      StepKeeps(c, initial, s, a);
    }
  }

  /** Main result, for every interleaving of any number of writers: each committed
      set replaced exactly the bytes whose hash it named (or an absent file), the
      commits form one chain with no lost update, each committed document reads back,
      validates and is the requested one with the replaced file's socket merged in, a
      set that reported success committed once, and a set that reported an error never
      committed. */
  lemma EveryCommitIsCompareAndSwap(hash: Bytes -> Str, parse: Bytes -> Option<Json>, serialize: Dict -> Option<Bytes>,
                                    initial: File, actions: seq<Action>)
    requires Codec(hash, parse, serialize)
    ensures var c := PolicyRules(hash, parse, serialize);
            var s := Run(c, initial, actions);
            && (forall k :: 0 <= k < |s.log| ==> GoodCommit(c, s.log[k]))
            && Chain(initial, s.log, s.file)
            && (forall w :: w in s.writers && s.writers[w].Succeeded? ==> Committed(s, w))
            && (forall w :: w in s.writers && s.writers[w].Failed? ==> !Committed(s, w))
            && (forall i, j :: 0 <= i < j < |s.log| ==> s.log[i].writer != s.log[j].writer)
  {
    var c := PolicyRules(hash, parse, serialize);
    PolicyRulesSound(hash, parse, serialize);
    RunKeeps(c, initial, actions);
    var s := Run(c, initial, actions);
    forall w | w in s.writers
      ensures Committed(s, w) <==> Done(s, w)
    {
    }
  }

  // ---------------------------------------------------------------------------
  // A writer nobody disturbs

  /** The writer's own steps, one after the other. */
  ghost function Alone(c: Rules, s: State, w: nat, document: Json, base: Str): State {
    AloneRest(c, AloneRead(c, s, w, document, base), w)
  }

  ghost function AloneRead(c: Rules, s: State, w: nat, document: Json, base: Str): State {
    Step(c, Step(c, Step(c, s, Call(w, document, base)), Acquire(w)), Read(w))
  }

  ghost function AloneRest(c: Rules, s: State, w: nat): State {
    Step(c, Step(c, Step(c, s, Prepare(w)), Replace(w)), Release(w))
  }

  /** What must stop a set of this document over this file, if anything. */
  function Refused(c: Rules, file: File, document: Json, base: Str): Option<Refusal> {
    if !document.JObject? || !c.valid(document.members) then Some(InvalidParam)
    else if file.Some? && base == [] then Some(BaseHashRequired)
    else if base != [] && base != (if file.Some? then c.hash(file.value) else Name("missing:") + c.hash([])) then
      Some(Changed)
    else if c.serialize(c.merge(document.members, Stored(c, file))).None? then Some(EncodeError)
    else None
  }

  lemma AloneEnters(c: Rules, s: State, w: nat, document: Json, base: Str)
    requires s.holder.None? && w !in s.writers && document.JObject? && c.valid(document.members)
    ensures Step(c, s, Call(w, document, base))
         == s.(writers := s.writers[w := Waiting(document.members, PyStrip(base))])
  {}

  lemma AloneLocks(c: Rules, s: State, w: nat)
    requires s.holder.None? && w in s.writers && s.writers[w].Waiting?
    ensures var pc := s.writers[w];
            Step(c, s, Acquire(w)) == s.(holder := Some(w), writers := s.writers[w := Locked(pc.doc, pc.base)])
  {}

  lemma AloneReads(c: Rules, s: State, w: nat)
    requires w in s.writers && s.writers[w].Locked?
    ensures var pc := s.writers[w];
            Step(c, s, Read(w)) == s.(writers := s.writers[w := HasRead(pc.doc, pc.base, s.file)])
  {}

  lemma AlonePrepares(c: Rules, s: State, w: nat, document: Json)
    requires w in s.writers && s.writers[w].HasRead? && s.holder == Some(w) && s.writers[w].seen == s.file
    requires document == JObject(s.writers[w].doc) && c.valid(s.writers[w].doc)
    ensures var pc := s.writers[w];
            var refusal, merged := Refused(c, s.file, document, pc.base), c.merge(pc.doc, Stored(c, s.file));
            Step(c, s, Prepare(w))
            == if refusal.Some? then s.(writers := s.writers[w := Failed(refusal.value)], holder := None)
               else s.(writers := s.writers[w := HasTemp(pc.doc, merged, pc.base, s.file, c.serialize(merged).value)])
  {}

  lemma AloneCommits(c: Rules, s: State, w: nat)
    requires w in s.writers && s.writers[w].HasTemp?
    ensures var pc := s.writers[w];
            var e := Step(c, Step(c, s, Replace(w)), Release(w));
            && e.file == Some(pc.temp) && e.holder == None && w in e.writers && e.writers[w] == Succeeded
            && |e.log| == |s.log| + 1
  {}

  lemma AloneStops(c: Rules, s: State, w: nat)
    requires w in s.writers && s.writers[w].Failed?
    ensures Step(c, s, Acquire(w)) == s && Step(c, s, Read(w)) == s && Step(c, s, Prepare(w)) == s
    ensures Step(c, s, Replace(w)) == s && Step(c, s, Release(w)) == s
  {}

  lemma AloneBegins(c: Rules, s: State, w: nat, document: Json, base: Str)
    requires s.holder.None? && w !in s.writers && document.JObject? && c.valid(document.members)
    ensures var read := AloneRead(c, s, w, document, base);
            && read.file == s.file && read.log == s.log && read.holder == Some(w)
            && w in read.writers && read.writers[w] == HasRead(document.members, PyStrip(base), s.file)
  {
    var called := Step(c, s, Call(w, document, base));
    AloneEnters(c, s, w, document, base);
    AloneLocks(c, called, w);
    AloneReads(c, Step(c, called, Acquire(w)), w);
  }

  lemma AloneEnds(c: Rules, s: State, w: nat, document: Json)
    requires w in s.writers && s.writers[w].HasRead? && s.holder == Some(w) && s.writers[w].seen == s.file
    requires document == JObject(s.writers[w].doc) && c.valid(s.writers[w].doc)
    ensures var e := AloneRest(c, s, w);
            var refusal := Refused(c, s.file, document, s.writers[w].base);
            && e.holder.None? && w in e.writers
            && (refusal.Some? ==> e.writers[w] == Failed(refusal.value) && e.file == s.file && e.log == s.log)
            && (refusal.None? ==>
                  && e.writers[w] == Succeeded
                  && e.file == c.serialize(c.merge(document.members, Stored(c, s.file)))
                  && |e.log| == |s.log| + 1)
  {
    var ready := Step(c, s, Prepare(w));
    AlonePrepares(c, s, w, document);
    if ready.writers[w].Failed? {
      AloneStops(c, ready, w);
    } else {
      AloneCommits(c, ready, w);
    }
  }

  lemma AloneInvalid(c: Rules, s: State, w: nat, document: Json, base: Str)
    requires s.holder.None? && w !in s.writers && !(document.JObject? && c.valid(document.members))
    ensures Alone(c, s, w, document, base) == s.(writers := s.writers[w := Failed(InvalidParam)])
  {
    AloneStops(c, Step(c, s, Call(w, document, base)), w);
  }

  /** Main result: with the lock free, a set that is not stopped writes the requested
      document with the stored socket merged in, and one that is stopped says why and
      leaves the file; either way the lock is free again. */
  lemma AloneDoesSet(c: Rules, s: State, w: nat, document: Json, base: Str)
    requires s.holder.None? && w !in s.writers
    ensures var e := Alone(c, s, w, document, base);
            var refusal := Refused(c, s.file, document, PyStrip(base));
            && e.holder.None? && w in e.writers
            && (refusal.Some? ==> e.writers[w] == Failed(refusal.value) && e.file == s.file && e.log == s.log)
            && (refusal.None? ==>
                  && e.writers[w] == Succeeded
                  && e.file == c.serialize(c.merge(document.members, Stored(c, s.file)))
                  && |e.log| == |s.log| + 1)
  {
    if document.JObject? && c.valid(document.members) {
      AloneBegins(c, s, w, document, base);
      AloneEnds(c, AloneRead(c, s, w, document, base), w, document);
    } else {
      AloneInvalid(c, s, w, document, base);
    }
  }

  // ---------------------------------------------------------------------------
  // One writer, start to end

  class ApprovalsFile {
    var content: File

    constructor (initial: File)
      ensures content == initial
    {
      content := initial;
    }

    /** `handle_system_exec_approvals_set` with the lock held throughout. */
    method Set(c: Rules, document: Json, rawBase: Str) returns (refusal: Option<Refusal>)
      modifies this
      ensures refusal.Some? ==> content == old(content)
      ensures refusal.None? ==>
                && Accepts(c, document) && NamesBase(c, PyStrip(rawBase), old(content))
                && content == c.serialize(c.merge(document.members, Stored(c, old(content)))) && content.Some?
      ensures Accepts(c, document) && NamesBase(c, PyStrip(rawBase), old(content))
              && (old(content).Some? ==> PyStrip(rawBase) != [])
              ==> refusal.None? || refusal.value == EncodeError
      ensures refusal == Some(InvalidParam) <==> !document.JObject? || !c.valid(document.members)
      ensures document.JObject? && c.valid(document.members) ==>
                && (refusal == Some(BaseHashRequired) <==> old(content).Some? && PyStrip(rawBase) == [])
                && (refusal == Some(Changed) <==>
                      PyStrip(rawBase) != [] &&
                      PyStrip(rawBase) != match old(content)
                                          case Some(bytes) => c.hash(bytes)
                                          case None => Name("missing:") + c.hash([]))
    {
      if !Accepts(c, document) {
        return Some(InvalidParam);
      }
      var base := PyStrip(rawBase);
      refusal := CheckBase(c, content, base);
      if refusal.Some? {
        return;
      }
      var merged := c.merge(document.members, Stored(c, content));
      var temp := c.serialize(merged);
      if temp.None? {
        return Some(EncodeError);
      }
      content := temp;
      refusal := None;
    }
  }
}
