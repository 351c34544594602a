/** `fs.glob` (`_glob_matches` and `_iter_matches` in fs.py): an explicit-stack walk
    over open directories that must find what plain recursion finds. */
module GlobWalk {
  import opened Text
  import opened Utf16

  const SLASH: CodePoint := 0x2F
  const DOT: CodePoint := 0x2E
  const STAR: CodePoint := 0x2A

  // ---------------------------------------------------------------------------
  // Patterns

  /** `fnmatchcase(path, pattern)`. */
  type Fnmatch = (Str, Str) -> bool

  predicate StartsWithStars(pattern: Str) {
    |pattern| >= 3 && pattern[0] == STAR && pattern[1] == STAR && pattern[2] == SLASH
  }

  /** The match once no leading `**` component is skipped. */
  predicate PlainMatches(fn: Fnmatch, rel: Str, pattern: Str) {
    (SLASH in pattern || SLASH !in rel) && fn(rel, pattern)
  }

  /** `_glob_matches`. */
  predicate GlobMatches(fn: Fnmatch, rel: Str, pattern: Str)
    decreases |pattern|
  {
    if StartsWithStars(pattern) && GlobMatches(fn, rel, pattern[3..]) then true
    else if SLASH !in pattern then SLASH !in rel && fn(rel, pattern)
    else fn(rel, pattern)
  }

  /** The first `k` components of the pattern are `**`. */
  predicate LeadingStars(pattern: Str, k: nat) {
    3 * k <= |pattern| && forall i :: 0 <= i < k ==> StartsWithStars(pattern[3 * i..])
  }

  lemma StarsSpelled(pattern: Str)
    ensures StartsWithStars(pattern) <==> Name("**/") <= pattern
  {}

  /** A path matches exactly when some number of leading `**` components can be dropped
      so that the rest matches. */
  lemma {:induction false} GlobMatchesExact(fn: Fnmatch, rel: Str, pattern: Str)
    ensures GlobMatches(fn, rel, pattern) <==>
            exists k: nat :: LeadingStars(pattern, k) && PlainMatches(fn, rel, pattern[3 * k..])
    decreases |pattern|
  {
    assert pattern[3 * 0..] == pattern;
    if PlainMatches(fn, rel, pattern) {
      assert LeadingStars(pattern, 0);
    }
    if StartsWithStars(pattern) {
      var rest := pattern[3..];
      GlobMatchesExact(fn, rel, rest);
      if k: nat :| LeadingStars(rest, k) && PlainMatches(fn, rel, rest[3 * k..]) {
        LeadingStarsMore(pattern, k);
        assert pattern[3 * (k + 1)..] == rest[3 * k..];
      }
      forall k: nat | LeadingStars(pattern, k) && PlainMatches(fn, rel, pattern[3 * k..]) && k > 0
        ensures GlobMatches(fn, rel, rest)
      {
        LeadingStarsLess(pattern, k);
        assert pattern[3 * k..] == rest[3 * (k - 1)..];
      }
    } else {
      forall k: nat | LeadingStars(pattern, k)
        ensures k == 0
      {
        FirstStars(pattern, k);
      }
    }
  }

  lemma FirstStars(pattern: Str, k: nat)
    requires LeadingStars(pattern, k)
    ensures k > 0 ==> StartsWithStars(pattern)
  {
    if k > 0 {
      assert pattern[3 * 0..] == pattern;
    }
  }

  lemma LeadingStarsMore(pattern: Str, k: nat)
    requires StartsWithStars(pattern) && LeadingStars(pattern[3..], k)
    ensures LeadingStars(pattern, k + 1)
  {
    forall i | 0 <= i < k + 1
      ensures StartsWithStars(pattern[3 * i..])
    {
      if i == 0 {
        assert pattern[3 * 0..] == pattern;
      } else {
        assert pattern[3 * i..] == pattern[3..][3 * (i - 1)..];
      }
    }
  }

  lemma LeadingStarsLess(pattern: Str, k: nat)
    requires LeadingStars(pattern, k) && k > 0
    ensures LeadingStars(pattern[3..], k - 1)
  {
    forall i | 0 <= i < k - 1
      ensures StartsWithStars(pattern[3..][3 * i..])
    {
      assert pattern[3..][3 * i..] == pattern[3 * (i + 1)..];
    }
  }

  // ---------------------------------------------------------------------------
  // Directories

  /** A file, a link or an unreadable directory is a leaf. */
  datatype Node = Leaf | Dir(entries: seq<DirEntry>)

  datatype DirEntry = DirEntry(name: Str, node: Node)

  /** What the caller asked for. */
  datatype Query = Query(fn: Fnmatch, pattern: Str, hidden: bool)

  predicate Visible(q: Query, e: DirEntry) {
    q.hidden || !(e.name != [] && e.name[0] == DOT)
  }

  function RelPath(prefix: Str, name: Str): Str {
    if prefix == [] then name else prefix + [SLASH] + name
  }

  function Own(q: Query, path: Str): multiset<Str> {
    if GlobMatches(q.fn, path, q.pattern) then multiset{path} else multiset{}
  }

  /** Plain recursion over a directory's entries. */
  function Matched(q: Query, entries: seq<DirEntry>, prefix: Str): multiset<Str>
    decreases entries
  {
    if entries == [] then multiset{}
    else EntryMatched(q, entries[0], prefix) + Matched(q, entries[1..], prefix)
  }

  function EntryMatched(q: Query, e: DirEntry, prefix: Str): multiset<Str>
    decreases e
  {
    if !Visible(q, e) then multiset{}
    else
      var path := RelPath(prefix, e.name);
      Own(q, path) + match e.node case Leaf => multiset{} case Dir(entries) => Matched(q, entries, path)
  }

  // ---------------------------------------------------------------------------
  // What the recursion finds

  /** The names lead down from the entries through visible directories to a visible entry. */
  predicate Trail(q: Query, entries: seq<DirEntry>, names: seq<Str>)
    decreases |names|
  {
    names != [] && exists i :: 0 <= i < |entries| && Steps(q, entries[i], names)
  }

  predicate Steps(q: Query, e: DirEntry, names: seq<Str>)
    requires names != []
    decreases |names|, 0
  {
    Visible(q, e) && e.name == names[0] && (|names| == 1 || (e.node.Dir? && Trail(q, e.node.entries, names[1..])))
  }

  function PathOf(prefix: Str, names: seq<Str>): Str
    requires names != []
    decreases |names|
  {
    if |names| == 1 then RelPath(prefix, names[0]) else PathOf(RelPath(prefix, names[0]), names[1..])
  }

  /** Every path found is a visible path that matches. */
  lemma {:induction false} FoundIsTrail(q: Query, entries: seq<DirEntry>, prefix: Str, p: Str) returns (names: seq<Str>)
    requires p in Matched(q, entries, prefix)
    ensures Trail(q, entries, names) && PathOf(prefix, names) == p && GlobMatches(q.fn, p, q.pattern)
    decreases entries
  {
    var e := entries[0];
    if p in EntryMatched(q, e, prefix) {
      names := FoundSteps(q, e, prefix, p);
    } else {
      names := FoundIsTrail(q, entries[1..], prefix, p);
      var i :| 0 <= i < |entries[1..]| && Steps(q, entries[1..][i], names);
      assert Steps(q, entries[i + 1], names);
    }
  }

  lemma {:induction false} FoundSteps(q: Query, e: DirEntry, prefix: Str, p: Str) returns (names: seq<Str>)
    requires p in EntryMatched(q, e, prefix)
    ensures names != [] && Steps(q, e, names) && PathOf(prefix, names) == p && GlobMatches(q.fn, p, q.pattern)
    decreases e
  {
    var path := RelPath(prefix, e.name);
    if p in Own(q, path) {
      names := [e.name];
    } else {
      var below := FoundIsTrail(q, e.node.entries, path, p);
      names := [e.name] + below;
      assert names[1..] == below;
    }
  }

  /** Every visible path that matches is found. */
  lemma {:induction false} TrailIsFound(q: Query, entries: seq<DirEntry>, prefix: Str, names: seq<Str>)
    requires Trail(q, entries, names) && GlobMatches(q.fn, PathOf(prefix, names), q.pattern)
    ensures PathOf(prefix, names) in Matched(q, entries, prefix)
    decreases |names|, |entries|
  {
    if Steps(q, entries[0], names) {
      if |names| > 1 {
        TrailIsFound(q, entries[0].node.entries, RelPath(prefix, entries[0].name), names[1..]);
      }
    } else {
      var i :| 0 <= i < |entries| && Steps(q, entries[i], names);
      assert entries[1..][i - 1] == entries[i];
      TrailIsFound(q, entries[1..], prefix, names);
    }
  }

  /** The names lead down through directories to an entry, hidden or not. */
  predicate Leads(entries: seq<DirEntry>, names: seq<Str>)
    decreases |names|
  {
    names != [] && exists i :: 0 <= i < |entries| && EntryLeads(entries[i], names)
  }

  predicate EntryLeads(e: DirEntry, names: seq<Str>)
    requires names != []
    decreases |names|, 0
  {
    e.name == names[0] && (|names| == 1 || (e.node.Dir? && Leads(e.node.entries, names[1..])))
  }

  /** The caller sees a path with these components: it asked for hidden entries, or no
      component starts with a dot. */
  predicate Shown(hidden: bool, names: seq<Str>) {
    hidden || forall i :: 0 <= i < |names| ==> !(Name(".") <= names[i])
  }

  lemma ShownRest(hidden: bool, names: seq<Str>)
    requires names != []
    ensures Shown(hidden, names) <==> (hidden || !(Name(".") <= names[0])) && Shown(hidden, names[1..])
  {
    assert forall i :: 0 < i < |names| ==> names[i] == names[1..][i - 1];
    assert forall i :: 0 <= i < |names| - 1 ==> names[1..][i] == names[i + 1];
  }

  lemma {:induction false} TrailIsShown(q: Query, entries: seq<DirEntry>, names: seq<Str>)
    ensures Trail(q, entries, names) <==> Leads(entries, names) && Shown(q.hidden, names)
    decreases |names|
  {
    if names != [] {
      ShownRest(q.hidden, names);
      forall i | 0 <= i < |entries|
        ensures Steps(q, entries[i], names) <==> EntryLeads(entries[i], names) && Shown(q.hidden, names)
      {
        VisibleSpelled(q, entries[i]);
        if |names| > 1 && entries[i].node.Dir? {
          TrailIsShown(q, entries[i].node.entries, names[1..]);
        }
      }
    }
  }

  lemma VisibleSpelled(q: Query, e: DirEntry)
    ensures Visible(q, e) <==> q.hidden || !(Name(".") <= e.name)
  {}

  /** The recursion finds exactly the paths the caller sees that match. */
  lemma FoundExactly(q: Query, root: seq<DirEntry>, p: Str)
    ensures p in Matched(q, root, []) <==>
            && GlobMatches(q.fn, p, q.pattern)
            && exists names :: Leads(root, names) && Shown(q.hidden, names) && PathOf([], names) == p
  {
    if p in Matched(q, root, []) {
      var names := FoundIsTrail(q, root, [], p);
      TrailIsShown(q, root, names);
    }
    forall names | Leads(root, names) && Shown(q.hidden, names) && PathOf([], names) == p
      ensures GlobMatches(q.fn, p, q.pattern) ==> p in Matched(q, root, [])
    {
      TrailIsShown(q, root, names);
      if GlobMatches(q.fn, p, q.pattern) {
        TrailIsFound(q, root, [], names);
      }
    }
  }

  /** A path is its components with slashes between them. */
  lemma {:induction false} PathIsJoined(prefix: Str, names: seq<Str>)
    requires names != [] && forall n :: n in names ==> n != []
    ensures PathOf(prefix, names) == (if prefix == [] then [] else prefix + Name("/")) + Join(names, '/' as int)
    decreases |names|
  {
    var first := RelPath(prefix, names[0]);
    assert names[0] in names;
    if |names| > 1 {
      assert forall n :: n in names[1..] ==> n in names;
      PathIsJoined(first, names[1..]);
      JoinedStep(prefix, names[0], Join(names[1..], SLASH));
    } else if prefix != [] {
      Assoc(prefix, [SLASH], names[0]);
    }
  }

  lemma JoinedStep(prefix: Str, name: Str, rest: Str)
    requires name != []
    ensures RelPath(prefix, name) + [SLASH] + rest
         == (if prefix == [] then [] else prefix + [SLASH]) + (name + ([SLASH] + rest))
  {}

  /** Sibling names are distinct, not empty and hold no slash, at every level. */
  predicate ProperNames(entries: seq<DirEntry>)
    decreases entries
  {
    && (forall i, j :: 0 <= i < j < |entries| ==> entries[i].name != entries[j].name)
    && (forall i :: 0 <= i < |entries| ==> entries[i].name != [] && SLASH !in entries[i].name)
    && (forall i :: 0 <= i < |entries| ==> entries[i].node.Dir? ==> ProperNames(entries[i].node.entries))
  }

  predicate Under(p: Str, base: Str) {
    base <= p && (|p| == |base| || p[|base|] == SLASH)
  }

  lemma {:induction false} FoundUnder(q: Query, entries: seq<DirEntry>, prefix: Str, p: Str) returns (i: nat)
    requires p in Matched(q, entries, prefix) && ProperNames(entries)
    ensures i < |entries| && Under(p, RelPath(prefix, entries[i].name))
    decreases entries
  {
    if p in EntryMatched(q, entries[0], prefix) {
      EntryUnder(q, entries[0], prefix, p);
      i := 0;
    } else {
      ProperRest(entries);
      i := FoundUnder(q, entries[1..], prefix, p);
      i := i + 1;
    }
  }

  lemma ProperRest(entries: seq<DirEntry>)
    requires ProperNames(entries) && entries != []
    ensures ProperNames(entries[1..])
  {
    var rest := entries[1..];
    assert forall i :: 0 <= i < |rest| ==> rest[i] == entries[i + 1];
  }

  predicate ProperEntry(e: DirEntry) {
    e.name != [] && SLASH !in e.name && (e.node.Dir? ==> ProperNames(e.node.entries))
  }

  lemma {:induction false} EntryUnder(q: Query, e: DirEntry, prefix: Str, p: Str)
    requires p in EntryMatched(q, e, prefix) && ProperEntry(e)
    ensures Under(p, RelPath(prefix, e.name))
    decreases e
  {
    var path := RelPath(prefix, e.name);
    if p !in Own(q, path) {
      var i := FoundUnder(q, e.node.entries, path, p);
      UnderParent(p, path, e.node.entries[i].name);
    }
  }

  lemma UnderParent(p: Str, path: Str, name: Str)
    requires Under(p, RelPath(path, name)) && path != []
    ensures Under(p, path) && |p| > |path|
  {}

  function UpToSlash(s: Str): Str {
    if s == [] || s[0] == SLASH then [] else [s[0]] + UpToSlash(s[1..])
  }

  lemma {:induction false} UpToSlashIs(a: Str, s: Str)
    requires SLASH !in a && Under(s, a)
    ensures UpToSlash(s) == a
  {
    if a != [] {
      assert s[0] == a[0] && a[0] in a;
      assert forall c :: c in a[1..] ==> c in a;
      assert a[1..] <= s[1..] by {
        assert forall i :: 0 <= i < |a| - 1 ==> a[1..][i] == a[i + 1] && s[1..][i] == s[i + 1];
      }
      UpToSlashIs(a[1..], s[1..]);
      assert a == [a[0]] + a[1..];
    }
  }

  /** The name of the sibling a path is under. */
  lemma SiblingOf(p: Str, prefix: Str, a: Str)
    requires Under(p, RelPath(prefix, a)) && SLASH !in a
    ensures var k := if prefix == [] then 0 else |prefix| + 1; k <= |p| && UpToSlash(p[k..]) == a
  {
    var k := if prefix == [] then 0 else |prefix| + 1;
    assert RelPath(prefix, a)[k..] == a;
    assert a <= p[k..];
    UpToSlashIs(a, p[k..]);
  }

  /** The paths found are a set: none is found twice. */
  lemma {:induction false} FoundOnce(q: Query, entries: seq<DirEntry>, prefix: Str, p: Str)
    requires ProperNames(entries)
    ensures Matched(q, entries, prefix)[p] <= 1
    decreases entries
  {
    if entries != [] {
      var e := entries[0];
      ProperRest(entries);
      EntryFoundOnce(q, e, prefix, p);
      FoundOnce(q, entries[1..], prefix, p);
      if p in EntryMatched(q, e, prefix) {
        EntryUnder(q, e, prefix, p);
        SiblingOf(p, prefix, e.name);
        NotAmongOthers(q, entries, prefix, p);
      }
    }
  }

  lemma NotAmongOthers(q: Query, entries: seq<DirEntry>, prefix: Str, p: Str)
    requires ProperNames(entries) && entries != [] && Under(p, RelPath(prefix, entries[0].name))
    ensures p !in Matched(q, entries[1..], prefix)
  {
    ProperRest(entries);
    SiblingOf(p, prefix, entries[0].name);
    if p in Matched(q, entries[1..], prefix) {
      var i := FoundUnder(q, entries[1..], prefix, p);
      SiblingOf(p, prefix, entries[1..][i].name);
    }
  }

  lemma {:induction false} EntryFoundOnce(q: Query, e: DirEntry, prefix: Str, p: Str)
    requires ProperEntry(e)
    ensures EntryMatched(q, e, prefix)[p] <= 1
    decreases e
  {
    var path := RelPath(prefix, e.name);
    if Visible(q, e) && e.node.Dir? {
      FoundOnce(q, e.node.entries, path, p);
      if p in Matched(q, e.node.entries, path) {
        var i := FoundUnder(q, e.node.entries, path, p);
        UnderParent(p, path, e.node.entries[i].name);
        assert p != path;
      }
    }
  }

  // ---------------------------------------------------------------------------
  // Sorting

  /** Paths as entries sorted by themselves. */
  function PathEntries(ps: seq<Str>): (r: seq<Entry<Str>>)
    ensures |r| == |ps|
    ensures forall i :: 0 <= i < |ps| ==> r[i] == Entry(ps[i], ps[i])
  {
    seq(|ps|, i requires 0 <= i < |ps| => Entry(ps[i], ps[i]))
  }

  /** `sorted(paths)`. */
  function SortPaths(ps: seq<Str>): seq<Str> {
    Items(Sort(PathEntries(ps)))
  }

  lemma SortPathsSorts(ps: seq<Str>)
    ensures Sorted(PathEntries(SortPaths(ps))) && multiset(SortPaths(ps)) == multiset(ps)
  {
    var es := PathEntries(ps);
    SortSorts(es);
    forall e | e in Sort(es)
      ensures e.order == e.item
    {
      assert e in multiset(es);
    }
    assert PathEntries(SortPaths(ps)) == Sort(es) && Items(es) == ps;
    SortKeepsItems(es);
  }

  // ---------------------------------------------------------------------------
  // The walk

  /** An open directory: its descriptor, its path and what scanning it gives. */
  datatype Frame = Frame(fd: nat, prefix: Str, entries: seq<DirEntry>)

  function Pending(q: Query, stack: seq<Frame>): multiset<Str> {
    if stack == [] then multiset{}
    else
      var top := stack[|stack| - 1];
      Pending(q, stack[..|stack| - 1]) + Matched(q, top.entries, top.prefix)
  }

  function Fds(stack: seq<Frame>): (r: seq<nat>)
    ensures |r| == |stack|
    ensures forall i :: 0 <= i < |stack| ==> r[i] == stack[i].fd
  {
    seq(|stack|, i requires 0 <= i < |stack| => stack[i].fd)
  }

  /** The descriptors handed out so far: `0` up to `n`. */
  function Opened(n: nat): multiset<nat> {
    if n == 0 then multiset{} else Opened(n - 1) + multiset{n - 1}
  }

  lemma {:induction false} OpenedOnce(n: nat, fd: nat)
    ensures Opened(n)[fd] == if fd < n then 1 else 0
  {
    if n > 0 {
      OpenedOnce(n - 1, fd);
    }
  }

  lemma PendingMore(q: Query, stack: seq<Frame>, f: Frame)
    ensures Pending(q, stack + [f]) == Pending(q, stack) + Matched(q, f.entries, f.prefix)
  {
    assert (stack + [f])[..|stack|] == stack;
  }

  function Count(entries: seq<DirEntry>): nat {
    if entries == [] then 0 else EntryCount(entries[0]) + Count(entries[1..])
  }

  function EntryCount(e: DirEntry): nat {
    1 + match e.node case Leaf => 0 case Dir(entries) => Count(entries)
  }

  /** How much is left to scan. */
  function Size(stack: seq<Frame>): nat {
    if stack == [] then 0 else Size(stack[..|stack| - 1]) + 1 + Count(stack[|stack| - 1].entries)
  }

  lemma SizeMore(stack: seq<Frame>, f: Frame)
    ensures Size(stack + [f]) == Size(stack) + 1 + Count(f.entries)
  {
    assert (stack + [f])[..|stack|] == stack;
  }

  /** What one scanned entry adds to the matches and leaves on the stack. */
  function Pushes(q: Query, e: DirEntry, prefix: Str, fd: nat): seq<Frame> {
    if Visible(q, e) && e.node.Dir? then [Frame(fd, RelPath(prefix, e.name), e.node.entries)] else []
  }

  function Adds(q: Query, e: DirEntry, prefix: Str): seq<Str> {
    if Visible(q, e) && GlobMatches(q.fn, RelPath(prefix, e.name), q.pattern) then [RelPath(prefix, e.name)] else []
  }

  lemma EntryStep(q: Query, stack: seq<Frame>, e: DirEntry, prefix: Str, fd: nat)
    ensures multiset(Adds(q, e, prefix)) + Pending(q, stack + Pushes(q, e, prefix, fd))
         == Pending(q, stack) + EntryMatched(q, e, prefix)
  {
    if Pushes(q, e, prefix, fd) != [] {
      PendingMore(q, stack, Pushes(q, e, prefix, fd)[0]);
    } else {
      assert stack + [] == stack;
    }
  }

  lemma FdsMore(stack: seq<Frame>, f: Frame)
    ensures multiset(Fds(stack + [f])) == multiset(Fds(stack)) + multiset{f.fd}
  {
    assert Fds(stack + [f]) == Fds(stack) + [f.fd];
  }

  /** The matches found, those still under the stack and those still in the directory
      being scanned make up the goal. */
  ghost predicate Accounted(q: Query, goal: multiset<Str>, matches: seq<Str>, stack: seq<Frame>, left: multiset<Str>) {
    multiset(matches) + Pending(q, stack) + left == goal
  }

  /** The open descriptors and the given others are all those handed out. */
  ghost predicate AllFds(stack: seq<Frame>, others: multiset<nat>, issued: nat) {
    multiset(Fds(stack)) + others == Opened(issued)
  }

  lemma ChildStep(q: Query, goal: multiset<Str>, matches: seq<Str>, stack: seq<Frame>, left: seq<DirEntry>, prefix: Str,
                  matches': seq<Str>, stack': seq<Frame>, fd: nat)
    requires left != [] && Accounted(q, goal, matches, stack, Matched(q, left, prefix))
    requires matches' == matches + Adds(q, left[0], prefix) && stack' == stack + Pushes(q, left[0], prefix, fd)
    ensures Accounted(q, goal, matches', stack', Matched(q, left[1..], prefix))
    ensures multiset(matches') <= goal
  {
    var added := Adds(q, left[0], prefix);
    EntryStep(q, stack, left[0], prefix, fd);
    assert multiset(matches') == multiset(matches) + multiset(added);
    MoveOver(goal, multiset(matches), Pending(q, stack), Matched(q, left, prefix), EntryMatched(q, left[0], prefix),
             multiset(added), Pending(q, stack'), Matched(q, left[1..], prefix));
  }

  lemma MoveOver(
    goal: multiset<Str>, found: multiset<Str>, pending: multiset<Str>, left: multiset<Str>, one: multiset<Str>,
    added: multiset<Str>, pending': multiset<Str>, left': multiset<Str>)
    requires found + pending + left == goal && left == one + left' && added + pending' == pending + one
    ensures found + added + pending' + left' == goal && found + added <= goal
  {
    assert found + added + pending' + left' == found + (added + pending') + left';
  }

  lemma ChildFds(
    q: Query, stack: seq<Frame>, others: multiset<nat>, e: DirEntry, prefix: Str, issued: nat, stack': seq<Frame>,
    issued': nat)
    requires AllFds(stack, others, issued) && stack' == stack + Pushes(q, e, prefix, issued)
    requires issued' == issued + |Pushes(q, e, prefix, issued)|
    ensures AllFds(stack', others, issued')
  {
    var pushed := Pushes(q, e, prefix, issued);
    if pushed != [] {
      FdsMore(stack, pushed[0]);
      assert stack' == stack + [pushed[0]];
    } else {
      assert stack' == stack;
    }
  }

  lemma ChildSize(q: Query, stack: seq<Frame>, left: seq<DirEntry>, prefix: Str, fd: nat, stack': seq<Frame>)
    requires left != [] && stack' == stack + Pushes(q, left[0], prefix, fd)
    ensures Size(stack') + Count(left[1..]) <= Size(stack) + Count(left)
  {
    var pushed := Pushes(q, left[0], prefix, fd);
    if pushed != [] {
      SizeMore(stack, pushed[0]);
      assert stack' == stack + [pushed[0]];
    } else {
      assert stack' == stack;
    }
  }

  ghost predicate Scanning(
    q: Query, goal: multiset<Str>, others: multiset<nat>, bound: int, left: seq<DirEntry>, prefix: Str,
    matches: seq<Str>, stack: seq<Frame>, issued: nat)
  {
    && AllFds(stack, others, issued)
    && Accounted(q, goal, matches, stack, Matched(q, left, prefix))
    && Size(stack) + Count(left) <= bound
  }

  lemma NextChild(
    q: Query, goal: multiset<Str>, others: multiset<nat>, bound: int, left: seq<DirEntry>, prefix: Str,
    matches: seq<Str>, stack: seq<Frame>, issued: nat, matches': seq<Str>, stack': seq<Frame>, issued': nat)
    requires left != [] && Scanning(q, goal, others, bound, left, prefix, matches, stack, issued)
    requires matches' == matches + Adds(q, left[0], prefix) && stack' == stack + Pushes(q, left[0], prefix, issued)
    requires issued' == issued + |Pushes(q, left[0], prefix, issued)|
    ensures Scanning(q, goal, others, bound, left[1..], prefix, matches', stack', issued')
  {
    ChildStep(q, goal, matches, stack, left, prefix, matches', stack', issued);
    ChildFds(q, stack, others, left[0], prefix, issued, stack', issued');
    ChildSize(q, stack, left, prefix, issued, stack');
  }

  /** One scanned entry: a match past the cap stops before the directory is opened. */
  method ScanChild(
    q: Query, child: DirEntry, prefix: Str, cap: nat, matches0: seq<Str>, stack0: seq<Frame>, issued0: nat)
    returns (matches: seq<Str>, stack: seq<Frame>, issued: nat)
    requires |matches0| <= cap
    ensures matches == matches0 + Adds(q, child, prefix)
    ensures |matches| > cap ==> |matches| == cap + 1 && stack == stack0 && issued == issued0
    ensures |matches| <= cap ==>
              && stack == stack0 + Pushes(q, child, prefix, issued0)
              && issued == issued0 + |Pushes(q, child, prefix, issued0)|
  {
    matches, stack, issued := matches0, stack0, issued0;
    if !Visible(q, child) {
      return;
    }
    var path := RelPath(prefix, child.name);
    if GlobMatches(q.fn, path, q.pattern) {
      matches := matches + [path];
      if |matches| > cap {
        return;
      }
    }
    if child.node.Dir? {
      stack := stack + [Frame(issued, path, child.node.entries)];
      issued := issued + 1;
    }
  }

  /** Scanning one directory, which stops early only past the cap. */
  method Scan(q: Query, dir: Frame, cap: nat, matches0: seq<Str>, stack0: seq<Frame>, issued0: nat,
              ghost goal: multiset<Str>, ghost others: multiset<nat>)
    returns (matches: seq<Str>, stack: seq<Frame>, issued: nat)
    requires |matches0| <= cap && AllFds(stack0, others, issued0)
    requires Accounted(q, goal, matches0, stack0, Matched(q, dir.entries, dir.prefix))
    ensures AllFds(stack, others, issued) && Size(stack) <= Size(stack0) + Count(dir.entries)
    ensures |matches| <= cap ==> Accounted(q, goal, matches, stack, multiset{})
    ensures |matches| > cap ==> |matches| == cap + 1 && multiset(matches) <= goal
  {
    matches, stack, issued := matches0, stack0, issued0;
    var left := dir.entries;
    ghost var bound := Size(stack0) + Count(left);
    while left != []
      invariant |matches| <= cap
      invariant Scanning(q, goal, others, bound, left, dir.prefix, matches, stack, issued)
    {
      ghost var m0, s0, n0 := matches, stack, issued;
      matches, stack, issued := ScanChild(q, left[0], dir.prefix, cap, matches, stack, issued);
      if |matches| > cap {
        ChildStep(q, goal, m0, s0, left, dir.prefix, matches, s0 + Pushes(q, left[0], dir.prefix, n0), n0);
        return;
      }
      NextChild(q, goal, others, bound, left, dir.prefix, m0, s0, n0, matches, stack, issued);
      left := left[1..];
    }
  }

  lemma PopFrame(
    q: Query, goal: multiset<Str>, matches: seq<Str>, rest: seq<Frame>, dir: Frame, closed: seq<nat>, issued: nat)
    requires Accounted(q, goal, matches, rest + [dir], multiset{}) && AllFds(rest + [dir], multiset(closed), issued)
    ensures Accounted(q, goal, matches, rest, Matched(q, dir.entries, dir.prefix))
    ensures AllFds(rest, multiset(closed + [dir.fd]), issued)
    ensures Size(rest) + Count(dir.entries) < Size(rest + [dir])
  {
    PendingMore(q, rest, dir);
    FdsMore(rest, dir);
    SizeMore(rest, dir);
  }

  lemma RootFrame(q: Query, root: seq<DirEntry>)
    ensures var stack := [Frame(0, [], root)];
            Accounted(q, Matched(q, root, []), [], stack, multiset{}) && AllFds(stack, multiset([]), 1)
  {
    var dir := Frame(0, [], root);
    PendingMore(q, [], dir);
    FdsMore([], dir);
    assert [] + [dir] == [dir];
    assert Opened(1) == Opened(0) + multiset{0};
  }

  lemma AllClosed(stack: seq<Frame>, closed: seq<nat>, issued: nat)
    requires AllFds(stack, multiset(closed), issued)
    ensures forall fd: nat :: multiset(closed + Fds(stack))[fd] == if fd < issued then 1 else 0
  {
    assert multiset(closed + Fds(stack)) == Opened(issued);
    forall fd: nat
      ensures Opened(issued)[fd] == if fd < issued then 1 else 0
    {
      OpenedOnce(issued, fd);
    }
  }

  lemma PrefixOf(matches: seq<Str>, cap: nat, goal: multiset<Str>)
    requires cap <= |matches| && multiset(matches) <= goal
    ensures multiset(matches[..cap]) <= goal && |matches| <= |goal|
  {
    assert matches == matches[..cap] + matches[cap..];
    assert |multiset(matches)| == |matches|;
    assert goal == multiset(matches) + (goal - multiset(matches));
  }

  /** `_iter_matches`: the sorted matches of the whole tree unless there are more than
      the cap, in which case the walk reports truncation and returns `cap` of them;
      and every descriptor it opened is closed exactly once. */
  method IterMatches(q: Query, root: seq<DirEntry>, cap: nat)
      returns (matches: seq<Str>, truncated: bool, issued: nat, closed: seq<nat>)
    ensures truncated <==> |Matched(q, root, [])| > cap
    ensures !truncated ==> multiset(matches) == Matched(q, root, [])
    ensures truncated ==> |matches| == cap && multiset(matches) <= Matched(q, root, [])
    ensures Sorted(PathEntries(matches))
    ensures forall fd: nat :: multiset(closed)[fd] == if fd < issued then 1 else 0
  {
    matches, issued, closed := [], 1, [];
    var stack := [Frame(0, [], root)];
    ghost var goal := Matched(q, root, []);
    RootFrame(q, root);
    while stack != [] && |matches| <= cap
      invariant |matches| <= cap ==> Accounted(q, goal, matches, stack, multiset{})
      invariant |matches| > cap ==> |matches| == cap + 1 && multiset(matches) <= goal
      invariant AllFds(stack, multiset(closed), issued)
      decreases Size(stack)
    {
      var dir, rest := stack[|stack| - 1], stack[..|stack| - 1];
      assert stack == rest + [dir];
      PopFrame(q, goal, matches, rest, dir, closed, issued);
      closed := closed + [dir.fd];
      matches, stack, issued := Scan(q, dir, cap, matches, rest, issued, goal, multiset(closed));
    }
    AllClosed(stack, closed, issued);
    closed := closed + Fds(stack);
    truncated := |matches| > cap;
    if truncated {
      PrefixOf(matches, cap, goal);
      matches := matches[..cap];
    } else {
      assert multiset(matches) == goal;
      assert |multiset(matches)| == |matches|;
    }
    SortPathsSorts(matches);
    ghost var found := matches;
    matches := SortPaths(matches);
    assert |multiset(matches)| == |matches| && |multiset(found)| == |found|;
  }
}
