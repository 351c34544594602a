/** The scrub that keeps a user's text from forging the authorization block
    (`apply_turn_authz` in authz.py). */
module MarkerScrub {
  import opened Text

  // ---------------------------------------------------------------------------
  // The marker phrase: `openclaw\s+authorization\s+context`, ignoring case

  /** Case-insensitive match of a lowercase letter; both Turkish i's match `i`. */
  predicate SameLetter(c: CodePoint, letter: CodePoint) {
    c == letter || c + 0x20 == letter || (letter == 0x69 && c in {0x130, 0x131})
  }

  predicate LowerWord(word: Str) {
    word != [] && forall i :: 0 <= i < |word| ==> 0x61 <= word[i] <= 0x7A
  }

  type Word = w: Str | LowerWord(w) witness [0x61]

  predicate StartsWith(t: Str, word: Word) {
    |word| <= |t| && forall i :: 0 <= i < |word| ==> SameLetter(t[i], word[i])
  }

  function SpaceRun(t: Str): (n: nat)
    ensures n <= |t|
    ensures forall i :: 0 <= i < n ==> PyWhitespace(t[i])
    ensures n < |t| ==> !PyWhitespace(t[n])
  {
    if t != [] && PyWhitespace(t[0]) then 1 + SpaceRun(t[1..]) else 0
  }

  /** Length of the phrase at the start of the text, or 0. */
  function PhraseLength(t: Str, words: seq<Word>): (n: nat)
    ensures n <= |t|
    decreases |words|, 0
  {
    if words == [] || !StartsWith(t, words[0]) then 0
    else if |words| == 1 then |words[0]|
    else
      var more := AfterGap(t[|words[0]|..], words[1..]);
      if more == 0 then 0 else |words[0]| + more
  }

  /** The same after at least one whitespace character. */
  function AfterGap(t: Str, words: seq<Word>): (n: nat)
    ensures n <= |t|
    decreases |words|, 1
  {
    var gap := SpaceRun(t);
    var more := PhraseLength(t[gap..], words);
    if gap == 0 || more == 0 then 0 else gap + more
  }

  function Marker(): seq<Word> {
    var openclaw: Word := [0x6F, 0x70, 0x65, 0x6E, 0x63, 0x6C, 0x61, 0x77];
    var authorization: Word := [0x61, 0x75, 0x74, 0x68, 0x6F, 0x72, 0x69, 0x7A, 0x61, 0x74, 0x69, 0x6F, 0x6E];
    var context: Word := [0x63, 0x6F, 0x6E, 0x74, 0x65, 0x78, 0x74];
    [openclaw, authorization, context]
  }

  predicate Bracket(c: CodePoint) {
    c == OPEN_BRACKET || c == CLOSE_BRACKET
  }

  /** No match holds a bracket. */
  lemma {:induction false} PhrasePlain(t: Str, words: seq<Word>)
    ensures forall i :: 0 <= i < PhraseLength(t, words) ==> !Bracket(t[i])
    decreases |words|, 0
  {
    if PhraseLength(t, words) > 0 && |words| > 1 {
      var w := |words[0]|;
      GapPlain(t[w..], words[1..]);
      forall i | 0 <= i < PhraseLength(t, words)
        ensures !Bracket(t[i])
      {
        assert w <= i ==> t[i] == t[w..][i - w];
      }
    }
  }

  lemma {:induction false} GapPlain(t: Str, words: seq<Word>)
    ensures forall i :: 0 <= i < AfterGap(t, words) ==> !Bracket(t[i])
    decreases |words|, 1
  {
    var gap := SpaceRun(t);
    PhrasePlain(t[gap..], words);
    forall i | 0 <= i < AfterGap(t, words)
      ensures !Bracket(t[i])
    {
      assert gap <= i ==> t[i] == t[gap..][i - gap];
    }
  }

  lemma {:induction false} SpaceRunLocal(a: Str, b: Str)
    requires SpaceRun(a) < |a| && SpaceRun(a) < |b| && forall i :: 0 <= i <= SpaceRun(a) ==> a[i] == b[i]
    ensures SpaceRun(b) == SpaceRun(a)
  {
    if a[0] == b[0] && PyWhitespace(a[0]) {
      SpaceRunLocal(a[1..], b[1..]);
    }
  }

  ghost predicate SameStart(s: Str, t: Str, n: nat) {
    n <= |s| && n <= |t| && forall i :: 0 <= i < n ==> s[i] == t[i]
  }

  lemma SameStartDrop(s: Str, t: Str, n: nat, k: nat)
    requires SameStart(s, t, n) && k <= n
    ensures SameStart(s[k..], t[k..], n - k)
  {}

  /** Whether and how far the phrase matches depends only on the matched text. */
  lemma {:induction false} PhraseLocal(s: Str, t: Str, words: seq<Word>)
    requires PhraseLength(s, words) > 0 && SameStart(s, t, PhraseLength(s, words))
    ensures PhraseLength(t, words) == PhraseLength(s, words)
    decreases |words|, 0
  {
    var w := |words[0]|;
    assert StartsWith(t, words[0]);
    if |words| > 1 {
      SameStartDrop(s, t, PhraseLength(s, words), w);
      GapLocal(s[w..], t[w..], words[1..]);
    }
  }

  lemma {:induction false} GapLocal(s: Str, t: Str, words: seq<Word>)
    requires AfterGap(s, words) > 0 && SameStart(s, t, AfterGap(s, words))
    ensures AfterGap(t, words) == AfterGap(s, words)
    decreases |words|, 1
  {
    var gap := SpaceRun(s);
    SpaceRunLocal(s, t);
    SameStartDrop(s, t, AfterGap(s, words), gap);
    PhraseLocal(s[gap..], t[gap..], words);
  }

  function ShortestPhrase(words: seq<Word>): nat {
    if words == [] then 0 else if |words| == 1 then |words[0]| else |words[0]| + 1 + ShortestPhrase(words[1..])
  }

  lemma {:induction false} PhraseLong(t: Str, words: seq<Word>)
    ensures PhraseLength(t, words) == 0 || PhraseLength(t, words) >= ShortestPhrase(words)
    decreases |words|
  {
    if PhraseLength(t, words) > 0 && |words| > 1 {
      var after := t[|words[0]|..];
      PhraseLong(after[SpaceRun(after)..], words[1..]);
    }
  }

  // ---------------------------------------------------------------------------
  // One left-to-right replacement pass

  /** The replacement is fenced by brackets and too short to hold the phrase. */
  predicate Fence(removed: Str, words: seq<Word>) {
    && 2 <= |removed| <= ShortestPhrase(words)
    && removed[0] == OPEN_BRACKET
    && removed[|removed| - 1] == CLOSE_BRACKET
  }

  /** `pattern.sub(removed, text)`. */
  function Scrub(t: Str, words: seq<Word>, removed: Str): Str
    decreases |t|
  {
    if t == [] then []
    else
      var n := PhraseLength(t, words);
      if n > 0 then removed + Scrub(t[n..], words, removed) else [t[0]] + Scrub(t[1..], words, removed)
  }

  predicate Clean(t: Str, words: seq<Word>) {
    forall i :: 0 <= i <= |t| ==> PhraseLength(t[i..], words) == 0
  }

  /** Output without brackets was copied. */
  lemma {:induction false} CopiedPrefix(t: Str, words: seq<Word>, removed: Str, n: nat)
    requires Fence(removed, words)
    requires n <= |Scrub(t, words, removed)| && forall i :: 0 <= i < n ==> !Bracket(Scrub(t, words, removed)[i])
    ensures n <= |t| && forall i :: 0 <= i < n ==> Scrub(t, words, removed)[i] == t[i]
    decreases |t|
  {
    var s := Scrub(t, words, removed);
    if n > 0 {
      assert PhraseLength(t, words) == 0 by {
        assert !Bracket(s[0]);
      }
      var rest := Scrub(t[1..], words, removed);
      assert s[1..] == rest;
      forall i | 0 <= i < n - 1
        ensures !Bracket(rest[i])
      {
        assert rest[i] == s[i + 1];
      }
      CopiedPrefix(t[1..], words, removed, n - 1);
      forall i | 0 <= i < n
        ensures s[i] == t[i]
      {
        if i > 0 {
          assert s[i] == rest[i - 1] == t[1..][i - 1];
        }
      }
    }
  }

  lemma ReplacedStart(t: Str, words: seq<Word>, removed: Str)
    requires Fence(removed, words)
    ensures PhraseLength(t, words) > 0 ==> Scrub(t, words, removed) != [] && Bracket(Scrub(t, words, removed)[0])
  {}

  /** Nothing matches at the start of the output. */
  lemma StartClean(t: Str, words: seq<Word>, removed: Str)
    requires Fence(removed, words)
    ensures PhraseLength(Scrub(t, words, removed), words) == 0
  {
    var s := Scrub(t, words, removed);
    PhrasePlain(s, words);
    ReplacedStart(t, words, removed);
    if PhraseLength(s, words) > 0 {
      CopiedPrefix(t, words, removed, PhraseLength(s, words));
      PhraseLocal(s, t, words);
    }
  }

  /** Nothing matches inside the replacement, whatever follows it. */
  lemma ReplacementClean(removed: Str, rest: Str, words: seq<Word>, i: nat)
    requires Fence(removed, words) && i < |removed|
    ensures PhraseLength((removed + rest)[i..], words) == 0
  {
    var t := (removed + rest)[i..];
    assert t[|removed| - 1 - i] == CLOSE_BRACKET;
    assert i == 0 ==> t[0] == OPEN_BRACKET;
    PhrasePlain(t, words);
    PhraseLong(t, words);
  }

  /** Main result: after one pass no match of the phrase is left, for any text,
      spacing or overlap. */
  lemma {:induction false} ScrubIsClean(t: Str, words: seq<Word>, removed: Str)
    requires Fence(removed, words)
    ensures Clean(Scrub(t, words, removed), words)
    decreases |t|
  {
    var s := Scrub(t, words, removed);
    var n := PhraseLength(t, words);
    StartClean(t, words, removed);
    assert s[0..] == s;
    if t != [] {
      var front := if n > 0 then removed else [t[0]];
      var rest := Scrub(t[if n > 0 then n else 1..], words, removed);
      ScrubIsClean(t[if n > 0 then n else 1..], words, removed);
      assert s == front + rest;
      forall i | 0 < i <= |s|
        ensures PhraseLength(s[i..], words) == 0
      {
        if i < |front| {
          ReplacementClean(removed, rest, words, i);
        } else {
          assert s[i..] == rest[i - |front|..];
        }
      }
    }
  }

  // ---------------------------------------------------------------------------
  // What the pass keeps

  /** The pieces with the gaps between them. */
  function Weave(pieces: seq<Str>, gaps: seq<Str>): Str
    requires |pieces| == |gaps| + 1
  {
    if gaps == [] then pieces[0] else pieces[0] + (gaps[0] + Weave(pieces[1..], gaps[1..]))
  }

  /** No phrase starts before `n`. */
  ghost predicate Quiet(t: Str, words: seq<Word>, n: nat) {
    n <= |t| && forall i :: 0 <= i < n ==> PhraseLength(t[i..], words) == 0
  }

  /** The pieces and gaps as lengths: no phrase starts inside a piece, and each gap is the
      whole phrase that starts where it does. */
  ghost predicate Cut(t: Str, words: seq<Word>, pieces: seq<nat>, gaps: seq<nat>)
    requires |pieces| == |gaps| + 1
    decreases |gaps|
  {
    && Quiet(t, words, pieces[0])
    && if gaps == [] then pieces[0] == |t|
       else
         && 0 < gaps[0] == PhraseLength(t[pieces[0]..], words)
         && Cut(t[pieces[0]..][gaps[0]..], words, pieces[1..], gaps[1..])
  }

  function Lengths(parts: seq<Str>): (r: seq<nat>)
    ensures |r| == |parts| && forall i :: 0 <= i < |r| ==> r[i] == |parts[i]|
  {
    seq(|parts|, i requires 0 <= i < |parts| => |parts[i]|)
  }

  lemma WeaveCopied(c: CodePoint, pieces: seq<Str>, gaps: seq<Str>)
    requires |pieces| == |gaps| + 1
    ensures Weave([[c] + pieces[0]] + pieces[1..], gaps) == [c] + Weave(pieces, gaps)
  {
    var longer := [[c] + pieces[0]] + pieces[1..];
    assert longer[1..] == pieces[1..];
    if gaps != [] {
      Assoc([c], pieces[0], gaps[0] + Weave(pieces[1..], gaps[1..]));
    }
  }

  /** The cut of a text one character longer, when no phrase starts at that character. */
  lemma CutCopied(t: Str, words: seq<Word>, pieces: seq<nat>, gaps: seq<nat>)
    requires t != [] && |pieces| == |gaps| + 1 && PhraseLength(t, words) == 0 && Cut(t[1..], words, pieces, gaps)
    ensures Cut(t, words, [pieces[0] + 1] + pieces[1..], gaps)
  {
    var longer := [pieces[0] + 1] + pieces[1..];
    QuietMore(t, words, pieces[0]);
    DropDrop(t, 1, pieces[0], longer[0]);
    assert longer[1..] == pieces[1..];
  }

  lemma QuietMore(t: Str, words: seq<Word>, n: nat)
    requires t != [] && PhraseLength(t, words) == 0 && Quiet(t[1..], words, n)
    ensures Quiet(t, words, n + 1)
  {
    forall i | 0 <= i < n + 1
      ensures PhraseLength(t[i..], words) == 0
    {
      if i == 0 {
        assert t[i..] == t;
      } else {
        DropDrop(t, 1, i - 1, i);
      }
    }
  }

  /** The cut of a text that starts with a phrase. */
  lemma CutReplaced(t: Str, words: seq<Word>, n: nat, pieces: seq<nat>, gaps: seq<nat>)
    requires 0 < n == PhraseLength(t, words) && |pieces| == |gaps| + 1 && Cut(t[n..], words, pieces, gaps)
    ensures Cut(t, words, [0] + pieces, [n] + gaps)
  {
    assert ([0] + pieces)[1..] == pieces && ([n] + gaps)[1..] == gaps && t[0..] == t;
  }

  /** `removed` in place of every gap. */
  function Replaced(gaps: seq<Str>, removed: Str): (r: seq<Str>)
    ensures |r| == |gaps| && forall i :: 0 <= i < |r| ==> r[i] == removed
  {
    seq(|gaps|, _ => removed)
  }

  /** The pieces and gaps cut the text where its phrases are, and the output has the
      replacement in place of every gap. */
  ghost predicate Kept(t: Str, words: seq<Word>, removed: Str, pieces: seq<Str>, gaps: seq<Str>) {
    && |pieces| == |gaps| + 1 && t == Weave(pieces, gaps)
    && Cut(t, words, Lengths(pieces), Lengths(gaps))
    && Scrub(t, words, removed) == Weave(pieces, Replaced(gaps, removed))
  }

  lemma KeptReplaced(t: Str, words: seq<Word>, removed: Str, n: nat, pieces: seq<Str>, gaps: seq<Str>)
    requires 0 < n == PhraseLength(t, words) && Kept(t[n..], words, removed, pieces, gaps)
    ensures Kept(t, words, removed, [[]] + pieces, [t[..n]] + gaps)
  {
    var front, rest := t[..n], t[n..];
    assert t == front + rest;
    CutReplaced(t, words, n, Lengths(pieces), Lengths(gaps));
    LengthsMore([], pieces);
    LengthsMore(front, gaps);
    WeaveFront(pieces, front, gaps);
    OutputReplaced(t, words, removed, n, pieces, gaps);
  }

  lemma OutputReplaced(t: Str, words: seq<Word>, removed: Str, n: nat, pieces: seq<Str>, gaps: seq<Str>)
    requires 0 < n == PhraseLength(t, words) && |pieces| == |gaps| + 1
    requires Scrub(t[n..], words, removed) == Weave(pieces, Replaced(gaps, removed))
    ensures Scrub(t, words, removed) == Weave([[]] + pieces, Replaced([t[..n]] + gaps, removed))
  {
    ScrubPhrase(t, words, removed, n);
    WeaveFront(pieces, removed, Replaced(gaps, removed));
    assert Replaced([t[..n]] + gaps, removed) == [removed] + Replaced(gaps, removed);
  }

  lemma ScrubPhrase(t: Str, words: seq<Word>, removed: Str, n: nat)
    requires 0 < n == PhraseLength(t, words)
    ensures Scrub(t, words, removed) == removed + Scrub(t[n..], words, removed)
  {}

  lemma LengthsMore(part: Str, parts: seq<Str>)
    ensures Lengths([part] + parts) == [|part|] + Lengths(parts)
  {}

  lemma KeptCopied(t: Str, words: seq<Word>, removed: Str, pieces: seq<Str>, gaps: seq<Str>)
    requires t != [] && PhraseLength(t, words) == 0 && Kept(t[1..], words, removed, pieces, gaps)
    ensures Kept(t, words, removed, [[t[0]] + pieces[0]] + pieces[1..], gaps)
  {
    var longer := [[t[0]] + pieces[0]] + pieces[1..];
    CutCopied(t, words, Lengths(pieces), Lengths(gaps));
    WeaveCopied(t[0], pieces, gaps);
    WeaveCopied(t[0], pieces, Replaced(gaps, removed));
    assert t == [t[0]] + t[1..];
    assert Lengths(longer) == [|pieces[0]| + 1] + Lengths(pieces)[1..];
  }

  /** Main result: everything outside the phrases survives, in order. */
  lemma {:induction false} ScrubKeepsRest(t: Str, words: seq<Word>, removed: Str)
      returns (pieces: seq<Str>, gaps: seq<Str>)
    ensures Kept(t, words, removed, pieces, gaps)
    decreases |t|
  {
    if t == [] {
      pieces, gaps := [[]], [];
      assert Lengths(pieces) == [0];
    } else if PhraseLength(t, words) > 0 {
      var n := PhraseLength(t, words);
      pieces, gaps := ScrubKeepsRest(t[n..], words, removed);
      KeptReplaced(t, words, removed, n, pieces, gaps);
      pieces, gaps := [[]] + pieces, [t[..n]] + gaps;
    } else {
      pieces, gaps := ScrubKeepsRest(t[1..], words, removed);
      KeptCopied(t, words, removed, pieces, gaps);
      pieces := [[t[0]] + pieces[0]] + pieces[1..];
    }
  }

  lemma WeaveFront(pieces: seq<Str>, gap: Str, gaps: seq<Str>)
    requires |pieces| == |gaps| + 1
    ensures Weave([[]] + pieces, [gap] + gaps) == gap + Weave(pieces, gaps)
  {
    var p, g := [[]] + pieces, [gap] + gaps;
    assert p[1..] == pieces && g[1..] == gaps;
    assert p[0] + (gap + Weave(pieces, gaps)) == gap + Weave(pieces, gaps);
  }

  // ---------------------------------------------------------------------------
  // The phrase spelled out

  /** The word is written at position `i`, in either case; a dotted capital or dotless
      small i also stands for an i. */
  predicate WrittenAt(t: Str, i: nat, word: string) {
    i + |word| <= |t| &&
    forall k :: 0 <= k < |word| ==>
      var c, letter := t[i + k], word[k] as int;
      c == letter || c == letter - 32 || (word[k] == 'i' && (c == 0x130 || c == 0x131))
  }

  predicate SpaceBetween(t: Str, i: nat, j: nat) {
    i < j <= |t| && forall k :: i <= k < j ==> PyWhitespace(t[k])
  }

  /** The last two words, from position `i`. */
  predicate TailAt(t: Str, i: nat, b: nat) {
    WrittenAt(t, i, "authorization") && SpaceBetween(t, i + 13, i + 13 + b) && WrittenAt(t, i + 13 + b, "context")
  }

  /** The three words with white space between them, `a` and `b` characters of it. */
  predicate PhraseAt(t: Str, a: nat, b: nat) {
    WrittenAt(t, 0, "openclaw") && SpaceBetween(t, 8, 8 + a) && TailAt(t, 8 + a, b)
  }

  lemma WordsSpelled()
    ensures Marker() == [Name("openclaw"), Name("authorization"), Name("context")]
    ensures Removed() == Name("[marker removed]")
  {
    var m := Marker();
    assert m[0] == Name("openclaw") && m[1] == Name("authorization") && m[2] == Name("context");
  }

  lemma WrittenAtStart(t: Str, i: nat, word: string, w: Word)
    requires w == Name(word) && i <= |t|
    ensures StartsWith(t[i..], w) <==> WrittenAt(t, i, word)
  {
    var rest := t[i..];
    if StartsWith(rest, w) {
      forall k | 0 <= k < |word|
        ensures SameLetter(t[i + k], word[k] as int)
      {
        assert rest[k] == t[i + k] && w[k] == word[k] as int;
      }
    }
    if WrittenAt(t, i, word) {
      forall k | 0 <= k < |w|
        ensures SameLetter(rest[k], w[k])
      {
        assert rest[k] == t[i + k] && w[k] == word[k] as int;
      }
    }
  }

  /** A word does not start with white space, so the run before it is the whole gap. */
  lemma GapIsRun(t: Str, i: nat, j: nat, word: string)
    requires SpaceBetween(t, i, j) && WrittenAt(t, j, word) && word != "" && 'a' <= word[0] <= 'z'
    ensures SpaceRun(t[i..]) == j - i
  {
    var rest := t[i..];
    assert forall k :: 0 <= k < |rest| ==> rest[k] == t[i + k];
    assert t[j + 0] == t[j] && !PyWhitespace(rest[j - i]);
  }

  lemma SpaceRunBetween(t: Str, i: nat)
    requires i <= |t| && SpaceRun(t[i..]) > 0
    ensures SpaceBetween(t, i, i + SpaceRun(t[i..]))
  {
    var rest, n := t[i..], SpaceRun(t[i..]);
    forall k | i <= k < i + n
      ensures PyWhitespace(t[k])
    {
      assert t[k] == rest[k - i];
    }
  }

  lemma LastWord(t: Str, i: nat, w: Word, word: string)
    requires i <= |t| && w == Name(word)
    ensures PhraseLength(t[i..], [w]) == if WrittenAt(t, i, word) then |word| else 0
  {
    WrittenAtStart(t, i, word, w);
  }

  lemma TailStep(t: Str, i: nat, words: seq<Word>)
    requires i + 13 <= |t| && words == [Name("authorization"), Name("context")] && WrittenAt(t, i, "authorization")
    ensures var b := SpaceRun(t[i + 13..]);
            && i + 13 + b <= |t|
            && PhraseLength(t[i..], words)
               == if b > 0 && WrittenAt(t, i + 13 + b, "context") then 20 + b else 0
  {
    var b := SpaceRun(t[i + 13..]);
    WrittenAtStart(t, i, "authorization", words[0]);
    PhraseStepAt(t, i, i + 13, i + 13 + b, words);
    assert words[1..] == [words[1]];
    LastWord(t, i + 13 + b, words[1], "context");
  }

  /** The same at a position: the word ends at `p` and the white space after it at `q`. */
  lemma PhraseStepAt(t: Str, i: nat, p: nat, q: nat, words: seq<Word>)
    requires |words| > 1 && i <= |t| && StartsWith(t[i..], words[0])
    requires p == i + |words[0]| <= |t| && q == p + SpaceRun(t[p..])
    ensures var more := PhraseLength(t[q..], words[1..]);
            PhraseLength(t[i..], words) == if q == p || more == 0 then 0 else q - i + more
  {
    DropDrop(t, i, |words[0]|, p);
    DropDrop(t, p, SpaceRun(t[p..]), q);
  }

  lemma DropDrop(t: Str, i: nat, k: nat, n: nat)
    requires i + k == n <= |t|
    ensures t[i..][k..] == t[n..]
  {}

  lemma TailMatched(t: Str, i: nat, b: nat, words: seq<Word>)
    requires words == [Name("authorization"), Name("context")] && TailAt(t, i, b)
    ensures PhraseLength(t[i..], words) == 20 + b
  {
    GapIsRun(t, i + 13, i + 13 + b, "context");
    TailStep(t, i, words);
  }

  lemma TailFound(t: Str, i: nat, words: seq<Word>) returns (b: nat)
    requires words == [Name("authorization"), Name("context")] && i <= |t| && PhraseLength(t[i..], words) > 0
    ensures TailAt(t, i, b)
  {
    WrittenAtStart(t, i, "authorization", words[0]);
    TailStep(t, i, words);
    b := SpaceRun(t[i + 13..]);
    SpaceRunBetween(t, i + 13);
  }

  lemma PhraseMatched(t: Str, a: nat, b: nat)
    requires PhraseAt(t, a, b)
    ensures PhraseLength(t, Marker()) == 28 + a + b
  {
    WordsSpelled();
    PhraseFrom(t, a, b, Marker());
  }

  lemma PhraseFrom(t: Str, a: nat, b: nat, words: seq<Word>)
    requires |words| == 3 && words[0] == Name("openclaw") && words[1..] == [Name("authorization"), Name("context")]
    requires PhraseAt(t, a, b)
    ensures PhraseLength(t, words) == 28 + a + b
  {
    assert t[0..] == t;
    WrittenAtStart(t, 0, "openclaw", words[0]);
    GapIsRun(t, 8, 8 + a, "authorization");
    TailMatched(t, 8 + a, b, words[1..]);
    PhraseStepAt(t, 0, 8, 8 + a, words);
  }

  lemma PhraseFound(t: Str) returns (a: nat, b: nat)
    requires PhraseLength(t, Marker()) > 0
    ensures PhraseAt(t, a, b)
  {
    var words := Marker();
    WordsSpelled();
    a := SpaceRun(t[8..]);
    assert t[0..] == t;
    WrittenAtStart(t, 0, "openclaw", words[0]);
    PhraseStepAt(t, 0, 8, 8 + a, words);
    b := TailFound(t, 8 + a, words[1..]);
    SpaceRunBetween(t, 8);
  }

  /** A match of the phrase is the three words and the white space between them. */
  lemma PhraseSpelled(t: Str)
    ensures PhraseLength(t, Marker()) > 0 <==> exists a: nat, b: nat :: PhraseAt(t, a, b)
    ensures forall a: nat, b: nat :: PhraseAt(t, a, b) ==> PhraseLength(t, Marker()) == 28 + a + b
  {
    WordsSpelled();
    forall a: nat, b: nat | PhraseAt(t, a, b)
      ensures PhraseLength(t, Marker()) == 28 + a + b
    {
      PhraseMatched(t, a, b);
    }
    if PhraseLength(t, Marker()) > 0 {
      var a, b := PhraseFound(t);
    }
  }

  // ---------------------------------------------------------------------------
  // `apply_turn_authz`

  /** `[marker removed]`. */
  function Removed(): Str {
    [0x5B, 0x6D, 0x61, 0x72, 0x6B, 0x65, 0x72, 0x20, 0x72, 0x65, 0x6D, 0x6F, 0x76, 0x65, 0x64, 0x5D]
  }

  lemma RemovedIsFence()
    ensures Fence(Removed(), Marker())
  {
    var m := Marker();
    assert |m[0]| == 8 && |m[1]| == 13 && |m[2]| == 7;
    assert m[1..][0] == m[1] && m[1..][1..][0] == m[2];
    assert ShortestPhrase(m) == 8 + 1 + ShortestPhrase(m[1..]);
    assert ShortestPhrase(m[1..]) == 13 + 1 + ShortestPhrase(m[1..][1..]);
  }

  const LINE_FEED: CodePoint := 0x0A

  function ApplyTurnAuthz(text: Str, disclaimer: Str): Str {
    disclaimer + ([LINE_FEED, LINE_FEED] + Scrub(text, Marker(), Removed()))
  }

  /** The message: the disclaimer, an empty line, and the user's text with every phrase cut
      out and `[marker removed]` in its place. */
  lemma MessageSpelled(text: Str, disclaimer: Str) returns (pieces: seq<Str>, gaps: seq<Str>)
    ensures Kept(text, Marker(), Removed(), pieces, gaps)
    ensures ApplyTurnAuthz(text, disclaimer) == disclaimer + (Name("\n\n") + Weave(pieces, Replaced(gaps, Removed())))
  {
    pieces, gaps := ScrubKeepsRest(text, Marker(), Removed());
    BreaksSpelled();
  }

  lemma BreaksSpelled()
    ensures Name("\n\n") == [LINE_FEED, LINE_FEED]
  {}

  /** The disclaimer, which ends with a bracket, is the only place of the message where
      the phrase can stand: no match starts after it or reaches across its end. */
  lemma PhraseOnlyInDisclaimer(text: Str, disclaimer: Str, i: nat)
    requires disclaimer != [] && disclaimer[|disclaimer| - 1] == CLOSE_BRACKET
    requires i <= |ApplyTurnAuthz(text, disclaimer)|
    ensures var n := PhraseLength(ApplyTurnAuthz(text, disclaimer)[i..], Marker());
            n > 0 ==> i + n < |disclaimer|
  {
    RemovedIsFence();
    ScrubIsClean(text, Marker(), Removed());
    OnlyInFront(disclaimer, Scrub(text, Marker(), Removed()), Marker(), i);
  }

  lemma OnlyInFront(front: Str, clean: Str, words: seq<Word>, i: nat)
    requires front != [] && front[|front| - 1] == CLOSE_BRACKET && Clean(clean, words)
    requires i <= |front + ([LINE_FEED, LINE_FEED] + clean)|
    ensures var n := PhraseLength((front + ([LINE_FEED, LINE_FEED] + clean))[i..], words);
            n == 0 || i + n < |front|
  {
    var all := front + ([LINE_FEED, LINE_FEED] + clean);
    var t := all[i..];
    var last := |front| - 1;
    assert i >= |front| + 2 ==> t == clean[i - |front| - 2..];
    assert last < i < |front| + 2 ==> t[0] == LINE_FEED;
    assert i <= last ==> t[last - i] == CLOSE_BRACKET;
    PhrasePlain(t, words);
  }
}
