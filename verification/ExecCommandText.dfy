/** Approval text for an argument vector (`exec_approvals.py`): the renderer
    never escapes a backslash, yet one text names exactly one vector. */
module ExecCommandText {
  import opened Text

  type Argv = seq<Str>

  predicate QuoteTrigger(c: CodePoint) {
    JsWhitespace(c) || c == QUOTE
  }

  predicate NeedsQuotes(arg: Str) {
    exists i :: 0 <= i < |arg| && QuoteTrigger(arg[i])
  }

  /** `arg.replace('"', '\\"')`: quotes gain a backslash, backslashes gain nothing. */
  function EscapeQuotes(arg: Str): Str {
    if arg == [] then []
    else (if arg[0] == QUOTE then [BACKSLASH, QUOTE] else [arg[0]]) + EscapeQuotes(arg[1..])
  }

  function RenderArg(arg: Str): Str {
    if arg == [] then [QUOTE, QUOTE]
    else if !NeedsQuotes(arg) then arg
    else [QUOTE] + EscapeQuotes(arg) + [QUOTE]
  }

  /** `" ".join(parts)`. */
  function JoinWithSpaces(parts: seq<Str>): Str {
    if |parts| == 0 then []
    else if |parts| == 1 then parts[0]
    else JoinWithSpaces(parts[..|parts| - 1]) + [SPACE] + parts[|parts| - 1]
  }

  /** The text of a vector, read from its first argument on. */
  function Format(argv: Argv): Str
    decreases |argv|, 0
  {
    if argv == [] then [] else RenderArg(argv[0]) + FormatTail(argv[1..])
  }

  /** What follows an argument that has just ended. */
  function FormatTail(argv: Argv): Str
    decreases |argv|, 1
  {
    if argv == [] then [] else [SPACE] + Format(argv)
  }

  /** The loop of `_format_exec_command`: collect parts, then join them. */
  method FormatExecCommand(argv: Argv) returns (text: Str)
    ensures text == Format(argv)
  {
    var parts: seq<Str> := [];
    for i := 0 to |argv|
      invariant |parts| == i
      invariant forall k :: 0 <= k < i ==> parts[k] == RenderArg(argv[k])
    {
      var arg := argv[i];
      if arg == [] {
        parts := parts + [[QUOTE, QUOTE]];
      } else if !NeedsQuotes(arg) {
        parts := parts + [arg];
      } else {
        parts := parts + [[QUOTE] + EscapeQuotes(arg) + [QUOTE]];
      }
    }
    assert parts == Rendered(argv);
    JoinIsFormat(argv);
    text := JoinWithSpaces(parts);
  }

  function Rendered(argv: Argv): (r: seq<Str>)
    ensures |r| == |argv|
    ensures forall i :: 0 <= i < |argv| ==> r[i] == RenderArg(argv[i])
  {
    seq(|argv|, i requires 0 <= i < |argv| => RenderArg(argv[i]))
  }

  lemma RenderedMore(argv: Argv, arg: Str)
    ensures Rendered(argv + [arg]) == Rendered(argv) + [RenderArg(arg)]
  {}

  lemma JoinMore(parts: seq<Str>, part: Str)
    requires parts != []
    ensures JoinWithSpaces(parts + [part]) == JoinWithSpaces(parts) + [SPACE] + part
  {
    var longer := parts + [part];
    assert longer[..|longer| - 1] == parts && longer[|longer| - 1] == part;
  }

  lemma FormatOne(arg: Str)
    ensures Format([arg]) == RenderArg(arg) && JoinWithSpaces(Rendered([arg])) == RenderArg(arg)
  {
    assert [arg][1..] == [];
    assert RenderArg(arg) + [] == RenderArg(arg);
  }

  lemma {:induction false} JoinIsFormat(argv: Argv)
    ensures JoinWithSpaces(Rendered(argv)) == Format(argv)
  {
    if |argv| == 1 {
      FormatOne(argv[0]);
      assert argv == [argv[0]];
    } else if |argv| >= 2 {
      var front, last := argv[..|argv| - 1], argv[|argv| - 1];
      JoinIsFormat(front);
      FormatAppend(front, last);
      RenderedMore(front, last);
      JoinMore(Rendered(front), RenderArg(last));
      assert argv == front + [last];
    }
  }

  lemma {:induction false} FormatAppend(argv: Argv, arg: Str)
    requires argv != []
    ensures Format(argv + [arg]) == Format(argv) + [SPACE] + RenderArg(arg)
  {
    var longer := argv + [arg];
    assert longer[0] == argv[0] && longer[1..] == argv[1..] + [arg];
    if |argv| == 1 {
      assert argv[1..] + [arg] == [arg];
      FormatOne(arg);
      FormatOne(argv[0]);
      assert argv == [argv[0]];
      Assoc(RenderArg(argv[0]), [SPACE], RenderArg(arg));
    } else {
      FormatAppend(argv[1..], arg);
      TailAppend(RenderArg(argv[0]), Format(argv[1..]), RenderArg(arg));
    }
  }

  lemma TailAppend(first: Str, rest: Str, last: Str)
    ensures first + ([SPACE] + (rest + [SPACE] + last)) == first + ([SPACE] + rest) + [SPACE] + last
  {}

  // ---------------------------------------------------------------------------
  // Reading a text back, one character at a time

  /** The rest of the text, seen from inside a quoted argument of which `arg` is
      still to come and after which `after` follows. */
  function Inside(arg: Str, after: Str): (text: Str)
    ensures text != []
    ensures text[0] == if arg == [] then QUOTE else if arg[0] == QUOTE then BACKSLASH else arg[0]
  {
    if arg == [] then [QUOTE] + after
    else if arg[0] == QUOTE then [BACKSLASH] + ([QUOTE] + Inside(arg[1..], after))
    else [arg[0]] + Inside(arg[1..], after)
  }

  lemma {:induction false} InsideIsEscaped(arg: Str, after: Str)
    ensures EscapeQuotes(arg) + ([QUOTE] + after) == Inside(arg, after)
  {
    var close: Str := [QUOTE] + after;
    if arg == [] {
      assert EscapeQuotes(arg) + close == close;
    } else {
      var head: Str := if arg[0] == QUOTE then [BACKSLASH, QUOTE] else [arg[0]];
      InsideIsEscaped(arg[1..], after);
      Assoc(head, EscapeQuotes(arg[1..]), close);
      assert [BACKSLASH, QUOTE] + Inside(arg[1..], after) == [BACKSLASH] + ([QUOTE] + Inside(arg[1..], after));
    }
  }

  lemma RenderedInside(arg: Str, after: Str)
    requires arg == [] || NeedsQuotes(arg)
    ensures RenderArg(arg) + after == [QUOTE] + Inside(arg, after)
  {
    var open: Str, body: Str := [QUOTE], EscapeQuotes(arg);
    InsideIsEscaped(arg, after);
    assert RenderArg(arg) == open + (body + [QUOTE]);
    Assoc(open, body + [QUOTE], after);
    Assoc(body, [QUOTE], after);
  }

  lemma RenderedPlain(arg: Str, after: Str)
    requires arg != [] && !NeedsQuotes(arg)
    ensures RenderArg(arg) + after == arg + after && (arg + after)[0] != QUOTE
  {
    assert !QuoteTrigger(arg[0]);
  }

  /** A non-empty vector's text starts inside quotes, or with a plain argument. */
  lemma FormatStart(argv: Argv)
    requires argv != []
    ensures argv[0] == [] || NeedsQuotes(argv[0]) ==> Format(argv) == [QUOTE] + Inside(argv[0], FormatTail(argv[1..]))
    ensures argv[0] != [] && !NeedsQuotes(argv[0]) ==>
              Format(argv) == argv[0] + FormatTail(argv[1..]) && Format(argv)[0] != QUOTE
  {
    var after := FormatTail(argv[1..]);
    if argv[0] == [] || NeedsQuotes(argv[0]) {
      RenderedInside(argv[0], after);
    } else {
      RenderedPlain(argv[0], after);
    }
  }

  lemma SameTail(c: CodePoint, x: Str, y: Str)
    requires [c] + x == [c] + y
    ensures x == y
  {
    assert x == ([c] + x)[1..];
    assert y == ([c] + y)[1..];
  }

  /** Inside quotes, plain text is consumed literally: no escaped quote can
      straddle its end, because a space or nothing follows it. */
  lemma {:induction false} InsideReadsPlain(plain: Str, rest: Str, arg: Str, after: Str)
    requires QUOTE !in plain && (rest == [] || rest[0] == SPACE)
    requires plain + rest == Inside(arg, after)
    ensures plain <= arg && rest == Inside(arg[|plain|..], after)
  {
    if plain == [] {
      assert arg[0..] == arg;
      assert plain + rest == rest;
    } else {
      var more := plain[1..] + rest;
      assert plain + rest == [plain[0]] + more;
      assert more == [] || more[0] != QUOTE;
      if arg[0] == QUOTE {
        SameTail(BACKSLASH, more, [QUOTE] + Inside(arg[1..], after));
      } else {
        SameTail(arg[0], more, Inside(arg[1..], after));
        InsideReadsPlain(plain[1..], rest, arg[1..], after);
        assert arg[1..][|plain| - 1..] == arg[|plain|..];
      }
    }
  }

  /** One reading stands between arguments while another is inside a quoted
      argument: they never describe the same remaining text. */
  lemma {:induction false} ReadingsNeverMeet(outside: Argv, arg: Str, after: Argv)
    ensures FormatTail(outside) != Inside(arg, FormatTail(after))
    decreases |outside| + |after|
  {
    if FormatTail(outside) == Inside(arg, FormatTail(after)) {
      SameTail(SPACE, Format(outside), Inside(arg[1..], FormatTail(after)));
      FormatStart(outside);
      var first, rest := outside[0], outside[1..];
      if first != [] && !NeedsQuotes(first) {
        assert QUOTE !in first;
        InsideReadsPlain(first, FormatTail(rest), arg[1..], FormatTail(after));
        ReadingsNeverMeet(rest, arg[1..][|first|..], after);
      } else {
        SameTail(QUOTE, Inside(first, FormatTail(rest)), FormatTail(after));
        ReadingsNeverMeet(after, first, rest);
      }
    }
  }

  /** Two quoted arguments that start together are the same argument. The only
      place they could part is a `\"`, read as a backslash and a closing quote or
      as an escaped quote; from there the readings never meet again. */
  lemma {:induction false} QuotedArgDetermined(a: Str, b: Str, tailA: Argv, tailB: Argv)
    requires Inside(a, FormatTail(tailA)) == Inside(b, FormatTail(tailB))
    ensures a == b && FormatTail(tailA) == FormatTail(tailB)
    decreases |a| + |b|
  {
    var afterA, afterB := FormatTail(tailA), FormatTail(tailB);
    if a == [] {
      SameTail(QUOTE, afterA, afterB);
    } else if a[0] != QUOTE && b[0] != QUOTE {
      SameTail(a[0], Inside(a[1..], afterA), Inside(b[1..], afterB));
      QuotedArgDetermined(a[1..], b[1..], tailA, tailB);
    } else if a[0] == QUOTE && b[0] == QUOTE {
      SameTail(BACKSLASH, [QUOTE] + Inside(a[1..], afterA), [QUOTE] + Inside(b[1..], afterB));
      SameTail(QUOTE, Inside(a[1..], afterA), Inside(b[1..], afterB));
      QuotedArgDetermined(a[1..], b[1..], tailA, tailB);
    } else if a[0] != QUOTE {
      SameTail(BACKSLASH, Inside(a[1..], afterA), [QUOTE] + Inside(b[1..], afterB));
      SameTail(QUOTE, afterA, Inside(b[1..], afterB));
      ReadingsNeverMeet(tailA, b[1..], tailB);
    } else {
      SameTail(BACKSLASH, [QUOTE] + Inside(a[1..], afterA), Inside(b[1..], afterB));
      SameTail(QUOTE, Inside(a[1..], afterA), afterB);
      ReadingsNeverMeet(tailB, a[1..], tailA);
    }
  }

  /** A plain argument ends at the first space or at the end of the text. */
  lemma {:induction false} PlainArgDetermined(a: Str, b: Str, restA: Str, restB: Str)
    requires SPACE !in a && SPACE !in b
    requires restA == [] || restA[0] == SPACE
    requires restB == [] || restB[0] == SPACE
    requires a + restA == b + restB
    ensures a == b && restA == restB
  {
    if a == [] || b == [] {
      assert [] + restA == restA && [] + restB == restB;
    } else {
      assert a[0] == (a + restA)[0] && b[0] == (b + restB)[0];
      assert a + restA == [a[0]] + (a[1..] + restA);
      assert b + restB == [b[0]] + (b[1..] + restB);
      SameTail(a[0], a[1..] + restA, b[1..] + restB);
      PlainArgDetermined(a[1..], b[1..], restA, restB);
      assert a == [a[0]] + a[1..] && b == [b[0]] + b[1..];
    }
  }

  lemma FirstArgDetermined(a: Argv, b: Argv)
    requires a != [] && b != [] && Format(a) == Format(b)
    ensures a[0] == b[0] && FormatTail(a[1..]) == FormatTail(b[1..])
  {
    FormatStart(a);
    FormatStart(b);
    var tailA, tailB := FormatTail(a[1..]), FormatTail(b[1..]);
    if Format(a)[0] == QUOTE {
      SameTail(QUOTE, Inside(a[0], tailA), Inside(b[0], tailB));
      QuotedArgDetermined(a[0], b[0], a[1..], b[1..]);
    } else {
      assert QuoteTrigger(SPACE);
      PlainArgDetermined(a[0], b[0], tailA, tailB);
    }
  }

  /** Main result: the approval text names exactly one argument vector. */
  lemma {:induction false} FormatInjective(a: Argv, b: Argv)
    ensures Format(a) == Format(b) <==> a == b
    decreases |a| + |b|, 0
  {
    if Format(a) == Format(b) && a != [] && b != [] {
      FirstArgDetermined(a, b);
      TailDetermined(a[1..], b[1..]);
      assert a == [a[0]] + a[1..] && b == [b[0]] + b[1..];
    } else {
      RenderNonempty(a);
      RenderNonempty(b);
    }
  }

  lemma RenderNonempty(a: Argv)
    ensures a != [] ==> Format(a) != []
  {
    if a != [] {
      FormatStart(a);
    }
  }

  lemma {:induction false} TailDetermined(a: Argv, b: Argv)
    requires FormatTail(a) == FormatTail(b)
    ensures a == b
    decreases |a| + |b|, 1
  {
    if a != [] && b != [] {
      SameTail(SPACE, Format(a), Format(b));
      FormatInjective(a, b);
    }
  }

  // ---------------------------------------------------------------------------
  // Binding caller-supplied text to the vector

  const INLINE_SHELL: Str := [0x2F, 0x62, 0x69, 0x6E, 0x2F, 0x73, 0x68] // /bin/sh
  const COMMAND_FLAG: Str := [0x2D, 0x63] // -c
  const LOGIN_COMMAND_FLAG: Str := [0x2D, 0x6C, 0x63] // -lc

  function InlineShellPayload(argv: Argv): (payload: Str) {
    if |argv| == 3 && argv[0] == INLINE_SHELL && argv[1] in {COMMAND_FLAG, LOGIN_COMMAND_FLAG}
    then PyStrip(argv[2])
    else []
  }

  datatype Resolved =
    | Bound(commandText: Str, preview: Str) // an empty preview is the source's None
    | RawCommandMismatch

  /** `_resolve_command_text` for a string or absent (empty) `rawCommand`. */
  function ResolveCommandText(argv: Argv, rawCommand: Str): Resolved {
    var raw := PyStrip(rawCommand);
    var text := Format(argv);
    var payload := InlineShellPayload(argv);
    var preview := if payload != text then payload else [];
    if raw == [] then Bound(text, preview)
    else if raw != text && raw != payload then RawCommandMismatch
    else Bound(text, preview)
  }

  /** Whatever the caller sent, an accepted plan's text names its vector and no
      other, and a caller text naming another vector is refused unless it is
      exactly the payload of a literal `/bin/sh -c` form. */
  lemma BoundTextNamesOneArgv(a: Argv, rawA: Str, b: Argv, rawB: Str)
    ensures ResolveCommandText(a, rawA).Bound? && ResolveCommandText(b, rawB).Bound? ==>
              (ResolveCommandText(a, rawA).commandText == ResolveCommandText(b, rawB).commandText <==> a == b)
    ensures ResolveCommandText(a, rawA).Bound? && PyStrip(rawA) == Format(b) && PyStrip(rawA) != [] && a != b
            ==> |a| == 3 && a[0] == INLINE_SHELL && PyStrip(rawA) == PyStrip(a[2])
  {
    FormatInjective(a, b);
  }

  function Visible(s: Str): nat {
    if s == [] then 0 else (if PyWhitespace(s[0]) then 0 else 1) + Visible(s[1..])
  }

  lemma {:induction false} VisibleConcat(a: Str, b: Str)
    ensures Visible(a + b) == Visible(a) + Visible(b)
  {
    if a == [] {
      assert a + b == b;
    } else {
      assert (a + b)[0] == a[0] && (a + b)[1..] == a[1..] + b;
      VisibleConcat(a[1..], b);
    }
  }

  lemma {:induction false} LstripVisible(s: Str)
    ensures Visible(PyLstrip(s)) == Visible(s)
  {
    if s != [] && PyWhitespace(s[0]) {
      LstripVisible(s[1..]);
    }
  }

  lemma {:induction false} RstripVisible(s: Str)
    ensures Visible(PyRstrip(s)) == Visible(s)
  {
    if s != [] && PyWhitespace(s[|s| - 1]) {
      var front, last := s[..|s| - 1], s[|s| - 1..];
      RstripVisible(front);
      assert s == front + last && last[1..] == [];
      VisibleConcat(front, last);
    }
  }

  /** `strip` drops no visible character. */
  lemma StripVisible(s: Str)
    ensures Visible(PyStrip(s)) == Visible(s)
  {
    LstripVisible(s);
    RstripVisible(PyLstrip(s));
  }

  lemma {:induction false} EscapeVisible(arg: Str)
    ensures Visible(EscapeQuotes(arg)) >= Visible(arg)
  {
    if arg != [] {
      EscapeVisible(arg[1..]);
      var first := if arg[0] == QUOTE then [BACKSLASH, QUOTE] else [arg[0]];
      assert first[1..] == [] || first[1..][1..] == [];
      VisibleConcat(first, EscapeQuotes(arg[1..]));
    }
  }

  lemma RenderVisible(arg: Str)
    ensures Visible(RenderArg(arg)) >= Visible(arg)
  {
    if arg != [] && NeedsQuotes(arg) {
      EscapeVisible(arg);
      VisibleConcat([QUOTE], EscapeQuotes(arg));
      VisibleConcat([QUOTE] + EscapeQuotes(arg), [QUOTE]);
    }
  }

  lemma ThreeVisible(a: Str, b: Str, c: Str)
    ensures Visible(a + ([SPACE] + (b + ([SPACE] + c)))) >= Visible(a) + Visible(c)
  {
    VisibleConcat(a, [SPACE] + (b + ([SPACE] + c)));
    VisibleConcat([SPACE], b + ([SPACE] + c));
    VisibleConcat(b, [SPACE] + c);
    VisibleConcat([SPACE], c);
  }

  lemma FormatThree(argv: Argv)
    requires |argv| == 3
    ensures Format(argv) == RenderArg(argv[0]) + ([SPACE] + (RenderArg(argv[1]) + ([SPACE] + RenderArg(argv[2]))))
  {
    var two, one := [argv[1], argv[2]], [argv[2]];
    assert argv[1..] == two && two[1..] == one && one[1..] == [];
    assert FormatTail([]) == [] && RenderArg(argv[2]) + [] == RenderArg(argv[2]);
    assert Format(one) == RenderArg(argv[2]);
    assert Format(two) == RenderArg(argv[1]) + ([SPACE] + Format(one));
  }

  lemma FormatVisible(argv: Argv)
    requires |argv| == 3
    ensures Visible(Format(argv)) >= Visible(argv[0]) + Visible(argv[2])
  {
    FormatThree(argv);
    RenderVisible(argv[0]);
    RenderVisible(argv[2]);
    ThreeVisible(RenderArg(argv[0]), RenderArg(argv[1]), RenderArg(argv[2]));
  }

  lemma ShellVisible()
    ensures Visible(INLINE_SHELL) > 0
  {}

  /** A shell payload never reads like the rendering it stands in, which shows more. */
  lemma PayloadIsNotText(argv: Argv)
    requires InlineShellPayload(argv) != []
    ensures PyStrip(Format(argv)) != InlineShellPayload(argv)
  {
    FormatVisible(argv);
    ShellVisible();
    StripVisible(Format(argv));
    StripVisible(argv[2]);
  }

  /** The canonical text itself, offered back as `rawCommand`, is accepted
      exactly when `strip` leaves it alone or empties it. */
  lemma CanonicalTextAccepted(argv: Argv)
    ensures ResolveCommandText(argv, Format(argv)).Bound? <==>
            var text := Format(argv);
            PyStrip(text) == [] || Bare(text)
  {
    StripFixed(Format(argv));
    if InlineShellPayload(argv) != [] {
      PayloadIsNotText(argv);
    }
  }

  /** It can be refused: U+001C is whitespace to Python and not to the renderer,
      so `ls` followed by U+001C is refused its own canonical text. */
  lemma CanonicalTextRefused(name: Str)
    requires name != [] && !NeedsQuotes(name) && !PyWhitespace(name[0])
    ensures ResolveCommandText([name + [0x1C]], Format([name + [0x1C]])).RawCommandMismatch?
  {
    var arg := name + [0x1C];
    assert !NeedsQuotes(arg) by {
      assert forall i :: 0 <= i < |arg| ==> arg[i] == if i < |name| then name[i] else 0x1C;
    }
    FormatStart([arg]);
    assert Format([arg]) == arg by {
      assert [arg][1..] == [];
      assert arg + [] == arg;
    }
    assert PyStrip(arg) != [] && arg[|arg| - 1] == 0x1C;
    CanonicalTextAccepted([arg]);
  }

  /** A literal shell form: `/bin/sh -c` or `/bin/sh -lc` with a script that is not blank. */
  predicate ShellForm(argv: Argv) {
    && |argv| == 3 && argv[0] == Name("/bin/sh") && (argv[1] == Name("-c") || argv[1] == Name("-lc"))
    && PyStrip(argv[2]) != []
  }

  lemma ShellSpelled()
    ensures Name("/bin/sh") == INLINE_SHELL && Name("-c") == COMMAND_FLAG && Name("-lc") == LOGIN_COMMAND_FLAG
  {}

  lemma PayloadExactly(argv: Argv)
    ensures InlineShellPayload(argv) == if ShellForm(argv) then PyStrip(argv[2]) else []
  {
    ShellSpelled();
  }

  /** A stripped payload is never the text, so the preview is never dropped. */
  lemma PayloadNeverText(argv: Argv)
    requires ShellForm(argv)
    ensures PyStrip(argv[2]) != Format(argv)
  {
    PayloadExactly(argv);
    PayloadIsNotText(argv);
    StripBare(argv[2]);
    StripFixed(PyStrip(argv[2]));
  }

  /** Main result: every answer. A raw command that is blank, or whose strip is the text of
      the vector or the script of a shell form, is bound to the vector's text, with the
      script of a shell form as preview; any other is refused. */
  lemma ResolvesExactly(argv: Argv, rawCommand: Str)
    ensures var raw := PyStrip(rawCommand);
            var script := if ShellForm(argv) then PyStrip(argv[2]) else [];
            var accepted := raw == [] || raw == Format(argv) || (ShellForm(argv) && raw == script);
            ResolveCommandText(argv, rawCommand) == if accepted then Bound(Format(argv), script) else RawCommandMismatch
  {
    PayloadExactly(argv);
    if ShellForm(argv) {
      PayloadNeverText(argv);
    }
  }
}
