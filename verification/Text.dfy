/** Python strings as sequences of code points (lone surrogates allowed) and
    JavaScript strings as sequences of 16-bit units, with the whitespace classes
    both languages trim by. */
module Text {
  type CodePoint = c: int | 0 <= c < 0x11_0000
  type Unit = u: int | 0 <= u < 0x1_0000
  type Byte = b: int | 0 <= b < 0x100
  type Str = seq<CodePoint>

  const QUOTE: Unit := 0x22
  const BACKSLASH: Unit := 0x5C
  const SPACE: Unit := 0x20
  const COMMA: Unit := 0x2C
  const COLON: Unit := 0x3A
  const OPEN_BRACKET: Unit := 0x5B
  const CLOSE_BRACKET: Unit := 0x5D
  const OPEN_BRACE: Unit := 0x7B
  const CLOSE_BRACE: Unit := 0x7D

  /** A literal as a Python string. */
  function Name(s: string): (r: Str)
    ensures |r| == |s|
  {
    seq(|s|, i requires 0 <= i < |s| => s[i] as int)
  }

  lemma PunctuationSpelled()
    ensures Name("\"") == [QUOTE] && Name("\\") == [BACKSLASH] && Name(" ") == [SPACE]
    ensures Name(",") == [COMMA] && Name(":") == [COLON] && Name("[") == [OPEN_BRACKET] && Name("]") == [CLOSE_BRACKET]
    ensures Name("{") == [OPEN_BRACE] && Name("}") == [CLOSE_BRACE]
  {}

  /** `separator.join(parts)`. */
  function Join<T>(parts: seq<seq<T>>, separator: T): seq<T> {
    if parts == [] then []
    else if |parts| == 1 then parts[0]
    else parts[0] + ([separator] + Join(parts[1..], separator))
  }

  lemma Assoc<T>(a: seq<T>, b: seq<T>, c: seq<T>)
    ensures a + (b + c) == a + b + c
  {}

  lemma FrontOfConcat<T>(a: seq<T>, b: seq<T>)
    requires b != []
    ensures (a + b)[..|a + b| - 1] == a + b[..|b| - 1]
    ensures (a + b)[|a + b| - 1] == b[|b| - 1]
  {}

  /** JavaScript's `\s` class, which is also what `String.prototype.trim` removes. */
  predicate JsWhitespace(c: CodePoint) {
    || 0x09 <= c <= 0x0D
    || c in {0x20, 0xA0, 0x1680, 0x2028, 0x2029, 0x202F, 0x205F, 0x3000, 0xFEFF}
    || 0x2000 <= c <= 0x200A
  }

  /** Python's `str.isspace`, which is what `str.strip` removes. */
  predicate PyWhitespace(c: CodePoint) {
    || 0x09 <= c <= 0x0D
    || 0x1C <= c <= 0x1F
    || c in {0x20, 0x85, 0xA0, 0x1680, 0x2028, 0x2029, 0x202F, 0x205F, 0x3000}
    || 0x2000 <= c <= 0x200A
  }

  /** The two languages differ on six characters: U+001C to U+001F and U+0085 are white
      space to Python only, U+FEFF to JavaScript only. */
  lemma WhitespaceDiffers(c: CodePoint)
    ensures c in {0x1C, 0x1D, 0x1E, 0x1F, 0x85} ==> PyWhitespace(c) && !JsWhitespace(c)
    ensures c == 0xFEFF ==> JsWhitespace(c) && !PyWhitespace(c)
    ensures c !in {0x1C, 0x1D, 0x1E, 0x1F, 0x85, 0xFEFF} ==> (PyWhitespace(c) <==> JsWhitespace(c))
  {}

  function PyLstrip(s: Str): (r: Str)
    ensures r == [] || !PyWhitespace(r[0])
    ensures |r| <= |s| && r == s[|s| - |r|..]
    ensures s != [] && !PyWhitespace(s[0]) ==> r == s
  {
    if s != [] && PyWhitespace(s[0]) then PyLstrip(s[1..]) else s
  }

  function PyRstrip(s: Str): (r: Str)
    ensures r == [] || !PyWhitespace(r[|r| - 1])
    ensures r <= s
    ensures s != [] && !PyWhitespace(s[|s| - 1]) ==> r == s
    ensures s != [] && !PyWhitespace(s[0]) ==> r != []
  {
    if s != [] && PyWhitespace(s[|s| - 1]) then PyRstrip(s[..|s| - 1]) else s
  }

  /** Python's `str.strip()`. */
  function PyStrip(s: Str): (r: Str) {
    PyRstrip(PyLstrip(s))
  }

  /** No Python whitespace at either end. */
  predicate Bare(s: Str) {
    s == [] || (!PyWhitespace(s[0]) && !PyWhitespace(s[|s| - 1]))
  }

  lemma LstripShorter(s: Str)
    requires s != [] && PyWhitespace(s[0])
    ensures |PyLstrip(s)| < |s|
  {
    assert |PyLstrip(s[1..])| <= |s[1..]|;
  }

  lemma RstripBare(l: Str)
    requires l == [] || !PyWhitespace(l[0])
    ensures Bare(PyRstrip(l))
  {
    var r := PyRstrip(l);
    if r != [] {
      assert r[0] == l[0];
    }
  }

  lemma StripBare(s: Str)
    ensures Bare(PyStrip(s))
  {
    RstripBare(PyLstrip(s));
  }

  ghost predicate AllPySpace(s: Str) {
    forall i :: 0 <= i < |s| ==> PyWhitespace(s[i])
  }

  lemma {:induction false} LstripSpace(s: Str, i: nat)
    requires i < |s| - |PyLstrip(s)|
    ensures PyWhitespace(s[i])
  {
    if i > 0 {
      LstripSpace(s[1..], i - 1);
    }
  }

  lemma {:induction false} RstripSpace(s: Str, i: nat)
    requires |PyRstrip(s)| <= i < |s|
    ensures PyWhitespace(s[i])
  {
    if i < |s| - 1 {
      RstripSpace(s[..|s| - 1], i);
    }
  }

  lemma LstripCut(s: Str) returns (before: Str)
    ensures s == before + PyLstrip(s) && AllPySpace(before)
  {
    before := s[..|s| - |PyLstrip(s)|];
    forall i | 0 <= i < |before|
      ensures PyWhitespace(before[i])
    {
      LstripSpace(s, i);
    }
  }

  lemma RstripCut(s: Str) returns (after: Str)
    ensures s == PyRstrip(s) + after && AllPySpace(after)
  {
    after := s[|PyRstrip(s)|..];
    forall i | 0 <= i < |after|
      ensures PyWhitespace(after[i])
    {
      RstripSpace(s, |PyRstrip(s)| + i);
    }
  }

  /** `strip` cuts white space off both ends, and nothing else, until none is left there. */
  lemma StripCuts(s: Str) returns (before: Str, after: Str)
    ensures s == before + PyStrip(s) + after && AllPySpace(before) && AllPySpace(after) && Bare(PyStrip(s))
  {
    before := LstripCut(s);
    after := RstripCut(PyLstrip(s));
    StripBare(s);
    Assoc(before, PyStrip(s), after);
  }

  /** `strip` leaves exactly the texts with no Python whitespace at either end. */
  lemma StripFixed(s: Str)
    ensures PyStrip(s) == s <==> Bare(s)
  {
    StripBare(s);
    if s != [] && PyWhitespace(s[0]) {
      LstripShorter(s);
    }
  }
}
