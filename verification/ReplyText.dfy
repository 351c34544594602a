/** The reply text of an assistant message (`_extract_text` in chat_relay.py), for every
    JSON shape its content may have. */
module ReplyText {
  import opened Text
  import opened JsonNumbers
  import opened JsonModel

  /** Content-block types that mark a tool step. */
  const TOOL_TYPES: set<string> := {
    "toolCall", "toolUse", "functionCall", "tool_call", "tool_use", "function_call",
    "toolResult", "tool_result", "tool_result_error", "function_call_output"
  }

  /** Python's `str` of a decoded value. */
  type Render = Json -> Str

  function TypeOf(block: Json): Option<Json> {
    if block.JObject? then Get(block.members, Name("type")) else None
  }

  predicate TextBlock(block: Json) {
    TypeOf(block) == Some(JString(Name("text")))
  }

  predicate ToolBlock(block: Json) {
    && TypeOf(block).Some? && TypeOf(block).value.JString? && !TextBlock(block)
    && exists n :: n in TOOL_TYPES && Name(n) == TypeOf(block).value.s
  }

  /** A type Python cannot look up in the set: the reader raises. */
  predicate Unhashable(block: Json) {
    TypeOf(block).Some? && (TypeOf(block).value.JArray? || TypeOf(block).value.JObject?)
  }

  /** What one block says. */
  function BlockText(render: Render, block: Json): Str {
    if TextBlock(block) then
      match Get(block.members, Name("text"))
      case None => []
      case Some(JString(s)) => s
      case Some(other) => render(other)
    else if block.JString? then block.s
    else []
  }

  function BlockTexts(render: Render, blocks: seq<Json>): Str {
    if blocks == [] then [] else BlockText(render, blocks[0]) + BlockTexts(render, blocks[1..])
  }

  /** The number of blocks up to and with the last tool block. */
  function AfterTools(blocks: seq<Json>): (n: nat)
    ensures n <= |blocks|
  {
    if blocks == [] then 0
    else if ToolBlock(blocks[|blocks| - 1]) then |blocks|
    else AfterTools(blocks[..|blocks| - 1])
  }

  /** The nested content of a message object: the first of its three fields that holds
      anything. */
  function Nested(ms: seq<Member>): (r: Option<Json>)
    ensures r.Some? ==> exists m :: m in ms && m.value == r.value
  {
    if Get(ms, Name("content")).Some? && Truthy(Get(ms, Name("content")).value) then Get(ms, Name("content"))
    else if Get(ms, Name("text")).Some? && Truthy(Get(ms, Name("text")).value) then Get(ms, Name("text"))
    else if Get(ms, Name("message")).Some? && Truthy(Get(ms, Name("message")).value) then Get(ms, Name("message"))
    else None
  }

  lemma NestedSmaller(ms: seq<Member>)
    ensures Nested(ms).Some? ==> Nested(ms).value < JObject(ms)
  {
    if Nested(ms).Some? {
      var m :| m in ms && m.value == Nested(ms).value;
    }
  }

  predicate Readable(blocks: seq<Json>) {
    forall i :: 0 <= i < |blocks| ==> !Unhashable(blocks[i])
  }

  function TextSoFar(render: Render, blocks: seq<Json>): Str {
    BlockTexts(render, blocks[AfterTools(blocks)..])
  }

  /** The text of a content-block list: that of the blocks after the last tool block. */
  function SpokenBlocks(render: Render, blocks: seq<Json>): Option<Str> {
    if Readable(blocks) then Some(TextSoFar(render, blocks)) else None
  }

  /** The reply text, or None when the reader raises. */
  function Spoken(render: Render, content: Json): Option<Str>
    decreases content
  {
    match content
    case JString(s) => Some(s)
    case JArray(blocks) => SpokenBlocks(render, blocks)
    case JObject(ms) =>
      NestedSmaller(ms);
      if Nested(ms).Some? then Spoken(render, Nested(ms).value) else Some([])
    case _ => Some(if Truthy(content) then render(content) else [])
  }

  lemma {:induction false} BlockTextsConcat(render: Render, a: seq<Json>, b: seq<Json>)
    ensures BlockTexts(render, a + b) == BlockTexts(render, a) + BlockTexts(render, b)
  {
    if a == [] {
      assert a + b == b;
    } else {
      var all := a + b;
      assert all[0] == a[0] && all[1..] == a[1..] + b;
      BlockTextsConcat(render, a[1..], b);
      Assoc(BlockText(render, a[0]), BlockTexts(render, a[1..]), BlockTexts(render, b));
    }
  }

  /** What the text after tools means: no tool block follows, and one ends the part left
      out unless nothing is. */
  lemma {:induction false} AfterToolsExactly(blocks: seq<Json>)
    ensures var n := AfterTools(blocks);
            && (n == 0 || ToolBlock(blocks[n - 1]))
            && forall i :: n <= i < |blocks| ==> !ToolBlock(blocks[i])
  {
    if blocks != [] && !ToolBlock(blocks[|blocks| - 1]) {
      AfterToolsExactly(blocks[..|blocks| - 1]);
    }
  }

  /** The parts after one more block. */
  function Added(render: Render, parts: Str, block: Json): Str {
    if ToolBlock(block) then [] else parts + BlockText(render, block)
  }

  lemma OneMore(render: Render, blocks: seq<Json>, block: Json)
    ensures TextSoFar(render, blocks + [block]) == Added(render, TextSoFar(render, blocks), block)
  {
    var longer, after, one := blocks + [block], AfterTools(blocks), [block];
    assert longer[..|longer| - 1] == blocks && longer[|longer| - 1] == block;
    if ToolBlock(block) {
      assert longer[|longer|..] == [];
    } else {
      assert longer[after..] == blocks[after..] + one;
      BlockTextsConcat(render, blocks[after..], one);
      assert one[1..] == [];
      assert BlockTexts(render, one) == BlockText(render, block) + [];
    }
  }

  /** One round of the loop over a content-block list; None when it raises. */
  method AddBlock(render: Render, parts: Str, block: Json) returns (r: Option<Str>)
    ensures r == if Unhashable(block) then None else Some(Added(render, parts, block))
  {
    if TextBlock(block) {
      r := Some(parts + BlockText(render, block));
    } else if Unhashable(block) {
      r := None;
    } else if ToolBlock(block) {
      r := Some([]);
    } else if block.JString? {
      r := Some(parts + block.s);
    } else {
      assert parts + [] == parts;
      r := Some(parts);
    }
  }

  /** The loop: a tool block clears what came before it. */
  method JoinBlocks(render: Render, blocks: seq<Json>) returns (text: Option<Str>)
    ensures text == SpokenBlocks(render, blocks)
  {
    var parts: Str := [];
    for n := 0 to |blocks|
      invariant Readable(blocks[..n])
      invariant parts == TextSoFar(render, blocks[..n])
    {
      var added := AddBlock(render, parts, blocks[n]);
      if added.None? {
        return None;
      }
      OneMore(render, blocks[..n], blocks[n]);
      assert blocks[..n + 1] == blocks[..n] + [blocks[n]];
      parts := added.value;
    }
    assert blocks[..|blocks|] == blocks;
    text := Some(parts);
  }

  /** `_extract_text`. */
  method ExtractText(render: Render, content: Json) returns (text: Option<Str>)
    ensures text == Spoken(render, content)
    decreases content
  {
    match content
    case JString(s) => text := Some(s);
    case JArray(blocks) => text := JoinBlocks(render, blocks);
    case JObject(ms) =>
      NestedSmaller(ms);
      var nested := Nested(ms);
      if nested.Some? {
        text := ExtractText(render, nested.value);
      } else {
        text := Some([]);
      }
    case _ => text := Some(if Truthy(content) then render(content) else []);
  }

  // ---------------------------------------------------------------------------
  // What is said, shape by shape

  predicate HasType(block: Json, n: string) {
    block.JObject? && Get(block.members, Name("type")) == Some(JString(Name(n)))
  }

  /** The block marks a tool call or its result, in any of the ten spellings. */
  predicate MarksTool(block: Json) {
    || HasType(block, "toolCall") || HasType(block, "toolUse") || HasType(block, "functionCall")
    || HasType(block, "tool_call") || HasType(block, "tool_use") || HasType(block, "function_call")
    || HasType(block, "toolResult") || HasType(block, "tool_result") || HasType(block, "tool_result_error")
    || HasType(block, "function_call_output")
  }

  /** What a block adds: a text block its text, a bare string itself, any other nothing. */
  function Says(render: Render, block: Json): Str {
    if HasType(block, "text") then
      match Get(block.members, Name("text"))
      case Some(JString(s)) => s
      case Some(other) => render(other)
      case None => []
    else
      match block
      case JString(s) => s
      case _ => []
  }

  function SaysAll(render: Render, blocks: seq<Json>): Str {
    if blocks == [] then []
    else SaysAll(render, blocks[..|blocks| - 1]) + Says(render, blocks[|blocks| - 1])
  }

  lemma TypesApart()
    ensures forall n :: n in TOOL_TYPES ==> Name(n) != Name("text")
  {
    assert forall n :: n in TOOL_TYPES ==> |n| > 4;
    assert forall n :: n in TOOL_TYPES ==> |Name(n)| == |n|;
    assert |Name("text")| == 4;
  }

  lemma BlockKinds(render: Render, block: Json)
    ensures ToolBlock(block) <==> MarksTool(block)
    ensures BlockText(render, block) == Says(render, block)
  {
    TypesApart();
    if MarksTool(block) {
      ToolTypeListed(block);
    }
  }

  lemma ToolTypeListed(block: Json)
    requires MarksTool(block)
    ensures exists n :: n in TOOL_TYPES && HasType(block, n)
  {
    assert "toolCall" in TOOL_TYPES && "toolUse" in TOOL_TYPES && "functionCall" in TOOL_TYPES;
    assert "tool_call" in TOOL_TYPES && "tool_use" in TOOL_TYPES && "function_call" in TOOL_TYPES;
    assert "toolResult" in TOOL_TYPES && "tool_result" in TOOL_TYPES && "tool_result_error" in TOOL_TYPES;
    assert "function_call_output" in TOOL_TYPES;
  }

  lemma {:induction false} SaysIsTexts(render: Render, blocks: seq<Json>)
    ensures BlockTexts(render, blocks) == SaysAll(render, blocks)
  {
    if blocks != [] {
      var front, last := blocks[..|blocks| - 1], blocks[|blocks| - 1];
      SaysIsTexts(render, front);
      BlockKinds(render, last);
      assert blocks == front + [last];
      BlockTextsConcat(render, front, [last]);
      assert [last][1..] == [];
      assert BlockTexts(render, [last]) == BlockText(render, last) + [];
    }
  }

  /** Some block's type is no key a Python set can look up. */
  predicate SomeTypeUnhashable(blocks: seq<Json>) {
    exists i :: 0 <= i < |blocks| && blocks[i].JObject? &&
      var t := Get(blocks[i].members, Name("type")); t.Some? && (t.value.JArray? || t.value.JObject?)
  }

  lemma ReadableExactly(blocks: seq<Json>)
    ensures Readable(blocks) <==> !SomeTypeUnhashable(blocks)
  {}

  /** Main result on a list of blocks: what is said is what the blocks after the last tool
      block say, all of it and in order; only a type that cannot be looked up stops it. */
  lemma SpokenList(render: Render, blocks: seq<Json>) returns (n: nat)
    ensures n <= |blocks| && (n == 0 || MarksTool(blocks[n - 1]))
    ensures forall i :: n <= i < |blocks| ==> !MarksTool(blocks[i])
    ensures Spoken(render, JArray(blocks))
         == if SomeTypeUnhashable(blocks) then None else Some(SaysAll(render, blocks[n..]))
  {
    n := AfterTools(blocks);
    AfterToolsExactly(blocks);
    ReadableExactly(blocks);
    SaysIsTexts(render, blocks[n..]);
    ToolsMarked(render, blocks);
  }

  lemma ToolsMarked(render: Render, blocks: seq<Json>)
    ensures forall i :: 0 <= i < |blocks| ==> (ToolBlock(blocks[i]) <==> MarksTool(blocks[i]))
  {
    forall i | 0 <= i < |blocks|
      ensures ToolBlock(blocks[i]) <==> MarksTool(blocks[i])
    {
      BlockKinds(render, blocks[i]);
    }
  }

  /** A field that holds something: not null, false, zero or empty. */
  predicate Holds(ms: seq<Member>, field: string) {
    Get(ms, Name(field)).Some? && Truthy(Get(ms, Name(field)).value)
  }

  /** Every other shape: a string says itself; an object what the first of its fields
      content, text and message says that holds something, or nothing; null, false and
      zero nothing; and any other value its own text. */
  lemma SpokenShapes(render: Render, s: Str, ms: seq<Member>, b: bool, i: int, f: ValidFloats)
    ensures Spoken(render, JString(s)) == Some(s)
    ensures Spoken(render, JObject(ms))
         == if Holds(ms, "content") then Spoken(render, Get(ms, Name("content")).value)
            else if Holds(ms, "text") then Spoken(render, Get(ms, Name("text")).value)
            else if Holds(ms, "message") then Spoken(render, Get(ms, Name("message")).value)
            else Some([])
    ensures Spoken(render, JNull) == Some([])
    ensures Spoken(render, JBool(b)) == Some(if b then render(JBool(true)) else [])
    ensures Spoken(render, JInt(i)) == Some(if i == 0 then [] else render(JInt(i)))
    ensures Spoken(render, JFloat(f)) == Some(if f.Zero? then [] else render(JFloat(f)))
  {}
}
