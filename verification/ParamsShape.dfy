/** The bound on invoke params (`_check_params_shape` in gateway_ws.py): an explicit
    stack walk that must accept exactly what plain recursion accepts. */
module ParamsShape {
  import opened JsonModel

  const MAX_DEPTH: int := 64
  const MAX_MEMBERS: int := 4096

  // ---------------------------------------------------------------------------
  // The specification: plain recursion

  /** How many containers deep a value nests. */
  function Depth(v: Json): nat
    decreases v, 1
  {
    match v
    case JObject(ms) => 1 + DeepestMember(ms)
    case JArray(items) => 1 + DeepestItem(items)
    case _ => 0
  }

  function DeepestMember(ms: seq<Member>): nat
    decreases ms, 0
  {
    if ms == [] then 0
    else
      var first, rest := Depth(ms[0].value), DeepestMember(ms[1..]);
      if first > rest then first else rest
  }

  function DeepestItem(items: seq<Json>): nat
    decreases items, 0
  {
    if items == [] then 0
    else
      var first, rest := Depth(items[0]), DeepestItem(items[1..]);
      if first > rest then first else rest
  }

  /** How many members and items a value holds at every level. */
  function Members(v: Json): nat
    decreases v, 1
  {
    match v
    case JObject(ms) => |ms| + MembersBelow(ms)
    case JArray(items) => |items| + ItemsBelow(items)
    case _ => 0
  }

  function MembersBelow(ms: seq<Member>): nat
    decreases ms, 0
  {
    if ms == [] then 0 else Members(ms[0].value) + MembersBelow(ms[1..])
  }

  function ItemsBelow(items: seq<Json>): nat
    decreases items, 0
  {
    if items == [] then 0 else Members(items[0]) + ItemsBelow(items[1..])
  }

  // ---------------------------------------------------------------------------
  // The walk

  function ValuesOf(ms: seq<Member>): (r: seq<Json>)
    ensures |r| == |ms|
    ensures forall i :: 0 <= i < |ms| ==> r[i] == ms[i].value
  {
    seq(|ms|, i requires 0 <= i < |ms| => ms[i].value)
  }

  predicate Container(v: Json) {
    v.JObject? || v.JArray?
  }

  function Children(v: Json): seq<Json> {
    match v
    case JObject(ms) => ValuesOf(ms)
    case JArray(items) => items
    case _ => []
  }

  datatype Refusal = NestingExceeds | MembersExceed

  datatype Item = Item(node: Json, depth: int)

  function StackMembers(stack: seq<Item>): nat {
    if stack == [] then 0 else StackMembers(stack[..|stack| - 1]) + Members(stack[|stack| - 1].node)
  }

  predicate Fits(item: Item) {
    item.depth + Depth(item.node) - 1 <= MAX_DEPTH || !Container(item.node)
  }

  predicate StackFits(stack: seq<Item>) {
    forall i :: 0 <= i < |stack| ==> Fits(stack[i])
  }

  function Pushed(vs: seq<Json>, depth: int): (r: seq<Item>)
    ensures |r| == |vs|
    ensures forall i :: 0 <= i < |vs| ==> r[i] == Item(vs[i], depth)
  {
    seq(|vs|, i requires 0 <= i < |vs| => Item(vs[i], depth))
  }

  lemma StackMembersOne(stack: seq<Item>, item: Item)
    ensures StackMembers(stack + [item]) == StackMembers(stack) + Members(item.node)
  {
    assert (stack + [item])[..|stack|] == stack;
  }

  lemma PushedFirst(vs: seq<Json>, depth: int)
    requires vs != []
    ensures Pushed(vs, depth) == [Item(vs[0], depth)] + Pushed(vs[1..], depth)
  {}

  lemma {:induction false} StackMembersPushed(stack: seq<Item>, vs: seq<Json>, depth: int)
    ensures StackMembers(stack + Pushed(vs, depth)) == StackMembers(stack) + ItemsBelow(vs)
    decreases |vs|
  {
    if vs == [] {
      assert stack + Pushed(vs, depth) == stack;
    } else {
      var one, rest := [Item(vs[0], depth)], Pushed(vs[1..], depth);
      PushedFirst(vs, depth);
      assert stack + (one + rest) == stack + one + rest;
      StackMembersOne(stack, one[0]);
      StackMembersPushed(stack + one, vs[1..], depth);
    }
  }

  lemma {:induction false} ValuesBelow(ms: seq<Member>)
    ensures MembersBelow(ms) == ItemsBelow(ValuesOf(ms)) && DeepestMember(ms) == DeepestItem(ValuesOf(ms))
  {
    if ms != [] {
      ValuesBelow(ms[1..]);
      assert ValuesOf(ms)[1..] == ValuesOf(ms[1..]);
    }
  }

  /** A container's measures, from its children. */
  lemma ChildrenMeasure(v: Json)
    requires Container(v)
    ensures Members(v) == |Children(v)| + ItemsBelow(Children(v)) && Depth(v) == 1 + DeepestItem(Children(v))
  {
    if v.JObject? {
      ValuesBelow(v.members);
    }
  }

  lemma {:induction false} DeepestBound(vs: seq<Json>, bound: nat)
    ensures DeepestItem(vs) <= bound <==> forall i :: 0 <= i < |vs| ==> Depth(vs[i]) <= bound
    decreases |vs|
  {
    if vs != [] {
      DeepestBound(vs[1..], bound);
      assert forall i :: 0 < i < |vs| ==> vs[i] == vs[1..][i - 1];
    }
  }

  /** A container fits exactly when it is not too deep and its children fit below it. */
  lemma FitsChildren(item: Item)
    requires Container(item.node)
    ensures Fits(item) <==> item.depth <= MAX_DEPTH && StackFits(Pushed(Children(item.node), item.depth + 1))
  {
    var vs := Children(item.node);
    ChildrenMeasure(item.node);
    if item.depth <= MAX_DEPTH {
      DeepestBound(vs, MAX_DEPTH - item.depth);
      var pushed := Pushed(vs, item.depth + 1);
      forall i | 0 <= i < |vs|
        ensures Fits(pushed[i]) <==> Depth(vs[i]) <= MAX_DEPTH - item.depth
      {
        assert !Container(vs[i]) ==> Depth(vs[i]) == 0;
      }
    }
  }

  /** Replacing a container by its children moves its own members to the counter and
      asks the same of what is left. */
  lemma ContainerStep(stack: seq<Item>, item: Item)
    requires Container(item.node)
    ensures var next := stack + Pushed(Children(item.node), item.depth + 1);
            && StackMembers(stack + [item]) == |Children(item.node)| + StackMembers(next)
            && (item.depth <= MAX_DEPTH ==> (StackFits(next) <==> StackFits(stack + [item])))
            && (StackFits(stack + [item]) ==> item.depth <= MAX_DEPTH)
  {
    var pushed := Pushed(Children(item.node), item.depth + 1);
    StackMembersOne(stack, item);
    ChildrenMeasure(item.node);
    StackMembersPushed(stack, Children(item.node), item.depth + 1);
    FitsChildren(item);
    FitsConcat(stack, pushed);
    FitsConcat(stack, [item]);
    assert StackFits([item]) <==> Fits(item);
  }

  lemma FitsConcat(a: seq<Item>, b: seq<Item>)
    ensures StackFits(a + b) <==> StackFits(a) && StackFits(b)
  {
    if StackFits(a + b) {
      assert forall i :: 0 <= i < |a| ==> a[i] == (a + b)[i];
      assert forall i :: 0 <= i < |b| ==> b[i] == (a + b)[|a| + i];
    }
  }

  lemma ScalarStep(stack: seq<Item>, item: Item)
    requires !Container(item.node)
    ensures StackMembers(stack + [item]) == StackMembers(stack)
    ensures StackFits(stack + [item]) <==> StackFits(stack)
  {
    StackMembersOne(stack, item);
    FitsConcat(stack, [item]);
    assert StackFits([item]) <==> Fits(item);
  }

  /** The walk accepts exactly the values whose every container is at depth 64 or less
      and that hold at most 4096 members in all, and names a bound that is broken. */
  method CheckParamsShape(decoded: Json) returns (refusal: Option<Refusal>)
    ensures refusal.None? <==> Depth(decoded) <= 64 && Members(decoded) <= 4096
    ensures refusal == Some(NestingExceeds) ==> Depth(decoded) > 64
    ensures refusal == Some(MembersExceed) ==> Members(decoded) > 4096
  {
    var members := 0;
    var stack := [Item(decoded, 1)];
    RootItem(decoded);
    while stack != []
      invariant members + StackMembers(stack) == Members(decoded)
      invariant members <= MAX_MEMBERS
      invariant StackFits(stack) <==> Depth(decoded) <= MAX_DEPTH
      decreases |stack| + StackMembers(stack)
    {
      var item, rest := stack[|stack| - 1], stack[..|stack| - 1];
      assert stack == rest + [item];
      stack := rest;
      if Container(item.node) {
        ContainerStep(rest, item);
        var children := Children(item.node);
        if item.depth > MAX_DEPTH {
          return Some(NestingExceeds);
        }
        members := members + |children|;
        if members > MAX_MEMBERS {
          return Some(MembersExceed);
        }
        stack := stack + Pushed(children, item.depth + 1);
      } else {
        ScalarStep(rest, item);
      }
    }
    refusal := None;
  }

  lemma RootItem(v: Json)
    ensures StackMembers([Item(v, 1)]) == Members(v)
    ensures StackFits([Item(v, 1)]) <==> Depth(v) <= MAX_DEPTH
  {
    StackMembersOne([], Item(v, 1));
    assert [] + [Item(v, 1)] == [Item(v, 1)];
    assert Fits([Item(v, 1)][0]) <==> Depth(v) <= MAX_DEPTH;
  }
}
