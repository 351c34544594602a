/** Python's view of a decoded JSON document: dicts keep insertion order. */
module JsonModel {
  import opened Text
  import opened JsonNumbers

  datatype Option<+T> = None | Some(value: T)

  datatype Member = Member(key: Str, value: Json)

  datatype Json =
    | JNull
    | JBool(b: bool)
    | JInt(i: int)
    | JFloat(f: ValidFloats)
    | JString(s: Str)
    | JArray(items: seq<Json>)
    | JObject(members: seq<Member>)

  /** `bool(value)`. */
  predicate Truthy(v: Json) {
    match v
    case JNull => false
    case JBool(b) => b
    case JInt(i) => i != 0
    case JFloat(f) => !f.Zero?
    case JString(s) => s != []
    case JArray(items) => items != []
    case JObject(ms) => ms != []
  }

  /** Everything but null, false, zero and what is empty. */
  lemma TruthyExactly(v: Json)
    ensures Truthy(v) <==>
            && v !in {JNull, JBool(false), JInt(0), JString([]), JArray([]), JObject([])}
            && !(v.JFloat? && v.f.Zero?)
  {}

  /** A dict holds each key once. */
  predicate DistinctKeys(ms: seq<Member>) {
    forall i, j :: 0 <= i < j < |ms| ==> ms[i].key != ms[j].key
  }

  predicate HasKey(ms: seq<Member>, key: Str) {
    exists i :: 0 <= i < |ms| && ms[i].key == key
  }

  /** `dict.get(key)`. */
  function Get(ms: seq<Member>, key: Str): (r: Option<Json>)
    ensures r.Some? <==> HasKey(ms, key)
    ensures r.Some? ==> Member(key, r.value) in ms
  {
    if ms == [] then None
    else if ms[0].key == key then Some(ms[0].value)
    else
      assert forall i :: 0 < i < |ms| ==> ms[i] == ms[1..][i - 1];
      Get(ms[1..], key)
  }

  /** `d[key] = value`: in place when present, appended otherwise. */
  function Put(ms: seq<Member>, key: Str, value: Json): seq<Member> {
    if ms == [] then [Member(key, value)]
    else if ms[0].key == key then [Member(key, value)] + ms[1..]
    else [ms[0]] + Put(ms[1..], key, value)
  }

  lemma {:induction false} GetPut(ms: seq<Member>, key: Str, value: Json, other: Str)
    ensures Get(Put(ms, key, value), other) == if other == key then Some(value) else Get(ms, other)
  {
    if ms != [] && ms[0].key != key {
      GetPut(ms[1..], key, value, other);
    } else if ms != [] {
      assert ([Member(key, value)] + ms[1..])[1..] == ms[1..];
    }
  }

  /** The dict without one key, as after `pop`. */
  function Without(ms: seq<Member>, key: Str): (r: seq<Member>)
    ensures |r| <= |ms|
  {
    if ms == [] then []
    else if ms[0].key == key then Without(ms[1..], key)
    else [ms[0]] + Without(ms[1..], key)
  }

  lemma {:induction false} WithoutMembers(ms: seq<Member>, key: Str)
    ensures forall m :: m in Without(ms, key) <==> m in ms && m.key != key
  {
    if ms != [] {
      WithoutMembers(ms[1..], key);
      assert ms == [ms[0]] + ms[1..];
    }
  }

  lemma {:induction false} GetWithout(ms: seq<Member>, key: Str, other: Str)
    ensures Get(Without(ms, key), other) == if other == key then None else Get(ms, other)
  {
    if ms != [] {
      GetWithout(ms[1..], key, other);
    }
  }

  lemma {:induction false} WithoutAbsent(ms: seq<Member>, key: Str)
    requires !HasKey(ms, key)
    ensures Without(ms, key) == ms
  {
    if ms != [] {
      assert ms[0].key != key;
      assert forall i :: 0 <= i < |ms| - 1 ==> ms[1..][i] == ms[i + 1];
      WithoutAbsent(ms[1..], key);
    }
  }

  lemma {:induction false} WithoutConcat(a: seq<Member>, b: seq<Member>, key: Str)
    ensures Without(a + b, key) == Without(a, key) + Without(b, key)
  {
    if a == [] {
      assert a + b == b;
    } else {
      WithoutConcat(a[1..], b, key);
      var s := a + b;
      assert s[0] == a[0];
      assert s[1..] == a[1..] + b;
      Assoc([a[0]], Without(a[1..], key), Without(b, key));
    }
  }

  lemma {:induction false} GetConcat(a: seq<Member>, b: seq<Member>, key: Str)
    requires !HasKey(a, key)
    ensures Get(a + b, key) == Get(b, key)
  {
    if a == [] {
      assert a + b == b;
    } else {
      assert a[0].key != key;
      assert forall i :: 0 <= i < |a| - 1 ==> a[1..][i] == a[i + 1];
      GetConcat(a[1..], b, key);
      assert (a + b)[0] == a[0];
      assert (a + b)[1..] == a[1..] + b;
    }
  }
}
