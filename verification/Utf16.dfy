/** UTF-16 and the two key orders that must agree: Python sorts by UTF-16-BE
    bytes (`_utf16_key`), JavaScript's `sort` by UTF-16 code units. */
module Utf16 {
  import opened Text

  predicate IsHigh(c: CodePoint) { 0xD800 <= c < 0xDC00 }
  predicate IsLow(c: CodePoint) { 0xDC00 <= c < 0xE000 }
  predicate IsSurrogate(c: CodePoint) { 0xD800 <= c < 0xE000 }

  function EncodeCode(c: CodePoint): seq<Unit> {
    if c < 0x1_0000 then [c]
    else [0xD800 + (c - 0x1_0000) / 0x400, 0xDC00 + (c - 0x1_0000) % 0x400]
  }

  /** UTF-16 with lone surrogates passed through. */
  function Encode(s: Str): seq<Unit> {
    if s == [] then [] else EncodeCode(s[0]) + Encode(s[1..])
  }

  predicate StartsWithPair(u: seq<Unit>) {
    |u| >= 2 && IsHigh(u[0]) && IsLow(u[1])
  }

  /** The code points of a JavaScript string: pairs join, lone surrogates stay. */
  function Decode(u: seq<Unit>): Str {
    if u == [] then []
    else if StartsWithPair(u) then
      [0x1_0000 + (u[0] - 0xD800) * 0x400 + (u[1] - 0xDC00)] + Decode(u[2..])
    else [u[0]] + Decode(u[1..])
  }

  /** No high surrogate directly followed by a low one as separate code points. */
  predicate NoSplitPair(s: Str) {
    forall i :: 0 <= i < |s| - 1 ==> !(IsHigh(s[i]) && IsLow(s[i + 1]))
  }

  lemma {:induction false} EncodeDecode(u: seq<Unit>)
    ensures Encode(Decode(u)) == u
    ensures NoSplitPair(Decode(u))
    ensures Decode(u) == [] <==> u == []
    ensures Decode(u) != [] && IsLow(Decode(u)[0]) ==> IsLow(u[0])
  {
    if u != [] {
      var n := if StartsWithPair(u) then 2 else 1;
      EncodeDecode(u[n..]);
      var s := Decode(u);
      assert s[1..] == Decode(u[n..]);
      assert u == u[..n] + u[n..];
      forall i | 0 <= i < |s| - 1
        ensures !(IsHigh(s[i]) && IsLow(s[i + 1]))
      {
        if i > 0 {
          assert s[i] == s[1..][i - 1] && s[i + 1] == s[1..][i];
        }
      }
    }
  }

  lemma {:induction false} DecodeOfEncode(s: Str)
    requires NoSplitPair(s)
    ensures Decode(Encode(s)) == s
  {
    if s != [] {
      DecodeOfEncode(s[1..]);
      var rest := Encode(s[1..]);
      var u := EncodeCode(s[0]) + rest;
      if s[0] >= 0x1_0000 {
        assert u[2..] == rest;
      } else {
        assert u[1..] == rest;
        if |s| > 1 {
          assert rest[0] == EncodeCode(s[1])[0];
        }
      }
    }
  }

  /** Encoding loses nothing exactly on strings without a split pair. */
  lemma DecodeEncode(s: Str)
    ensures Decode(Encode(s)) == s <==> NoSplitPair(s)
  {
    EncodeDecode(Encode(s));
    if NoSplitPair(s) {
      DecodeOfEncode(s);
    }
  }

  /** The string with split pairs joined, as `json.loads` joins escaped ones. */
  function Joined(s: Str): Str {
    Decode(Encode(s))
  }

  lemma {:induction false} EncodeConcat(a: Str, b: Str)
    ensures Encode(a + b) == Encode(a) + Encode(b)
  {
    if a == [] {
      assert a + b == b;
    } else {
      EncodeConcat(a[1..], b);
      var s := a + b;
      assert s[0] == a[0];
      assert s[1..] == a[1..] + b;
      Assoc(EncodeCode(a[0]), Encode(a[1..]), Encode(b));
    }
  }

  /** Code points of the basic plane are their own single units. */
  lemma {:induction false} EncodeBasic(s: seq<Unit>)
    ensures Encode(s) == s
  {
    if s != [] {
      EncodeBasic(s[1..]);
      assert s == [s[0]] + s[1..];
    }
  }

  // ---------------------------------------------------------------------------
  // Orders

  /** Lexicographic order, a prefix first. */
  predicate LexLeq(a: seq<int>, b: seq<int>) {
    a == [] || (b != [] && (a[0] < b[0] || (a[0] == b[0] && LexLeq(a[1..], b[1..]))))
  }

  lemma {:induction false} LexTotal(a: seq<int>, b: seq<int>)
    ensures LexLeq(a, b) || LexLeq(b, a)
    ensures LexLeq(a, b) && LexLeq(b, a) ==> a == b
  {
    if a != [] && b != [] {
      LexTotal(a[1..], b[1..]);
      assert a == [a[0]] + a[1..] && b == [b[0]] + b[1..];
    }
  }

  lemma {:induction false} LexTransitive(a: seq<int>, b: seq<int>, c: seq<int>)
    requires LexLeq(a, b) && LexLeq(b, c)
    ensures LexLeq(a, c)
  {
    if a != [] && a[0] == b[0] == c[0] {
      LexTransitive(a[1..], b[1..], c[1..]);
    }
  }

  /** The big-endian bytes of a unit sequence. */
  function BigEndian(u: seq<Unit>): seq<Byte> {
    if u == [] then [] else [u[0] / 0x100, u[0] % 0x100] + BigEndian(u[1..])
  }

  /** Byte order is unit order: the high byte of each unit decides first. */
  lemma {:induction false} ByteOrderIsUnitOrder(a: seq<Unit>, b: seq<Unit>)
    ensures LexLeq(BigEndian(a), BigEndian(b)) == LexLeq(a, b)
  {
    if a != [] && b != [] {
      ByteOrderIsUnitOrder(a[1..], b[1..]);
      var x, y := BigEndian(a), BigEndian(b);
      assert x[1..][1..] == BigEndian(a[1..]);
      assert y[1..][1..] == BigEndian(b[1..]);
      assert x[1..][0] == a[0] % 0x100 && y[1..][0] == b[0] % 0x100;
    }
  }

  // ---------------------------------------------------------------------------
  // Stable sorting by an order key

  datatype Entry<T> = Entry(order: seq<int>, item: T)

  function Items<T>(es: seq<Entry<T>>): (r: seq<T>)
    ensures |r| == |es|
    ensures forall i :: 0 <= i < |es| ==> r[i] == es[i].item
  {
    seq(|es|, i requires 0 <= i < |es| => es[i].item)
  }

  function Insert<T>(e: Entry<T>, es: seq<Entry<T>>): seq<Entry<T>> {
    if es == [] || LexLeq(e.order, es[0].order) then [e] + es
    else [es[0]] + Insert(e, es[1..])
  }

  /** A stable sort: equal keys keep their order. */
  function Sort<T>(es: seq<Entry<T>>): seq<Entry<T>> {
    if es == [] then [] else Insert(es[0], Sort(es[1..]))
  }

  ghost predicate Sorted<T>(es: seq<Entry<T>>) {
    forall i, j :: 0 <= i <= j < |es| ==> LexLeq(es[i].order, es[j].order)
  }

  ghost predicate DistinctOrders<T>(es: seq<Entry<T>>) {
    forall i, j :: 0 <= i < j < |es| ==> es[i].order != es[j].order
  }

  lemma {:induction false} InsertAdds<T>(e: Entry<T>, es: seq<Entry<T>>)
    ensures multiset(Insert(e, es)) == multiset{e} + multiset(es)
  {
    if es != [] && !LexLeq(e.order, es[0].order) {
      InsertAdds(e, es[1..]);
      assert es == [es[0]] + es[1..];
    }
  }

  lemma {:induction false} InsertSorted<T>(e: Entry<T>, es: seq<Entry<T>>)
    requires Sorted(es)
    ensures Sorted(Insert(e, es))
  {
    LexTotal(e.order, e.order);
    if es == [] || LexLeq(e.order, es[0].order) {
      forall j | 0 <= j < |es|
        ensures LexLeq(e.order, es[j].order)
      {
        LexTransitive(e.order, es[0].order, es[j].order);
      }
    } else {
      LexTotal(e.order, es[0].order);
      InsertSorted(e, es[1..]);
      InsertAdds(e, es[1..]);
      var tail := Insert(e, es[1..]);
      forall j | 0 <= j < |tail|
        ensures LexLeq(es[0].order, tail[j].order)
      {
        assert tail[j] in multiset(tail);
      }
      LexTotal(es[0].order, es[0].order);
    }
  }

  lemma {:induction false} SortSorts<T>(es: seq<Entry<T>>)
    ensures Sorted(Sort(es)) && multiset(Sort(es)) == multiset(es)
  {
    if es != [] {
      SortSorts(es[1..]);
      InsertSorted(es[0], Sort(es[1..]));
      InsertAdds(es[0], Sort(es[1..]));
      assert es == [es[0]] + es[1..];
    }
  }

  lemma ItemsHead<T>(e: Entry<T>, es: seq<Entry<T>>)
    ensures multiset(Items([e] + es)) == multiset{e.item} + multiset(Items(es))
  {
    assert Items([e] + es) == [e.item] + Items(es);
  }

  lemma {:induction false} InsertAddsItem<T>(e: Entry<T>, es: seq<Entry<T>>)
    ensures multiset(Items(Insert(e, es))) == multiset{e.item} + multiset(Items(es))
  {
    if es == [] || LexLeq(e.order, es[0].order) {
      ItemsHead(e, es);
    } else {
      InsertAddsItem(e, es[1..]);
      ItemsHead(es[0], Insert(e, es[1..]));
      ItemsHead(es[0], es[1..]);
      assert es == [es[0]] + es[1..];
    }
  }

  lemma {:induction false} SortKeepsItems<T>(es: seq<Entry<T>>)
    ensures multiset(Items(Sort(es))) == multiset(Items(es))
  {
    if es != [] {
      SortKeepsItems(es[1..]);
      InsertAddsItem(es[0], Sort(es[1..]));
      ItemsHead(es[0], es[1..]);
      assert es == [es[0]] + es[1..];
    }
  }

  /** Two sorted arrangements of the same entries start alike. */
  lemma SortedHeads<T>(a: seq<Entry<T>>, b: seq<Entry<T>>)
    requires Sorted(a) && Sorted(b) && DistinctOrders(a)
    requires multiset(a) == multiset(b) && a != [] && b != []
    ensures a[0] == b[0]
  {
    assert a[0] in multiset(b) && b[0] in multiset(a);
    var i :| 0 <= i < |b| && b[i] == a[0];
    var j :| 0 <= j < |a| && a[j] == b[0];
    LexTotal(a[0].order, b[0].order);
  }

  lemma {:induction false} SortedUnique<T>(a: seq<Entry<T>>, b: seq<Entry<T>>)
    requires Sorted(a) && Sorted(b) && DistinctOrders(a)
    requires multiset(a) == multiset(b)
    ensures a == b
  {
    assert |a| == |multiset(a)| && |b| == |multiset(b)|;
    if a != [] {
      SortedHeads(a, b);
      MultisetTail(a);
      MultisetTail(b);
      SortedUnique(a[1..], b[1..]);
      assert a == [a[0]] + a[1..] && b == [b[0]] + b[1..];
    }
  }

  lemma MultisetTail<T>(s: seq<T>)
    requires s != []
    ensures multiset(s[1..]) == multiset(s) - multiset{s[0]}
  {
    assert s == [s[0]] + s[1..];
  }

  lemma {:induction false} InsertDistinct<T>(e: Entry<T>, es: seq<Entry<T>>)
    requires DistinctOrders(es) && forall x :: x in es ==> x.order != e.order
    ensures DistinctOrders(Insert(e, es))
    ensures forall x :: x in Insert(e, es) ==> x == e || x in es
  {
    if es != [] && !LexLeq(e.order, es[0].order) {
      InsertDistinct(e, es[1..]);
      var tail := Insert(e, es[1..]);
      forall j | 0 <= j < |tail|
        ensures tail[j].order != es[0].order
      {
        assert tail[j] in tail;
      }
    }
  }

  lemma {:induction false} SortDistinct<T>(es: seq<Entry<T>>)
    requires DistinctOrders(es)
    ensures DistinctOrders(Sort(es))
    ensures forall x :: x in Sort(es) ==> x in es
  {
    if es != [] {
      SortDistinct(es[1..]);
      InsertDistinct(es[0], Sort(es[1..]));
    }
  }

  /** With distinct keys the sorted sequence does not depend on the order given. */
  lemma SortIgnoresOrder<T>(a: seq<Entry<T>>, b: seq<Entry<T>>)
    requires multiset(a) == multiset(b) && DistinctOrders(a)
    ensures Sort(a) == Sort(b)
  {
    SortSorts(a);
    SortSorts(b);
    SortDistinct(a);
    SortedUnique(Sort(a), Sort(b));
  }

  /** The same entries with every item rendered by `f`. */
  function Rendered<T, U>(es: seq<Entry<T>>, f: T -> U): (r: seq<Entry<U>>)
    ensures |r| == |es|
    ensures forall i :: 0 <= i < |es| ==> r[i] == Entry(es[i].order, f(es[i].item))
  {
    if es == [] then [] else [Entry(es[0].order, f(es[0].item))] + Rendered(es[1..], f)
  }

  lemma {:induction false} InsertRendered<T, U>(e: Entry<T>, es: seq<Entry<T>>, f: T -> U)
    ensures Rendered(Insert(e, es), f) == Insert(Entry(e.order, f(e.item)), Rendered(es, f))
  {
    if es != [] && !LexLeq(e.order, es[0].order) {
      InsertRendered(e, es[1..], f);
    }
  }

  /** Rendering items before or after the sort gives the same sequence. */
  lemma {:induction false} SortRendered<T, U>(es: seq<Entry<T>>, f: T -> U)
    ensures Rendered(Sort(es), f) == Sort(Rendered(es, f))
  {
    if es != [] {
      SortRendered(es[1..], f);
      InsertRendered(es[0], Sort(es[1..]), f);
    }
  }

  predicate UnitOrder<T>(e: Entry<T>) {
    forall i :: 0 <= i < |e.order| ==> 0 <= e.order[i] < 0x1_0000
  }

  predicate UnitKeyed<T>(es: seq<Entry<T>>) {
    forall i :: 0 <= i < |es| ==> UnitOrder(es[i])
  }

  /** The same entries keyed by bytes instead of units. */
  function ByteKeyed<T>(es: seq<Entry<T>>): (r: seq<Entry<T>>)
    requires UnitKeyed(es)
    ensures |r| == |es|
    ensures forall i :: 0 <= i < |es| ==> r[i] == Entry(BigEndian(es[i].order), es[i].item)
  {
    if es == [] then [] else [Entry(BigEndian(es[0].order), es[0].item)] + ByteKeyed(es[1..])
  }

  lemma {:induction false} InsertByteKeyed<T>(e: Entry<T>, es: seq<Entry<T>>)
    requires UnitOrder(e) && UnitKeyed(es)
    ensures UnitKeyed(Insert(e, es))
    ensures ByteKeyed(Insert(e, es)) == Insert(Entry(BigEndian(e.order), e.item), ByteKeyed(es))
  {
    if es != [] {
      ByteOrderIsUnitOrder(e.order, es[0].order);
      if !LexLeq(e.order, es[0].order) {
        InsertByteKeyed(e, es[1..]);
      }
    }
  }

  /** Sorting by UTF-16-BE bytes is sorting by code units. */
  lemma {:induction false} SortByteKeyed<T>(es: seq<Entry<T>>)
    requires UnitKeyed(es)
    ensures UnitKeyed(Sort(es)) && ByteKeyed(Sort(es)) == Sort(ByteKeyed(es))
  {
    if es != [] {
      SortByteKeyed(es[1..]);
      InsertByteKeyed(es[0], Sort(es[1..]));
    }
  }
}
