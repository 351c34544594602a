/** One line of a backup index (`Version.to_json` and `Version.from_json` in
    backup_store.py). */
module VersionLine {
  import opened Text
  import opened Utf16
  import opened JsonNumbers
  import opened JsonStrings
  import opened JsonModel
  import opened CanonicalJson

  datatype Op = Write | Delete | MoveSrc | MoveDst | Restore | Patch

  datatype Version = Version(
    ts: Str,
    proposalId: Str,
    sha: Str,
    size: nat,
    op: Op,
    actor: Str,
    prev: Option<Str>,
    evicted: bool)

  function OpName(op: Op): Str {
    match op
    case Write => Name("write")
    case Delete => Name("delete")
    case MoveSrc => Name("move-src")
    case MoveDst => Name("move-dst")
    case Restore => Name("restore")
    case Patch => Name("patch")
  }

  /** The fields in the order `sort_keys` puts them. */
  datatype Key = KActor | KEvicted | KOp | KPrev | KProposal | KSha | KSize | KTs

  function KeyName(k: Key): Str {
    match k
    case KActor => Name("actor")
    case KEvicted => Name("evicted")
    case KOp => Name("op")
    case KPrev => Name("prev_sha256")
    case KProposal => Name("proposal_id")
    case KSha => Name("sha256")
    case KSize => Name("size")
    case KTs => Name("ts")
  }

  // ---------------------------------------------------------------------------
  // Printing (`json.dumps` with its default ASCII escapes)

  function AsciiUnit(u: Unit): (r: seq<Unit>)
    ensures r != [] && r[0] != QUOTE
  {
    if ShortEscape(u) != 0 then [BACKSLASH, ShortEscape(u)]
    else if 0x20 <= u <= 0x7E then [u]
    else UnicodeEscape(u)
  }

  function AsciiBody(u: seq<Unit>): seq<Unit> {
    if u == [] then [] else AsciiUnit(u[0]) + AsciiBody(u[1..])
  }

  /** A Python string: code points beyond 16 bits become two escapes. */
  function DumpsString(s: Str): Str {
    [QUOTE] + AsciiBody(Encode(s)) + [QUOTE]
  }

  /** A printed field and the value its text stands for. */
  datatype Field = Field(key: Key, text: Str, value: Tree)

  function StringField(k: Key, s: Str): Field {
    Field(k, DumpsString(s), TString(Encode(s)))
  }

  predicate HasField(v: Version, k: Key) {
    k == KEvicted ==> v.evicted
  }

  function FieldFor(v: Version, k: Key): (f: Field)
    ensures f.key == k
  {
    match k
    case KActor => StringField(k, v.actor)
    case KEvicted => Field(k, TRUE_TEXT, TBool(true))
    case KOp => StringField(k, OpName(v.op))
    case KPrev => if v.prev.None? then Field(k, NULL_TEXT, TNull) else StringField(k, v.prev.value)
    case KProposal => StringField(k, v.proposalId)
    case KSha => StringField(k, v.sha)
    case KSize => Field(k, IntText(v.size), TNumber(IntNumeral(v.size)))
    case KTs => StringField(k, v.ts)
  }

  function FieldsFor(v: Version, ks: seq<Key>): seq<Field> {
    if ks == [] then []
    else (if HasField(v, ks[0]) then [FieldFor(v, ks[0])] else []) + FieldsFor(v, ks[1..])
  }

  function SortedKeys(): seq<Key> {
    [KActor, KEvicted, KOp, KPrev, KProposal, KSha, KSize, KTs]
  }

  function FieldText(f: Field): Str {
    EsString(KeyName(f.key)) + ([COLON] + f.text)
  }

  function FieldTexts(fs: seq<Field>): (r: seq<Str>)
    ensures |r| == |fs|
    ensures forall i :: 0 <= i < |fs| ==> r[i] == FieldText(fs[i])
  {
    seq(|fs|, i requires 0 <= i < |fs| => FieldText(fs[i]))
  }

  function ObjectLine(fs: seq<Field>): Str {
    [OPEN_BRACE] + (JoinComma(FieldTexts(fs)) + [CLOSE_BRACE])
  }

  /** `Version.to_json`. */
  function ToJson(v: Version): Str {
    ObjectLine(FieldsFor(v, SortedKeys()))
  }

  // ---------------------------------------------------------------------------
  // Reading

  /** A repeated key takes its last value. */
  function Lookup(ms: seq<TreeMember>, key: Str): Option<Tree> {
    if ms == [] then None
    else
      var later := Lookup(ms[1..], key);
      if later.None? && ms[0].key == key then Some(ms[0].value) else later
  }

  datatype Reading = Corrupt | MissingField | UnknownOp | ReadVersion(v: Version)

  function TextIn(t: Option<Tree>): Option<Str> {
    match t
    case Some(TString(s)) => Some(Joined(s))
    case _ => None
  }

  /** `int(value)`: toward zero. */
  function Whole(t: Option<Tree>): Option<int> {
    match t
    case Some(TNumber(n)) =>
      var x := Denoted(n.num.negative, n.num.digits, n.num.exponent);
      Some(if x < 0.0 then -((-x).Floor) else x.Floor)
    case _ => None
  }

  /** `bool(d.get("evicted", False))`. */
  predicate EvictedIn(t: Option<Tree>) {
    t.Some? && Truthy(Loads(t.value))
  }

  /** `int` of a number cuts its fraction off: the result is the nearest whole number that
      is no further from zero. */
  lemma WholeTowardZero(n: Numeral)
    ensures var x := Denoted(n.num.negative, n.num.digits, n.num.exponent);
            var r := Whole(Some(TNumber(n)));
            && r.Some?
            && (x >= 0.0 ==> 0.0 <= r.value as real <= x < r.value as real + 1.0)
            && (x < 0.0 ==> r.value as real - 1.0 < x <= r.value as real <= 0.0)
  {}

  function OpOf(s: Str): Option<Op> {
    if s == OpName(Write) then Some(Write)
    else if s == OpName(Delete) then Some(Delete)
    else if s == OpName(MoveSrc) then Some(MoveSrc)
    else if s == OpName(MoveDst) then Some(MoveDst)
    else if s == OpName(Restore) then Some(Restore)
    else if s == OpName(Patch) then Some(Patch)
    else None
  }

  function FieldOf(ms: seq<TreeMember>, k: Key): Option<Tree> {
    Lookup(ms, KeyName(k))
  }

  function FromTree(ms: seq<TreeMember>): Reading {
    if exists k :: k !in {KPrev, KEvicted} && FieldOf(ms, k).None? then MissingField
    else
      var prev := FieldOf(ms, KPrev);
      if prev.Some? && !prev.value.TNull? && !prev.value.TString? then Corrupt
      else
        FromParts(TextIn(FieldOf(ms, KTs)), TextIn(FieldOf(ms, KProposal)), TextIn(FieldOf(ms, KSha)),
                  Whole(FieldOf(ms, KSize)), TextIn(FieldOf(ms, KOp)), TextIn(FieldOf(ms, KActor)), TextIn(prev),
                  EvictedIn(FieldOf(ms, KEvicted)))
  }

  function FromParts(ts: Option<Str>, proposal: Option<Str>, sha: Option<Str>, size: Option<int>, op: Option<Str>,
                     actor: Option<Str>, prev: Option<Str>, evicted: bool): Reading {
    if ts.None? || proposal.None? || sha.None? || actor.None? || op.None? || size.None? || size.value < 0 then Corrupt
    else
      match OpOf(op.value)
      case None => UnknownOp
      case Some(known) =>
        ReadVersion(Version(ts.value, proposal.value, sha.value, size.value, known, actor.value, prev, evicted))
  }

  /** `Version.from_json` on a line without its newline. */
  function FromJson(line: Str): Reading {
    match ParseValue(line)
    case Parsed(TObject(ms), rest) => if rest == [] then FromTree(ms) else Corrupt
    case _ => Corrupt
  }

  /** What reading a recorded version gives: its strings with pairs joined. */
  function Recorded(v: Version): Version {
    v.(ts := Joined(v.ts), proposalId := Joined(v.proposalId), sha := Joined(v.sha), actor := Joined(v.actor),
       prev := if v.prev.None? then None else Some(Joined(v.prev.value)))
  }

  // ---------------------------------------------------------------------------
  // Reading undoes printing

  lemma ReadAsciiUnit(u: Unit, after: Str)
    ensures ReadCode(AsciiUnit(u) + after) == Parsed(u, after)
  {
    var t := AsciiUnit(u) + after;
    if ShortEscape(u) != 0 {
      assert t[0] == BACKSLASH && t[1] == ShortEscape(u);
      assert t[2..] == after;
    } else if 0x20 <= u <= 0x7E {
      assert t[0] == u;
      assert t[1..] == after;
    } else {
      ReadBackUnicode(u, after);
      assert t[0] == BACKSLASH && t[1] == LETTER_U;
    }
  }

  lemma {:induction false} ReadAsciiBody(u: seq<Unit>, after: Str)
    ensures ReadBody(AsciiBody(u) + ([QUOTE] + after)) == Parsed(u, after)
  {
    var t := AsciiBody(u) + ([QUOTE] + after);
    if u == [] {
      assert t == [QUOTE] + after;
      assert t[1..] == after;
    } else {
      var more := AsciiBody(u[1..]) + ([QUOTE] + after);
      Assoc(AsciiUnit(u[0]), AsciiBody(u[1..]), [QUOTE] + after);
      ReadAsciiUnit(u[0], more);
      ReadAsciiBody(u[1..], after);
      assert t[0] == AsciiUnit(u[0])[0];
      assert u == [u[0]] + u[1..];
    }
  }

  /** The text parses as the value, whatever may follow it. */
  ghost predicate Reads(text: Str, value: Tree) {
    forall rest :: ReadsBefore(text, value, rest)
  }

  ghost predicate ReadsBefore(text: Str, value: Tree, rest: Str) {
    Follows(rest) ==> ParseValue(text + rest) == Parsed(value, rest)
  }

  lemma DumpsReadsBefore(s: Str, rest: Str)
    ensures ReadsBefore(DumpsString(s), TString(Encode(s)), rest)
  {
    var body: Str, quote: Str := AsciiBody(Encode(s)), [QUOTE];
    var tail := body + (quote + rest);
    ReadAsciiBody(Encode(s), rest);
    assert DumpsString(s) + rest == quote + tail;
    assert (quote + tail)[0] == QUOTE && (quote + tail)[1..] == tail;
  }

  lemma DumpsReads(s: Str)
    ensures Reads(DumpsString(s), TString(Encode(s)))
  {
    forall rest
      ensures ReadsBefore(DumpsString(s), TString(Encode(s)), rest)
    {
      DumpsReadsBefore(s, rest);
    }
  }

  lemma NumeralReadsBefore(s: Str, n: Numeral, rest: Str)
    requires s == NumeralText(n)
    ensures ReadsBefore(s, TNumber(n), rest)
  {
    if Follows(rest) {
      ParseNumberBack(n, rest);
    }
  }

  lemma NumeralReads(s: Str, n: Numeral)
    requires s == NumeralText(n)
    ensures Reads(s, TNumber(n))
  {
    forall rest
      ensures ReadsBefore(s, TNumber(n), rest)
    {
      NumeralReadsBefore(s, n, rest);
    }
  }

  lemma NumberReads(i: int)
    ensures Reads(IntText(i), TNumber(IntNumeral(i)))
  {
    IntTextIsNumeral(i);
    NumeralReads(IntText(i), IntNumeral(i));
  }

  lemma NumberWhole(i: int)
    ensures Whole(Some(TNumber(IntNumeral(i)))) == Some(i)
  {
    IntTextReadsBack(i);
    WholeOfInteger(IntNum(i), i);
  }

  lemma WholeOfInteger(n: Num, i: int)
    requires Denoted(n.negative, n.digits, n.exponent) == i as real
    ensures Whole(Some(TNumber(Token(n, false)))) == Some(i)
  {}

  lemma LiteralReads(v: Tree)
    requires v.TNull? || v.TBool?
    ensures Reads(TreeText(v), v)
  {
    forall rest | Follows(rest)
      ensures ParseValue(TreeText(v) + rest) == Parsed(v, rest)
    {
      ParseLiteralBack(v, rest);
    }
  }

  function FieldMembers(fs: seq<Field>): (r: seq<TreeMember>)
    ensures |r| == |fs|
    ensures forall i :: 0 <= i < |fs| ==> r[i] == TreeMember(KeyName(fs[i].key), fs[i].value)
  {
    seq(|fs|, i requires 0 <= i < |fs| => TreeMember(KeyName(fs[i].key), fs[i].value))
  }

  lemma FieldReads(f: Field, rest: Str)
    requires Reads(f.text, f.value) && Follows(rest)
    ensures ParseMember(FieldText(f) + rest) == Parsed(TreeMember(KeyName(f.key), f.value), rest)
  {
    assert ReadsBefore(f.text, f.value, rest);
    var key, colon := KeyName(f.key), [COLON] + f.text;
    Assoc(EsString(key), colon, rest);
    Assoc([COLON], f.text, rest);
    EsStringSplit(key, colon + rest);
    ReadBackBody(key, colon + rest);
    assert (colon + rest)[1..] == f.text + rest;
  }

  lemma {:induction false} FieldsRead(fs: seq<Field>, after: Str)
    requires fs != [] && forall f :: f in fs ==> Reads(f.text, f.value)
    ensures ParseMembers(JoinComma(FieldTexts(fs)) + ([CLOSE_BRACE] + after)) == Parsed(FieldMembers(fs), after)
  {
    var texts, close := FieldTexts(fs), [CLOSE_BRACE] + after;
    assert close[1..] == after;
    assert texts[1..] == FieldTexts(fs[1..]);
    assert FieldMembers(fs) == [FieldMembers(fs)[0]] + FieldMembers(fs[1..]);
    assert fs[0] in fs;
    if |fs| == 1 {
      FieldReads(fs[0], close);
      assert FieldMembers(fs) == [FieldMembers(fs)[0]];
    } else {
      var more := JoinComma(texts[1..]) + close;
      JoinMore(texts, close);
      FieldReads(fs[0], [COMMA] + more);
      assert ([COMMA] + more)[1..] == more;
      FieldsRead(fs[1..], after);
    }
  }

  lemma ObjectReads(fs: seq<Field>, after: Str)
    requires fs != [] && forall f :: f in fs ==> Reads(f.text, f.value)
    ensures ParseValue(ObjectLine(fs) + after) == Parsed(TObject(FieldMembers(fs)), after)
  {
    var texts := FieldTexts(fs);
    var body := JoinComma(texts) + ([CLOSE_BRACE] + after);
    FieldsRead(fs, after);
    assert texts[0] == FieldText(fs[0]);
    JoinStart(texts);
    ParseOpen(OPEN_BRACE, body);
    Assoc(JoinComma(texts), [CLOSE_BRACE], after);
    Assoc([OPEN_BRACE], JoinComma(texts) + [CLOSE_BRACE], after);
  }

  lemma FieldForReads(v: Version, k: Key)
    ensures Reads(FieldFor(v, k).text, FieldFor(v, k).value)
  {
    match k
    case KActor => DumpsReads(v.actor);
    case KEvicted => LiteralReads(TBool(true));
    case KOp => DumpsReads(OpName(v.op));
    case KPrev =>
      if v.prev.None? {
        LiteralReads(TNull);
      } else {
        DumpsReads(v.prev.value);
      }
    case KProposal => DumpsReads(v.proposalId);
    case KSha => DumpsReads(v.sha);
    case KSize => NumberReads(v.size);
    case KTs => DumpsReads(v.ts);
  }

  lemma {:induction false} FieldsForRead(v: Version, ks: seq<Key>)
    ensures forall f :: f in FieldsFor(v, ks) ==> Reads(f.text, f.value)
    ensures KTs in ks ==> FieldsFor(v, ks) != []
  {
    if ks != [] {
      FieldForReads(v, ks[0]);
      FieldsForRead(v, ks[1..]);
    }
  }

  // ---------------------------------------------------------------------------
  // Looking fields up

  lemma KeyNamesDiffer(a: Key, b: Key)
    ensures KeyName(a) == KeyName(b) ==> a == b
  {
    var op, ts := Name("op"), Name("ts");
    var prev, proposal := Name("prev_sha256"), Name("proposal_id");
    assert op[0] == 'o' as int && ts[0] == 't' as int;
    assert prev[2] == 'e' as int && proposal[2] == 'o' as int;
  }

  /** Every field of the version is found under its name, and no other. */
  lemma {:induction false} LookupFields(v: Version, ks: seq<Key>, k: Key)
    ensures FieldOf(FieldMembers(FieldsFor(v, ks)), k)
         == if k in ks && HasField(v, k) then Some(FieldFor(v, k).value) else None
  {
    if ks != [] {
      LookupFields(v, ks[1..], k);
      KeyNamesDiffer(ks[0], k);
      var fs, rest := FieldsFor(v, ks), FieldsFor(v, ks[1..]);
      if HasField(v, ks[0]) {
        assert FieldMembers(fs)[1..] == FieldMembers(rest);
      } else {
        assert fs == rest;
      }
    }
  }

  lemma OpNamesDiffer(op: Op)
    ensures OpOf(OpName(op)) == Some(op)
  {
    var restore, patch, write := Name("restore"), Name("patch"), Name("write");
    var src, dst := Name("move-src"), Name("move-dst");
    assert patch[0] == 'p' as int && write[0] == 'w' as int;
    assert src[5] == 's' as int && dst[5] == 'd' as int;
  }

  /** The object's fields are those of the version. */
  ghost predicate Holds(ms: seq<TreeMember>, v: Version) {
    forall k :: FieldOf(ms, k) == if HasField(v, k) then Some(FieldFor(v, k).value) else None
  }

  lemma StringFieldRecorded(ms: seq<TreeMember>, v: Version, k: Key, s: Str)
    requires Holds(ms, v) && HasField(v, k) && FieldFor(v, k) == StringField(k, s)
    ensures FieldOf(ms, k) == Some(TString(Encode(s))) && TextIn(FieldOf(ms, k)) == Some(Joined(s))
  {
    EncodedJoined(s);
  }

  lemma OpRecorded(ms: seq<TreeMember>, v: Version)
    requires Holds(ms, v)
    ensures TextIn(FieldOf(ms, KOp)) == Some(OpName(v.op))
  {
    StringFieldRecorded(ms, v, KOp, OpName(v.op));
    OpNameJoined(v.op);
  }

  lemma PrevRecorded(ms: seq<TreeMember>, v: Version)
    requires Holds(ms, v)
    ensures FieldOf(ms, KPrev).Some? && (FieldOf(ms, KPrev).value.TNull? || FieldOf(ms, KPrev).value.TString?)
    ensures TextIn(FieldOf(ms, KPrev)) == if v.prev.None? then None else Some(Joined(v.prev.value))
  {
    if v.prev.Some? {
      StringFieldRecorded(ms, v, KPrev, v.prev.value);
    }
  }

  lemma SizeRecorded(ms: seq<TreeMember>, v: Version)
    requires Holds(ms, v)
    ensures Whole(FieldOf(ms, KSize)) == Some(v.size)
  {
    NumberWhole(v.size);
    assert FieldFor(v, KSize).value == TNumber(IntNumeral(v.size));
  }

  lemma EvictedRecorded(ms: seq<TreeMember>, v: Version)
    requires Holds(ms, v)
    ensures EvictedIn(FieldOf(ms, KEvicted)) == v.evicted
  {
    assert FieldFor(v, KEvicted).value == TBool(true);
  }

  lemma TreeRecorded(ms: seq<TreeMember>, v: Version)
    requires Holds(ms, v)
    ensures FromTree(ms) == ReadVersion(Recorded(v))
  {
    StringFieldRecorded(ms, v, KTs, v.ts);
    StringFieldRecorded(ms, v, KProposal, v.proposalId);
    StringFieldRecorded(ms, v, KSha, v.sha);
    StringFieldRecorded(ms, v, KActor, v.actor);
    SizeRecorded(ms, v);
    OpRecorded(ms, v);
    PrevRecorded(ms, v);
    EvictedRecorded(ms, v);
    PartsRecorded(v, OpName(v.op));
    NothingMissing(ms, v);
  }

  lemma NothingMissing(ms: seq<TreeMember>, v: Version)
    requires Holds(ms, v)
    ensures forall k :: k !in {KPrev, KEvicted} ==> FieldOf(ms, k).Some?
  {}

  lemma PartsRecorded(v: Version, op: Str)
    requires op == OpName(v.op)
    ensures FromParts(Some(Joined(v.ts)), Some(Joined(v.proposalId)), Some(Joined(v.sha)), Some(v.size), Some(op),
                      Some(Joined(v.actor)), if v.prev.None? then None else Some(Joined(v.prev.value)), v.evicted)
         == ReadVersion(Recorded(v))
  {
    OpNamesDiffer(v.op);
  }

  /** Escapes are read unit by unit and then joined. */
  lemma EncodedJoined(s: Str)
    ensures TextIn(Some(TString(Encode(s)))) == Some(Joined(s))
  {
    EncodeBasic(Encode(s));
  }

  lemma OpNameJoined(op: Op)
    ensures Joined(OpName(op)) == OpName(op)
  {
    OpNameLetters(op);
    DecodeEncode(OpName(op));
  }

  lemma OpNameLetters(op: Op)
    ensures forall i :: 0 <= i < |OpName(op)| ==> !IsSurrogate(OpName(op)[i])
  {}

  /** Main result: reading back the printed line gives the version, except that a
      high surrogate directly followed by a low one becomes one code point. */
  lemma LineReadsBack(v: Version)
    ensures FromJson(ToJson(v)) == ReadVersion(Recorded(v))
  {
    var ks := SortedKeys();
    var fs := FieldsFor(v, ks);
    LineParses(v, []);
    assert ToJson(v) + [] == ToJson(v);
    forall k
      ensures FieldOf(FieldMembers(fs), k) == if HasField(v, k) then Some(FieldFor(v, k).value) else None
    {
      LookupFields(v, ks, k);
      AllKeysSorted(k);
    }
    TreeRecorded(FieldMembers(fs), v);
  }

  lemma LineParses(v: Version, after: Str)
    ensures ParseValue(ToJson(v) + after) == Parsed(TObject(FieldMembers(FieldsFor(v, SortedKeys()))), after)
  {
    FieldsForRead(v, SortedKeys());
    assert KTs in SortedKeys();
    ObjectReads(FieldsFor(v, SortedKeys()), after);
  }

  /** A line with anything but white space right after its object is corrupt. */
  lemma TrailingCorrupt(v: Version, after: Str)
    requires after != [] && after[0] !in {0x20, 0x09, 0x0A, 0x0D}
    ensures FromJson(ToJson(v) + after) == Corrupt
  {
    LineParses(v, after);
  }

  lemma AllKeysSorted(k: Key)
    ensures k in SortedKeys()
  {
    match k
    case KActor =>
    case KEvicted =>
    case KOp =>
    case KPrev =>
    case KProposal =>
    case KSha =>
    case KSize =>
    case KTs =>
  }

  /** The version survives exactly when none of its strings holds a split pair. */
  lemma LineRoundTrip(v: Version)
    ensures FromJson(ToJson(v)) == ReadVersion(v) <==>
            && NoSplitPair(v.ts) && NoSplitPair(v.proposalId) && NoSplitPair(v.sha) && NoSplitPair(v.actor)
            && (v.prev.Some? ==> NoSplitPair(v.prev.value))
  {
    LineReadsBack(v);
    DecodeEncode(v.ts);
    DecodeEncode(v.proposalId);
    DecodeEncode(v.sha);
    DecodeEncode(v.actor);
    if v.prev.Some? {
      DecodeEncode(v.prev.value);
    }
  }

  // ---------------------------------------------------------------------------
  // The line is one printable ASCII line

  ghost predicate Printable(s: Str) {
    forall i :: 0 <= i < |s| ==> 0x20 <= s[i] <= 0x7E
  }

  lemma {:induction false} AsciiBodyPrintable(u: seq<Unit>)
    ensures Printable(AsciiBody(u))
  {
    if u != [] {
      AsciiBodyPrintable(u[1..]);
    }
  }

  lemma KeyTextPrintable(k: Key)
    ensures Printable(EsString(KeyName(k)))
  {
    KeyNamePlain(k);
    EsBodyPlain(KeyName(k));
  }

  predicate Plain(s: Str) {
    forall i :: 0 <= i < |s| ==> 0x20 <= s[i] <= 0x7E && s[i] != QUOTE && s[i] != BACKSLASH
  }

  lemma KeyNamePlain(k: Key)
    ensures Plain(KeyName(k))
  {}

  lemma {:induction false} EsBodyPlain(s: Str)
    requires Plain(s)
    ensures EsBody(s) == s
  {
    if s != [] {
      assert Plain(s[1..]);
      EsBodyPlain(s[1..]);
      assert s == [s[0]] + s[1..];
    }
  }

  lemma FieldPrintable(v: Version, k: Key)
    ensures Printable(FieldText(FieldFor(v, k)))
  {
    KeyTextPrintable(k);
    FieldValuePrintable(v, k);
  }

  lemma DumpsPrintable(s: Str)
    ensures Printable(DumpsString(s))
  {
    AsciiBodyPrintable(Encode(s));
  }

  lemma FieldValuePrintable(v: Version, k: Key)
    ensures Printable(FieldFor(v, k).text)
  {
    match k
    case KActor => DumpsPrintable(v.actor);
    case KEvicted =>
    case KOp => DumpsPrintable(OpName(v.op));
    case KPrev =>
      if v.prev.Some? {
        DumpsPrintable(v.prev.value);
      }
    case KProposal => DumpsPrintable(v.proposalId);
    case KSha => DumpsPrintable(v.sha);
    case KSize =>
    case KTs => DumpsPrintable(v.ts);
  }

  lemma {:induction false} JoinPrintable(parts: seq<Str>)
    requires forall i :: 0 <= i < |parts| ==> Printable(parts[i])
    ensures Printable(JoinComma(parts))
  {
    if |parts| > 1 {
      JoinPrintable(parts[1..]);
    }
  }

  lemma {:induction false} FieldsPrintable(v: Version, ks: seq<Key>)
    ensures forall f :: f in FieldsFor(v, ks) ==> Printable(FieldText(f))
  {
    if ks != [] {
      FieldPrintable(v, ks[0]);
      FieldsPrintable(v, ks[1..]);
    }
  }

  /** A line holds no line break, so one append adds one line. */
  lemma LinePrintable(v: Version)
    ensures Printable(ToJson(v)) && ToJson(v) != [] && ToJson(v)[0] == OPEN_BRACE
  {
    var fs := FieldsFor(v, SortedKeys());
    FieldsPrintable(v, SortedKeys());
    forall i | 0 <= i < |fs|
      ensures Printable(FieldTexts(fs)[i])
    {
      assert fs[i] in fs;
    }
    JoinPrintable(FieldTexts(fs));
  }

  // ---------------------------------------------------------------------------
  // The line spelled out

  lemma OpsSpelled()
    ensures OpName(Write) == Name("write") && OpName(Delete) == Name("delete") && OpName(Restore) == Name("restore")
    ensures OpName(MoveSrc) == Name("move-src") && OpName(MoveDst) == Name("move-dst") && OpName(Patch) == Name("patch")
  {}

  /** A field as the line shows it. */
  function Shown(key: string, text: Str): seq<Str> {
    [KeyText(Name(key)) + text]
  }

  /** The fields of the line, in order. */
  function LineParts(v: Version): seq<Str> {
    Shown("actor", DumpsString(v.actor))
    + ((if v.evicted then Shown("evicted", Name("true")) else [])
    + (Shown("op", DumpsString(OpName(v.op)))
    + (Shown("prev_sha256", if v.prev.None? then Name("null") else DumpsString(v.prev.value))
    + (Shown("proposal_id", DumpsString(v.proposalId))
    + (Shown("sha256", DumpsString(v.sha))
    + (Shown("size", IntText(v.size))
    + Shown("ts", DumpsString(v.ts))))))))
  }

  lemma KeysPlainText(k: Key)
    ensures PlainText(KeyName(k))
  {}

  lemma FieldSpelled(v: Version, k: Key)
    ensures FieldText(FieldFor(v, k)) == KeyText(KeyName(k)) + FieldFor(v, k).text
  {
    KeysPlainText(k);
    MemberText(KeyName(k), FieldFor(v, k).text);
  }

  /** The texts of the fields from one key on. */
  lemma TextsFrom(v: Version, k: Key, ks: seq<Key>)
    ensures FieldTexts(FieldsFor(v, [k] + ks))
         == (if HasField(v, k) then [KeyText(KeyName(k)) + FieldFor(v, k).text] else []) + FieldTexts(FieldsFor(v, ks))
  {
    var first := if HasField(v, k) then [FieldFor(v, k)] else [];
    FieldSpelled(v, k);
    FieldsMore(v, k, ks);
    TextsConcat(first, FieldsFor(v, ks));
    OneText(FieldFor(v, k));
  }

  lemma FieldsMore(v: Version, k: Key, ks: seq<Key>)
    ensures FieldsFor(v, [k] + ks) == (if HasField(v, k) then [FieldFor(v, k)] else []) + FieldsFor(v, ks)
  {
    assert ([k] + ks)[1..] == ks;
  }

  lemma TextsConcat(a: seq<Field>, b: seq<Field>)
    ensures FieldTexts(a + b) == FieldTexts(a) + FieldTexts(b)
  {}

  lemma OneText(f: Field)
    ensures FieldTexts([f]) == [FieldText(f)] && FieldTexts([]) == []
  {}

  lemma TailListed(v: Version)
    ensures FieldTexts(FieldsFor(v, [KProposal] + ([KSha] + ([KSize] + ([KTs] + [])))))
         == Shown("proposal_id", DumpsString(v.proposalId))
            + (Shown("sha256", DumpsString(v.sha)) + (Shown("size", IntText(v.size)) + Shown("ts", DumpsString(v.ts))))
  {
    TextsFrom(v, KTs, []);
    TextsFrom(v, KSize, [KTs] + []);
    TextsFrom(v, KSha, [KSize] + ([KTs] + []));
    TextsFrom(v, KProposal, [KSha] + ([KSize] + ([KTs] + [])));
    assert Shown("ts", DumpsString(v.ts)) + [] == Shown("ts", DumpsString(v.ts));
  }

  lemma KeysNested()
    ensures SortedKeys()
         == [KActor] + ([KEvicted] + ([KOp] + ([KPrev] + ([KProposal] + ([KSha] + ([KSize] + ([KTs] + [])))))))
  {}

  lemma PartsListed(v: Version)
    ensures FieldTexts(FieldsFor(v, SortedKeys())) == LineParts(v)
  {
    var tail := [KProposal] + ([KSha] + ([KSize] + ([KTs] + [])));
    KeysNested();
    LiteralsSpelled();
    TailListed(v);
    TextsFrom(v, KPrev, tail);
    TextsFrom(v, KOp, [KPrev] + tail);
    TextsFrom(v, KEvicted, [KOp] + ([KPrev] + tail));
    TextsFrom(v, KActor, [KEvicted] + ([KOp] + ([KPrev] + tail)));
  }

  /** The line of a version is these fields, with commas between them and braces around. */
  lemma LineSpelled(v: Version)
    ensures ToJson(v) == Name("{") + (JoinComma(LineParts(v)) + Name("}"))
  {
    PartsListed(v);
    PunctuationSpelled();
  }
}
