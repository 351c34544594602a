/** The backup store (backup_store.py): content-addressed objects and one append-only
    index file per path, refining a map from path to a list of captured bytes. */
module BackupStore {
  import opened Text
  import opened Utf16
  import opened JsonModel
  import opened VersionLine

  type Bytes = seq<Byte>

  /** A path's UTF-8 bytes. */
  type Path = seq<Byte>

  // ---------------------------------------------------------------------------
  // Index file names (`_encode_path`)

  const PERCENT: Unit := 0x25
  const INDEX_NAME_MAX: nat := 250

  /** What `urllib.parse.quote` with no safe characters leaves alone. */
  predicate Unreserved(b: Byte) {
    0x30 <= b <= 0x39 || 0x41 <= b <= 0x5A || 0x61 <= b <= 0x7A || b in {0x2D, 0x2E, 0x5F, 0x7E}
  }

  function HexUpper(d: int): Unit
    requires 0 <= d < 16
  {
    if d < 10 then 0x30 + d else 0x37 + d
  }

  function EncodeByte(b: Byte): Str {
    if Unreserved(b) then [b] else [PERCENT, HexUpper(b / 16), HexUpper(b % 16)]
  }

  function EncodePath(p: Path): Str {
    if p == [] then [] else EncodeByte(p[0]) + EncodePath(p[1..])
  }

  /** A letter, a digit or one of `-._~`. */
  predicate NameChar(c: CodePoint) {
    || 'A' as int <= c <= 'Z' as int || 'a' as int <= c <= 'z' as int || '0' as int <= c <= '9' as int
    || c in {'-' as int, '.' as int, '_' as int, '~' as int}
  }

  /** A byte that is a name character is left alone; any other becomes a percent sign and
      its two upper-case hexadecimal digits. */
  lemma EncodeByteSpelled(b: Byte)
    ensures var digits := Name("0123456789ABCDEF");
            EncodeByte(b) == if NameChar(b) then [b] else Name("%") + [digits[b / 16], digits[b % 16]]
  {
    HexUpperSpelled(b / 16);
    HexUpperSpelled(b % 16);
  }

  lemma HexUpperSpelled(d: int)
    requires 0 <= d < 16
    ensures HexUpper(d) == Name("0123456789ABCDEF")[d]
  {
    var digits := "0123456789ABCDEF";
    assert digits[d] as int == HexUpper(d);
  }

  /** An encoded name holds nothing but name characters and percent signs, so no slash. */
  lemma {:induction false} EncodedPlain(p: Path)
    ensures forall c :: c in EncodePath(p) ==> NameChar(c) || c == '%' as int
  {
    if p != [] {
      EncodedPlain(p[1..]);
      EncodeBytePlain(p[0]);
    }
  }

  lemma EncodeBytePlain(b: Byte)
    ensures forall c :: c in EncodeByte(b) ==> NameChar(c) || c == '%' as int
  {}

  lemma EncodeByteStart(b: Byte, rest: Str)
    ensures (EncodeByte(b) + rest)[0] == (if Unreserved(b) then b else PERCENT)
    ensures (EncodeByte(b) + rest)[|EncodeByte(b)|..] == rest
    ensures !Unreserved(b) ==>
              && (EncodeByte(b) + rest)[1] == HexUpper(b / 16)
              && (EncodeByte(b) + rest)[2] == HexUpper(b % 16)
  {}

  /** Two paths never share an index file. */
  lemma {:induction false} EncodePathInjective(a: Path, b: Path)
    requires EncodePath(a) == EncodePath(b)
    ensures a == b
  {
    if a != [] && b != [] {
      EncodeByteStart(a[0], EncodePath(a[1..]));
      EncodeByteStart(b[0], EncodePath(b[1..]));
      assert a[0] == b[0];
      EncodePathInjective(a[1..], b[1..]);
      assert a == [a[0]] + a[1..] && b == [b[0]] + b[1..];
    }
  }

  /** The index file of a path; None when its name would be too long. */
  function NameOf(p: Path): Option<Str> {
    if |EncodePath(p)| > INDEX_NAME_MAX then None else Some(EncodePath(p))
  }

  lemma {:induction false} EncodedLength(p: Path)
    ensures |p| <= |EncodePath(p)| <= 3 * |p|
  {
    if p != [] {
      EncodedLength(p[1..]);
    }
  }

  /** A path has an index file, under its encoded name, exactly when that is at most 250
      characters; every path of up to 83 bytes has one. */
  lemma NamedExactly(p: Path)
    ensures NameOf(p).Some? <==> |EncodePath(p)| <= 250
    ensures NameOf(p).Some? ==> NameOf(p).value == EncodePath(p)
    ensures |p| <= 83 ==> NameOf(p).Some?
  {
    EncodedLength(p);
  }

  // ---------------------------------------------------------------------------
  // The disk and its atomic writes

  type Digest = Bytes -> Str

  /** SHA-256 in hexadecimal. */
  ghost predicate Sound(digest: Digest) {
    && (forall a, b :: digest(a) == digest(b) ==> a == b)
    && (forall b :: NoSplitPair(digest(b)))
  }

  /** Object bodies by digest and index texts by file name. */
  datatype Disk = Disk(objects: map<Str, Bytes>, index: map<Str, Str>)

  datatype Write =
    | PutObject(sha: Str, data: Bytes)
    | Append(name: Str, text: Str)
    | Replace(name: Str, text: Str)
    | Rename(src: Str, dst: Str)
    | Unlink(name: Str)

  function TextAt(d: Disk, name: Str): Str {
    if name in d.index then d.index[name] else []
  }

  function Apply(d: Disk, w: Write): Disk {
    match w
    case PutObject(sha, data) => d.(objects := d.objects[sha := data])
    case Append(name, text) => d.(index := d.index[name := TextAt(d, name) + text])
    case Replace(name, text) => d.(index := d.index[name := text])
    case Rename(src, dst) => d.(index := d.index[dst := TextAt(d, src)] - {src})
    case Unlink(name) => d.(index := d.index - {name})
  }

  function ApplyAll(d: Disk, ws: seq<Write>): Disk
    decreases |ws|
  {
    if ws == [] then d else ApplyAll(Apply(d, ws[0]), ws[1..])
  }

  lemma {:induction false} ApplyAllConcat(d: Disk, a: seq<Write>, b: seq<Write>)
    ensures ApplyAll(d, a + b) == ApplyAll(ApplyAll(d, a), b)
    decreases |a|
  {
    if a == [] {
      assert a + b == b;
    } else {
      assert (a + b)[1..] == a[1..] + b;
      ApplyAllConcat(Apply(d, a[0]), a[1..], b);
    }
  }

  // ---------------------------------------------------------------------------
  // Reading an index

  const LINE_FEED: Unit := 0x0A
  const CARRIAGE_RETURN: Unit := 0x0D

  lemma BreaksSpelled()
    ensures Name("\n") == [LINE_FEED] && Name("\r") == [CARRIAGE_RETURN]
  {}

  /** The lines of a text file with universal newlines; `line` is the one begun. */
  function Lines(text: Str, line: Str): seq<Str> {
    if text == [] then if line == [] then [] else [line]
    else if text[0] == LINE_FEED || text[0] == CARRIAGE_RETURN then [line] + Lines(text[1..], [])
    else Lines(text[1..], line + [text[0]])
  }

  predicate Breaks(c: CodePoint) {
    c == LINE_FEED || c == CARRIAGE_RETURN
  }

  /** A line ends at its line break, and a last line without one counts when it holds
      something. */
  lemma {:induction false} LinesSpelled(line: Str, end: CodePoint, rest: Str, begun: Str)
    requires Breaks(end) && forall i :: 0 <= i < |line| ==> !Breaks(line[i])
    ensures Lines(line + ([end] + rest), begun) == [begun + line] + Lines(rest, [])
    ensures Lines(line, begun) == if begun + line == [] then [] else [begun + line]
  {
    var t := line + ([end] + rest);
    if line == [] {
      assert t == [end] + rest && t[1..] == rest;
      assert begun + line == begun;
    } else {
      assert t[1..] == line[1..] + ([end] + rest);
      LinesSpelled(line[1..], end, rest, begun + [line[0]]);
      assert begun + [line[0]] + line[1..] == begun + line;
    }
  }

  datatype History = NameTooLong | CorruptLog | Versions(list: seq<Version>)

  function Then(first: Reading, rest: History): History {
    if first.ReadVersion? && rest.Versions? then Versions([first.v] + rest.list) else CorruptLog
  }

  /** Blank lines are skipped and one bad line fails the whole log. */
  function ReadLines(lines: seq<Str>): History {
    if lines == [] then Versions([])
    else if PyStrip(lines[0]) == [] then ReadLines(lines[1..])
    else Then(FromJson(lines[0]), ReadLines(lines[1..]))
  }

  /** `history`. */
  function HistoryOf(d: Disk, p: Path): History {
    var name := NameOf(p);
    if name.None? then NameTooLong
    else if name.value !in d.index then Versions([])
    else ReadLines(Lines(d.index[name.value], []))
  }

  function LastOf(h: History): Option<Str> {
    match h
    case Versions(list) => if list == [] then None else Some(list[|list| - 1].sha)
    case _ => None
  }

  /** `_last_sha`. */
  function LastSha(d: Disk, p: Path): Option<Str> {
    LastOf(HistoryOf(d, p))
  }

  // ---------------------------------------------------------------------------
  // Operations as sequences of writes

  datatype Call =
    | Capture(path: Path, bytes: Bytes, proposal: Str, op: Op, actor: Str, ts: Str)
    | Move(src: Path, dst: Path)

  function NewVersion(digest: Digest, c: Call, prev: Option<Str>): Version
    requires c.Capture?
  {
    Version(c.ts, c.proposal, digest(c.bytes), |c.bytes|, c.op, c.actor, prev, false)
  }

  /** `text + b"\n"` unless it is empty or ends so already. */
  function Ended(text: Str): Str {
    if text == [] || text[|text| - 1] == LINE_FEED then text else text + [LINE_FEED]
  }

  /** Appending after an ended text adds lines to its lines and changes none of them. */
  lemma {:induction false} EndedKeepsLines(a: Str, b: Str, begun: Str)
    requires (a == [] ==> begun == []) && (a != [] ==> a[|a| - 1] != CARRIAGE_RETURN)
    ensures Lines(Ended(a) + b, begun) == Lines(a, begun) + Lines(b, [])
    decreases |a|
  {
    var t := Ended(a) + b;
    if a == [] {
      assert t == b && Lines(a, begun) == [];
    } else if |a| == 1 {
      EndedOne(a[0], b, begun);
      assert a == [a[0]];
    } else {
      var c, rest := a[0], a[1..];
      var next: Str := if Breaks(c) then [] else begun + [c];
      assert a == [c] + rest;
      EndedMore(c, rest);
      Assoc([c], Ended(rest), b);
      LinesMore(c, Ended(rest) + b, begun);
      LinesMore(c, rest, begun);
      EndedKeepsLines(rest, b, next);
      Assoc([begun], Lines(rest, next), Lines(b, []));
    }
  }

  lemma EndedMore(c: CodePoint, rest: Str)
    requires rest != []
    ensures Ended([c] + rest) == [c] + Ended(rest)
  {
    assert ([c] + rest)[|rest|] == rest[|rest| - 1];
  }

  lemma LinesMore(c: CodePoint, rest: Str, begun: Str)
    ensures Lines([c] + rest, begun) == if Breaks(c) then [begun] + Lines(rest, []) else Lines(rest, begun + [c])
  {
    assert ([c] + rest)[1..] == rest;
  }

  lemma EndedOne(c: CodePoint, b: Str, begun: Str)
    requires c != CARRIAGE_RETURN
    ensures Lines(Ended([c]) + b, begun) == Lines([c], begun) + Lines(b, [])
  {
    var t := Ended([c]) + b;
    assert [c][1..] == [];
    if c == LINE_FEED {
      assert t == [c] + b && t[1..] == b;
    } else {
      assert t == [c] + ([LINE_FEED] + b);
      assert t[1..] == [LINE_FEED] + b && t[1..][1..] == b;
    }
  }

  function Stored(digest: Digest, d: Disk, bytes: Bytes): seq<Write> {
    if digest(bytes) in d.objects then [] else [PutObject(digest(bytes), bytes)]
  }

  function NewLine(digest: Digest, d: Disk, c: Call, name: Str): Write
    requires c.Capture?
  {
    Append(name, ToJson(NewVersion(digest, c, LastSha(d, c.path))) + [LINE_FEED])
  }

  /** `capture`: a path whose name is too long is refused only after the object is stored. */
  function CaptureWrites(digest: Digest, d: Disk, c: Call): seq<Write>
    requires c.Capture?
  {
    Stored(digest, d, c.bytes) + (if NameOf(c.path).None? then [] else [NewLine(digest, d, c, NameOf(c.path).value)])
  }

  /** `rename_history`. */
  function MoveWrites(d: Disk, src: Path, dst: Path): (ws: seq<Write>)
    ensures |ws| <= 2
  {
    if NameOf(src).None? || NameOf(src).value !in d.index || NameOf(dst).None? then []
    else
      var from, to := NameOf(src).value, NameOf(dst).value;
      if to in d.index then [Replace(to, Ended(d.index[from]) + Ended(d.index[to])), Unlink(from)]
      else [Rename(from, to)]
  }

  /** The atomic writes of one call, in order. */
  function WritesOf(digest: Digest, d: Disk, c: Call): seq<Write> {
    if c.Capture? then CaptureWrites(digest, d, c) else MoveWrites(d, c.src, c.dst)
  }

  // ---------------------------------------------------------------------------
  // The map the store stands for

  datatype Snapshot = Snapshot(bytes: Bytes, version: Version)

  type Model = map<Path, seq<Snapshot>>

  function Of(m: Model, p: Path): seq<Snapshot> {
    if p in m then m[p] else []
  }

  function PrevOf(es: seq<Snapshot>): Option<Str> {
    if es == [] then None else Some(es[|es| - 1].version.sha)
  }

  /** One call whose last `left` writes were lost to a crash. A capture has happened
      once its line is written; a merging move interrupted before the unlink leaves
      the source entries at both paths. */
  function ModelStep(digest: Digest, m: Model, c: Call, left: nat): Model {
    match c
    case Capture(path, bytes, _, _, _, _) =>
      if left > 0 || NameOf(path).None? then m
      else m[path := Of(m, path) + [Snapshot(bytes, NewVersion(digest, c, PrevOf(Of(m, path))))]]
    case Move(src, dst) =>
      if src !in m || NameOf(dst).None? then m
      else if left == 0 then m[dst := m[src] + Of(m, dst)] - {src}
      else if left == 1 && dst in m then m[dst := m[src] + Of(m, dst)]
      else m
  }

  /** The index text that records these entries. */
  function LogText(es: seq<Snapshot>): Str {
    if es == [] then [] else ToJson(es[0].version) + ([LINE_FEED] + LogText(es[1..]))
  }

  ghost predicate Held(digest: Digest, d: Disk, e: Snapshot) {
    && e.version.sha == digest(e.bytes)
    && e.version.sha in d.objects
    && e.version.size == |e.bytes|
  }

  ghost predicate Filed(digest: Digest, d: Disk, m: Model, p: Path)
    requires p in m
  {
    && NameOf(p).Some?
    && NameOf(p).value in d.index
    && d.index[NameOf(p).value] == LogText(m[p])
    && forall e :: e in m[p] ==> Held(digest, d, e)
  }

  ghost predicate Represents(digest: Digest, d: Disk, m: Model) {
    && (forall sha :: sha in d.objects ==> digest(d.objects[sha]) == sha)
    && (forall p :: p in m ==> Filed(digest, d, m, p))
    && (forall p :: NameOf(p).Some? && NameOf(p).value in d.index ==> p in m)
  }

  function EmptyModel(): Model { map[] }

  function EmptyDisk(): Disk { Disk(map[], map[]) }

  // ---------------------------------------------------------------------------
  // Reading gives the list

  function RecordedAll(es: seq<Snapshot>): (r: seq<Version>)
    ensures |r| == |es|
    ensures forall i :: 0 <= i < |es| ==> r[i] == Recorded(es[i].version)
  {
    seq(|es|, i requires 0 <= i < |es| => Recorded(es[i].version))
  }

  lemma {:induction false} LinesOfLine(line: Str, begun: Str, rest: Str)
    requires Printable(line)
    ensures Lines(line + ([LINE_FEED] + rest), begun) == [begun + line] + Lines(rest, [])
  {
    var t := line + ([LINE_FEED] + rest);
    if line == [] {
      assert t == [LINE_FEED] + rest;
      assert t[1..] == rest;
      assert begun + line == begun;
    } else {
      assert t[0] == line[0];
      assert t[1..] == line[1..] + ([LINE_FEED] + rest);
      LinesOfLine(line[1..], begun + [line[0]], rest);
      assert begun + [line[0]] + line[1..] == begun + line;
    }
  }

  lemma LineNotBlank(v: Version)
    ensures PyStrip(ToJson(v)) != []
  {
    LinePrintable(v);
    var s := ToJson(v);
    assert PyLstrip(s) == s;
  }

  /** One recorded line at the front of the text is one version at the front. */
  lemma FirstLineReads(v: Version, text: Str)
    requires ReadLines(Lines(text, [])).Versions?
    ensures ReadLines(Lines(ToJson(v) + ([LINE_FEED] + text), []))
         == Versions([Recorded(v)] + ReadLines(Lines(text, [])).list)
  {
    var line := ToJson(v);
    LinePrintable(v);
    LinesOfLine(line, [], text);
    assert [] + line == line;
    LineNotBlank(v);
    LineReadsBack(v);
    ReadFirst(line, Lines(text, []));
  }

  lemma ReadFirst(line: Str, rest: seq<Str>)
    requires PyStrip(line) != []
    ensures ReadLines([line] + rest) == Then(FromJson(line), ReadLines(rest))
  {
    var all := [line] + rest;
    assert all[0] == line && all[1..] == rest;
  }

  lemma FirstRecorded(es: seq<Snapshot>)
    requires es != []
    ensures RecordedAll(es) == [Recorded(es[0].version)] + RecordedAll(es[1..])
  {}

  lemma LogReadsFirst(es: seq<Snapshot>, text: Str, rest: seq<Version>)
    requires es != [] && text == LogText(es[1..]) && rest == RecordedAll(es[1..])
    requires ReadLines(Lines(text, [])) == Versions(rest)
    ensures ReadLines(Lines(LogText(es), [])) == Versions(RecordedAll(es))
  {
    FirstLineReads(es[0].version, text);
    FirstRecorded(es);
  }

  /** The index text of a list reads back as the list. */
  lemma {:induction false} LogReads(es: seq<Snapshot>)
    ensures ReadLines(Lines(LogText(es), [])) == Versions(RecordedAll(es))
  {
    if es == [] {
      assert RecordedAll(es) == [];
    } else {
      LogReads(es[1..]);
      LogReadsFirst(es, LogText(es[1..]), RecordedAll(es[1..]));
    }
  }

  lemma {:induction false} LogTextConcat(a: seq<Snapshot>, b: seq<Snapshot>)
    ensures LogText(a + b) == LogText(a) + LogText(b)
  {
    if a == [] {
      assert a + b == b;
    } else {
      LogTextConcat(a[1..], b);
      var s := a + b;
      assert s[0] == a[0] && s[1..] == a[1..] + b;
      Assoc(ToJson(a[0].version), [LINE_FEED] + LogText(a[1..]), LogText(b));
      Assoc([LINE_FEED], LogText(a[1..]), LogText(b));
    }
  }

  lemma {:induction false} LogEnded(es: seq<Snapshot>)
    ensures Ended(LogText(es)) == LogText(es)
  {
    if es != [] {
      LogEnded(es[1..]);
      var line, rest := ToJson(es[0].version), LogText(es[1..]);
      assert LogText(es) == line + ([LINE_FEED] + rest);
      if rest != [] {
        assert LogText(es)[|LogText(es)| - 1] == rest[|rest| - 1];
      }
    }
  }

  /** Main result on reading: the history of any path is the abstract list. */
  lemma HistoryIsModel(digest: Digest, d: Disk, m: Model, p: Path)
    requires Represents(digest, d, m)
    ensures HistoryOf(d, p) == if NameOf(p).None? then NameTooLong else Versions(RecordedAll(Of(m, p)))
  {
    if NameOf(p).Some? {
      if p in m {
        assert Filed(digest, d, m, p);
        LogReads(m[p]);
      } else {
        assert RecordedAll(Of(m, p)) == [];
      }
    }
  }

  lemma LastRecorded(digest: Digest, d: Disk, es: seq<Snapshot>)
    requires Sound(digest) && forall e :: e in es ==> Held(digest, d, e)
    ensures LastOf(Versions(RecordedAll(es))) == PrevOf(es)
  {
    if es != [] {
      var last := es[|es| - 1];
      assert last in es;
      DecodeEncode(last.version.sha);
    }
  }

  lemma AllHeld(digest: Digest, d: Disk, m: Model, p: Path)
    requires Represents(digest, d, m)
    ensures forall e :: e in Of(m, p) ==> Held(digest, d, e)
  {
    assert p in m ==> Filed(digest, d, m, p);
  }

  lemma LastShaIsModel(digest: Digest, d: Disk, m: Model, p: Path)
    requires Sound(digest) && Represents(digest, d, m) && NameOf(p).Some?
    ensures LastSha(d, p) == PrevOf(Of(m, p))
  {
    HistoryIsModel(digest, d, m, p);
    AllHeld(digest, d, m, p);
    LastRecorded(digest, d, Of(m, p));
  }

  /** Fetching any recorded version gives the captured bytes. */
  lemma FetchGivesCaptured(digest: Digest, d: Disk, m: Model, p: Path, i: nat)
    requires Sound(digest) && Represents(digest, d, m) && i < |Of(m, p)|
    ensures var v := RecordedAll(Of(m, p))[i];
            v.sha in d.objects && d.objects[v.sha] == Of(m, p)[i].bytes && v.size == |Of(m, p)[i].bytes|
  {
    var e := Of(m, p)[i];
    AllHeld(digest, d, m, p);
    assert Held(digest, d, e);
    DecodeEncode(e.version.sha);
  }

  // ---------------------------------------------------------------------------
  // Each write keeps the representation

  lemma NamesApart(p: Path, q: Path)
    requires NameOf(p).Some? && NameOf(p) == NameOf(q)
    ensures p == q
  {
    EncodePathInjective(p, q);
  }

  lemma PutKeeps(digest: Digest, d: Disk, m: Model, bytes: Bytes)
    requires Represents(digest, d, m)
    ensures Represents(digest, Apply(d, PutObject(digest(bytes), bytes)), m)
  {
    var d' := Apply(d, PutObject(digest(bytes), bytes));
    forall p | p in m
      ensures Filed(digest, d', m, p)
    {
      assert Filed(digest, d, m, p);
      forall e | e in m[p]
        ensures Held(digest, d', e)
      {
        assert Held(digest, d, e);
      }
    }
  }

  /** Writing the new list of one path keeps every other path's. */
  lemma FileKeeps(digest: Digest, d: Disk, m: Model, p: Path, es: seq<Snapshot>)
    requires Represents(digest, d, m) && NameOf(p).Some?
    requires forall e :: e in es ==> Held(digest, d, e)
    ensures Represents(digest, d.(index := d.index[NameOf(p).value := LogText(es)]), m[p := es])
  {
    var d', m' := d.(index := d.index[NameOf(p).value := LogText(es)]), m[p := es];
    forall q | q in m'
      ensures Filed(digest, d', m', q)
    {
      if q != p {
        assert Filed(digest, d, m, q);
        if NameOf(q) == NameOf(p) {
          NamesApart(p, q);
        }
      }
      forall e | e in m'[q]
        ensures Held(digest, d', e)
      {
        assert Held(digest, d, e);
      }
    }
    forall q | NameOf(q).Some? && NameOf(q).value in d'.index
      ensures q in m'
    {
      if NameOf(q) == NameOf(p) {
        NamesApart(p, q);
      }
    }
  }

  /** Removing the index file of a path removes its list. */
  lemma UnlinkKeeps(digest: Digest, d: Disk, m: Model, p: Path)
    requires Represents(digest, d, m) && NameOf(p).Some?
    ensures Represents(digest, Apply(d, Unlink(NameOf(p).value)), m - {p})
  {
    var d', m' := Apply(d, Unlink(NameOf(p).value)), m - {p};
    forall q | q in m'
      ensures Filed(digest, d', m', q)
    {
      assert Filed(digest, d, m, q);
      if NameOf(q) == NameOf(p) {
        NamesApart(p, q);
      }
      forall e | e in m'[q]
        ensures Held(digest, d', e)
      {
        assert Held(digest, d, e);
      }
    }
  }

  lemma CaptureKeeps(digest: Digest, d: Disk, m: Model, c: Call)
    requires Sound(digest) && Represents(digest, d, m)
    requires c.Capture? && NameOf(c.path).Some? && digest(c.bytes) in d.objects
    ensures Represents(digest, Apply(d, NewLine(digest, d, c, NameOf(c.path).value)), ModelStep(digest, m, c, 0))
  {
    var v := NewVersion(digest, c, LastSha(d, c.path));
    LastShaIsModel(digest, d, m, c.path);
    var entry, es := Snapshot(c.bytes, v), Of(m, c.path);
    if c.path in m {
      assert Filed(digest, d, m, c.path);
    }
    assert TextAt(d, NameOf(c.path).value) == LogText(es);
    LogTextConcat(es, [entry]);
    OneLine(entry);
    forall e | e in es + [entry]
      ensures Held(digest, d, e)
    {
      if e in es {
        assert c.path in m && e in m[c.path];
      }
    }
    FileKeeps(digest, d, m, c.path, es + [entry]);
  }

  lemma OneLine(e: Snapshot)
    ensures LogText([e]) == ToJson(e.version) + [LINE_FEED]
  {
    assert [e][1..] == [];
    assert [LINE_FEED] + LogText([]) == [LINE_FEED];
  }

  lemma TextOfModel(digest: Digest, d: Disk, m: Model, p: Path)
    requires Represents(digest, d, m) && NameOf(p).Some?
    ensures TextAt(d, NameOf(p).value) == LogText(Of(m, p))
    ensures p in m <==> NameOf(p).value in d.index
  {
    assert p in m ==> Filed(digest, d, m, p);
  }

  lemma MergedHeld(digest: Digest, d: Disk, m: Model, src: Path, dst: Path)
    requires Represents(digest, d, m)
    ensures forall e :: e in Of(m, src) + Of(m, dst) ==> Held(digest, d, e)
  {
    AllHeld(digest, d, m, src);
    AllHeld(digest, d, m, dst);
  }

  /** The list at both paths: what the merging replacement writes. */
  lemma MergeKeeps(digest: Digest, d: Disk, m: Model, src: Path, dst: Path)
    requires Represents(digest, d, m) && src in m && NameOf(src).Some? && NameOf(dst).Some?
    ensures NameOf(src).value in d.index && d.index[NameOf(src).value] == LogText(m[src])
    ensures var es := m[src] + Of(m, dst);
            && Ended(d.index[NameOf(src).value]) + Ended(TextAt(d, NameOf(dst).value)) == LogText(es)
            && Represents(digest, Apply(d, Replace(NameOf(dst).value, LogText(es))), m[dst := es])
  {
    TextOfModel(digest, d, m, src);
    TextOfModel(digest, d, m, dst);
    LogEnded(m[src]);
    LogEnded(Of(m, dst));
    LogTextConcat(m[src], Of(m, dst));
    MergedHeld(digest, d, m, src, dst);
    FileKeeps(digest, d, m, dst, m[src] + Of(m, dst));
  }

  // ---------------------------------------------------------------------------
  // Runs with crashes

  lemma OneWrite(d: Disk, w: Write)
    ensures ApplyAll(d, [w]) == Apply(d, w)
  {
    assert [w][1..] == [];
    assert ApplyAll(Apply(d, w), []) == Apply(d, w);
  }

  lemma StoredKeeps(digest: Digest, d: Disk, m: Model, bytes: Bytes)
    requires Represents(digest, d, m)
    ensures var d1 := ApplyAll(d, Stored(digest, d, bytes));
            Represents(digest, d1, m) && digest(bytes) in d1.objects && d1.index == d.index
  {
    PutKeeps(digest, d, m, bytes);
    OneWrite(d, PutObject(digest(bytes), bytes));
  }

  lemma CaptureRefines(digest: Digest, d: Disk, m: Model, c: Call, k: nat)
    requires Sound(digest) && Represents(digest, d, m) && c.Capture? && k <= |CaptureWrites(digest, d, c)|
    ensures var ws := CaptureWrites(digest, d, c);
            Represents(digest, ApplyAll(d, ws[..k]), ModelStep(digest, m, c, |ws| - k))
  {
    var ws := CaptureWrites(digest, d, c);
    if NameOf(c.path).Some? && k == |ws| {
      CaptureCompletes(digest, d, m, c);
      assert ws[..k] == ws;
    } else {
      CaptureStops(digest, d, m, c, k);
      NothingCaptured(digest, m, c, |ws| - k);
    }
  }

  lemma NothingCaptured(digest: Digest, m: Model, c: Call, left: nat)
    requires c.Capture? && (NameOf(c.path).None? || left > 0)
    ensures ModelStep(digest, m, c, left) == m
  {}

  /** Before the line is appended only the object can have been written. */
  lemma CaptureStops(digest: Digest, d: Disk, m: Model, c: Call, k: nat)
    requires Represents(digest, d, m) && c.Capture? && k <= |CaptureWrites(digest, d, c)|
    requires NameOf(c.path).None? || k < |CaptureWrites(digest, d, c)|
    ensures Represents(digest, ApplyAll(d, CaptureWrites(digest, d, c)[..k]), m)
  {
    var stored := Stored(digest, d, c.bytes);
    StoredKeeps(digest, d, m, c.bytes);
    assert CaptureWrites(digest, d, c)[..k] == if k == 0 then [] else stored;
  }

  lemma CaptureCompletes(digest: Digest, d: Disk, m: Model, c: Call)
    requires Sound(digest) && Represents(digest, d, m) && c.Capture? && NameOf(c.path).Some?
    ensures Represents(digest, ApplyAll(d, CaptureWrites(digest, d, c)), ModelStep(digest, m, c, 0))
  {
    var stored := Stored(digest, d, c.bytes);
    var d1 := ApplyAll(d, stored);
    var line := NewLine(digest, d, c, NameOf(c.path).value);
    StoredKeeps(digest, d, m, c.bytes);
    assert LastSha(d1, c.path) == LastSha(d, c.path);
    CaptureKeeps(digest, d1, m, c);
    ApplyAllConcat(d, stored, [line]);
    OneWrite(d1, line);
  }

  lemma MoveRefines(digest: Digest, d: Disk, m: Model, c: Call, k: nat)
    requires Sound(digest) && Represents(digest, d, m) && c.Move? && k <= |MoveWrites(d, c.src, c.dst)|
    ensures var ws := MoveWrites(d, c.src, c.dst);
            Represents(digest, ApplyAll(d, ws[..k]), ModelStep(digest, m, c, |ws| - k))
  {
    if k > 0 {
      MoveBegunRefines(digest, d, m, c.src, c.dst, k);
    } else {
      assert MoveWrites(d, c.src, c.dst)[..k] == [];
      MoveUnbegun(digest, d, m, c);
    }
  }

  lemma MoveUnbegun(digest: Digest, d: Disk, m: Model, c: Call)
    requires Represents(digest, d, m) && c.Move?
    ensures ModelStep(digest, m, c, |MoveWrites(d, c.src, c.dst)|) == m
  {
    if c.src in m && NameOf(c.dst).Some? {
      assert Filed(digest, d, m, c.src);
      FiledTogether(digest, d, m, c.dst);
    }
  }

  lemma MoveBegunRefines(digest: Digest, d: Disk, m: Model, src: Path, dst: Path, k: nat)
    requires Sound(digest) && Represents(digest, d, m) && 1 <= k <= |MoveWrites(d, src, dst)|
    ensures var ws := MoveWrites(d, src, dst);
            Represents(digest, ApplyAll(d, ws[..k]), ModelStep(digest, m, Move(src, dst), |ws| - k))
  {
    FiledTogether(digest, d, m, src);
    FiledTogether(digest, d, m, dst);
    if dst in m {
      MergingMove(digest, d, m, src, dst, k);
    } else {
      RenamingMove(digest, d, m, src, dst, k);
    }
  }

  lemma FiledTogether(digest: Digest, d: Disk, m: Model, p: Path)
    requires Represents(digest, d, m) && NameOf(p).Some?
    ensures p in m <==> NameOf(p).value in d.index
  {
    assert p in m ==> Filed(digest, d, m, p);
  }

  lemma MergingMove(digest: Digest, d: Disk, m: Model, src: Path, dst: Path, k: nat)
    requires Sound(digest) && Represents(digest, d, m) && 1 <= k <= |MoveWrites(d, src, dst)|
    requires src in m && dst in m && NameOf(src).Some? && NameOf(dst).Some?
    requires NameOf(src).value in d.index && NameOf(dst).value in d.index
    ensures var ws := MoveWrites(d, src, dst);
            Represents(digest, ApplyAll(d, ws[..k]), ModelStep(digest, m, Move(src, dst), |ws| - k))
  {
    var es := m[src] + Of(m, dst);
    MergeKeeps(digest, d, m, src, dst);
    MergeStages(d, NameOf(src).value, NameOf(dst).value, LogText(es), src, dst, k);
    MergeModel(digest, m, src, dst, k);
    if k == 2 {
      UnlinkKeeps(digest, Apply(d, Replace(NameOf(dst).value, LogText(es))), m[dst := es], src);
    }
  }

  lemma MergeModel(digest: Digest, m: Model, src: Path, dst: Path, k: nat)
    requires src in m && dst in m && NameOf(dst).Some? && 1 <= k <= 2
    ensures var merged := m[dst := m[src] + Of(m, dst)];
            ModelStep(digest, m, Move(src, dst), 2 - k) == if k == 1 then merged else merged - {src}
  {}

  /** What is on disk after each write of a merging move. */
  lemma MergeStages(d: Disk, from: Str, to: Str, text: Str, src: Path, dst: Path, k: nat)
    requires NameOf(src) == Some(from) && NameOf(dst) == Some(to) && from in d.index && to in d.index && 1 <= k <= 2
    requires text == Ended(d.index[from]) + Ended(d.index[to])
    ensures var merged := Apply(d, Replace(to, text));
            && |MoveWrites(d, src, dst)| == 2
            && ApplyAll(d, MoveWrites(d, src, dst)[..k]) == if k == 1 then merged else Apply(merged, Unlink(from))
  {
    var first, second := Replace(to, text), Unlink(from);
    var ws := MoveWrites(d, src, dst);
    assert ws == [first, second];
    OneWrite(d, first);
    if k == 1 {
      assert ws[..k] == [first];
    } else {
      OneWrite(Apply(d, first), second);
      ApplyAllConcat(d, [first], [second]);
      assert ws[..k] == [first] + [second];
    }
  }

  lemma RenamingMove(digest: Digest, d: Disk, m: Model, src: Path, dst: Path, k: nat)
    requires Sound(digest) && Represents(digest, d, m) && 1 <= k <= |MoveWrites(d, src, dst)| && src in m && dst !in m
    requires NameOf(src).Some? && NameOf(src).value in d.index && NameOf(dst).Some? && NameOf(dst).value !in d.index
    ensures var ws := MoveWrites(d, src, dst);
            Represents(digest, ApplyAll(d, ws[..k]), ModelStep(digest, m, Move(src, dst), |ws| - k))
  {
    MovedToFree(digest, d, m, src, dst);
    assert m[src] + Of(m, dst) == m[src];
    RenameStages(d, NameOf(src).value, NameOf(dst).value, src, dst, k);
  }

  lemma RenameStages(d: Disk, from: Str, to: Str, src: Path, dst: Path, k: nat)
    requires NameOf(src) == Some(from) && NameOf(dst) == Some(to) && from in d.index && to !in d.index
    requires 1 <= k <= |MoveWrites(d, src, dst)|
    ensures k == |MoveWrites(d, src, dst)| == 1
    ensures ApplyAll(d, MoveWrites(d, src, dst)[..k])
         == Apply(Apply(d, Replace(to, TextAt(d, from))), Unlink(from))
  {
    OneWrite(d, Rename(from, to));
    RenameIsReplaceUnlink(d, from, to);
    assert MoveWrites(d, src, dst)[..k] == [Rename(from, to)];
  }

  /** Moving to a free name, as a replacement and an unlink. */
  lemma MovedToFree(digest: Digest, d: Disk, m: Model, src: Path, dst: Path)
    requires Represents(digest, d, m) && src in m && dst !in m
    requires NameOf(src).Some? && NameOf(src).value in d.index && NameOf(dst).Some? && NameOf(dst).value !in d.index
    ensures var copied := Apply(d, Replace(NameOf(dst).value, TextAt(d, NameOf(src).value)));
            Represents(digest, Apply(copied, Unlink(NameOf(src).value)), m[dst := m[src]] - {src})
  {
    TextOfModel(digest, d, m, src);
    AllHeld(digest, d, m, src);
    FileKeeps(digest, d, m, dst, m[src]);
    UnlinkKeeps(digest, Apply(d, Replace(NameOf(dst).value, LogText(m[src]))), m[dst := m[src]], src);
  }

  lemma RenameIsReplaceUnlink(d: Disk, from: Str, to: Str)
    ensures Apply(d, Rename(from, to)) == Apply(Apply(d, Replace(to, TextAt(d, from))), Unlink(from))
  {}

  /** A call of which only the first `done` writes reached the disk. */
  datatype Event = Event(call: Call, done: nat)

  function Done(digest: Digest, d: Disk, e: Event): seq<Write> {
    var ws := WritesOf(digest, d, e.call);
    if e.done <= |ws| then ws[..e.done] else ws
  }

  function DiskAfter(digest: Digest, d: Disk, e: Event): Disk {
    ApplyAll(d, Done(digest, d, e))
  }

  function ModelAfter(digest: Digest, d: Disk, m: Model, e: Event): Model {
    ModelStep(digest, m, e.call, |WritesOf(digest, d, e.call)| - |Done(digest, d, e)|)
  }

  function RunDisk(digest: Digest, d: Disk, events: seq<Event>): Disk {
    if events == [] then d else DiskAfter(digest, RunDisk(digest, d, events[..|events| - 1]), events[|events| - 1])
  }

  function RunModel(digest: Digest, d: Disk, m: Model, events: seq<Event>): Model {
    if events == [] then m
    else
      var n := |events| - 1;
      ModelAfter(digest, RunDisk(digest, d, events[..n]), RunModel(digest, d, m, events[..n]), events[n])
  }

  lemma StepRefines(digest: Digest, d: Disk, m: Model, e: Event)
    requires Sound(digest) && Represents(digest, d, m)
    ensures Represents(digest, DiskAfter(digest, d, e), ModelAfter(digest, d, m, e))
  {
    var ws := WritesOf(digest, d, e.call);
    var k := |Done(digest, d, e)|;
    assert Done(digest, d, e) == ws[..k];
    if e.call.Capture? {
      CaptureRefines(digest, d, m, e.call, k);
    } else {
      MoveRefines(digest, d, m, e.call, k);
    }
  }

  /** Main result: in every single-writer run, with a crash possible after every
      write, the disk represents the abstract map. */
  lemma {:induction false} RunRefines(digest: Digest, d: Disk, m: Model, events: seq<Event>)
    requires Sound(digest) && Represents(digest, d, m)
    ensures Represents(digest, RunDisk(digest, d, events), RunModel(digest, d, m, events))
  {
    if events != [] {
      var n := |events| - 1;
      RunRefines(digest, d, m, events[..n]);
      StepRefines(digest, RunDisk(digest, d, events[..n]), RunModel(digest, d, m, events[..n]), events[n]);
    }
  }

  /** From an empty store, at every crash point: histories are the abstract lists and
      every recorded version fetches exactly the bytes captured for it. */
  lemma StoreIsModel(digest: Digest, events: seq<Event>, p: Path)
    requires Sound(digest) && NameOf(p).Some?
    ensures var d := RunDisk(digest, EmptyDisk(), events);
            var es := Of(RunModel(digest, EmptyDisk(), EmptyModel(), events), p);
            && HistoryOf(d, p) == Versions(RecordedAll(es))
            && (forall i :: 0 <= i < |es| ==>
                  var sha := RecordedAll(es)[i].sha; sha in d.objects && d.objects[sha] == es[i].bytes)
  {
    var d := RunDisk(digest, EmptyDisk(), events);
    var m := RunModel(digest, EmptyDisk(), EmptyModel(), events);
    RunRefines(digest, EmptyDisk(), EmptyModel(), events);
    HistoryIsModel(digest, d, m, p);
    forall i | 0 <= i < |Of(m, p)|
      ensures var sha := RecordedAll(Of(m, p))[i].sha; sha in d.objects && d.objects[sha] == Of(m, p)[i].bytes
    {
      FetchGivesCaptured(digest, d, m, p, i);
    }
  }

  // ---------------------------------------------------------------------------
  // No recorded version is lost

  /** The versions the disk lists for one path. */
  ghost function VersionsAt(d: Disk, p: Path): multiset<Version> {
    match HistoryOf(d, p)
    case Versions(list) => multiset(list)
    case _ => multiset{}
  }

  ghost function Pick(paths: set<Path>): Path
    requires paths != {}
  {
    var p :| p in paths; p
  }

  /** All versions the disk lists for these paths, each as often as it is listed. */
  ghost function Total(d: Disk, paths: set<Path>): multiset<Version> {
    if paths == {} then multiset{} else VersionsAt(d, Pick(paths)) + Total(d, paths - {Pick(paths)})
  }

  lemma {:induction false} TotalPick(d: Disk, paths: set<Path>, p: Path)
    requires p in paths
    ensures Total(d, paths) == VersionsAt(d, p) + Total(d, paths - {p})
    decreases paths
  {
    var q := Pick(paths);
    if q != p {
      TotalPick(d, paths - {q}, p);
      TotalPick(d, paths - {p}, q);
      assert paths - {q} - {p} == paths - {p} - {q};
    }
  }

  lemma {:induction false} TotalGrows(d: Disk, d': Disk, paths: set<Path>)
    requires forall p :: p in paths ==> VersionsAt(d, p) <= VersionsAt(d', p)
    ensures Total(d, paths) <= Total(d', paths)
    decreases paths
  {
    if paths != {} {
      TotalGrows(d, d', paths - {Pick(paths)});
    }
  }

  lemma TotalMoves(d: Disk, d': Disk, paths: set<Path>, src: Path, dst: Path)
    requires src in paths && dst in paths && src != dst
    requires VersionsAt(d', dst) == VersionsAt(d, src) + VersionsAt(d, dst) && VersionsAt(d', src) == multiset{}
    requires forall p :: p in paths && p != src && p != dst ==> VersionsAt(d', p) == VersionsAt(d, p)
    ensures Total(d, paths) <= Total(d', paths)
  {
    var rest := paths - {src} - {dst};
    TotalPick(d, paths, src);
    TotalPick(d, paths - {src}, dst);
    TotalPick(d', paths, src);
    TotalPick(d', paths - {src}, dst);
    TotalGrows(d, d', rest);
    SumsGrow(VersionsAt(d, src), VersionsAt(d, dst), Total(d, rest), Total(d', rest));
  }

  lemma SumsGrow(a: multiset<Version>, b: multiset<Version>, x: multiset<Version>, y: multiset<Version>)
    requires x <= y
    ensures a + (b + x) <= multiset{} + ((a + b) + y)
  {}

  lemma VersionsAtModel(digest: Digest, d: Disk, m: Model, p: Path)
    requires Represents(digest, d, m)
    ensures VersionsAt(d, p) == multiset(RecordedAll(Of(m, p)))
  {
    HistoryIsModel(digest, d, m, p);
    assert p in m ==> Filed(digest, d, m, p);
  }

  lemma RecordedSum(a: seq<Snapshot>, b: seq<Snapshot>)
    ensures multiset(RecordedAll(a + b)) == multiset(RecordedAll(a)) + multiset(RecordedAll(b))
  {
    RecordedConcat(a, b);
  }

  /** Only the list at one path changes, by entries before or after it. */
  ghost predicate Grown(m: Model, m': Model, to: Path, before: seq<Snapshot>, after: seq<Snapshot>) {
    Of(m', to) == before + Of(m, to) + after && forall p :: p != to ==> Of(m', p) == Of(m, p)
  }

  ghost predicate Moved(m: Model, m': Model, src: Path, dst: Path) {
    && Of(m', dst) == Of(m, src) + Of(m, dst) && Of(m', src) == []
    && forall p :: p != src && p != dst ==> Of(m', p) == Of(m, p)
  }

  lemma CaptureCases(digest: Digest, m: Model, c: Call, left: nat)
    requires c.Capture?
    ensures var m' := ModelStep(digest, m, c, left);
            m' == m || exists after :: Grown(m, m', c.path, [], after)
  {
    var m' := ModelStep(digest, m, c, left);
    if m' != m {
      var one := [Snapshot(c.bytes, NewVersion(digest, c, PrevOf(Of(m, c.path))))];
      assert [] + Of(m, c.path) + one == Of(m, c.path) + one;
      assert Grown(m, m', c.path, [], one);
    }
  }

  lemma MoveCases(digest: Digest, m: Model, c: Call, left: nat)
    requires c.Move? && c.src != c.dst
    ensures var m' := ModelStep(digest, m, c, left);
            m' == m || Moved(m, m', c.src, c.dst) || exists before :: Grown(m, m', c.dst, before, [])
  {
    var m' := ModelStep(digest, m, c, left);
    if m' != m && left == 1 {
      assert m[c.src] + Of(m, c.dst) + [] == m[c.src] + Of(m, c.dst);
      assert Grown(m, m', c.dst, m[c.src], []);
    }
  }

  lemma GrownTotal(
    digest: Digest, d: Disk, m: Model, d': Disk, m': Model, to: Path, before: seq<Snapshot>, after: seq<Snapshot>,
    paths: set<Path>)
    requires Represents(digest, d, m) && Represents(digest, d', m') && Grown(m, m', to, before, after)
    ensures Total(d, paths) <= Total(d', paths)
  {
    RecordedSum(before, Of(m, to));
    RecordedSum(before + Of(m, to), after);
    forall p
      ensures VersionsAt(d, p) <= VersionsAt(d', p)
    {
      VersionsAtModel(digest, d, m, p);
      VersionsAtModel(digest, d', m', p);
    }
    TotalGrows(d, d', paths);
  }

  lemma MovedTotal(digest: Digest, d: Disk, m: Model, d': Disk, m': Model, src: Path, dst: Path, paths: set<Path>)
    requires Represents(digest, d, m) && Represents(digest, d', m') && Moved(m, m', src, dst)
    requires src != dst && src in paths && dst in paths
    ensures Total(d, paths) <= Total(d', paths)
  {
    RecordedSum(Of(m, src), Of(m, dst));
    forall p
      ensures VersionsAt(d, p) == multiset(RecordedAll(Of(m, p)))
      ensures VersionsAt(d', p) == multiset(RecordedAll(Of(m', p)))
    {
      VersionsAtModel(digest, d, m, p);
      VersionsAtModel(digest, d', m', p);
    }
    assert RecordedAll([]) == [];
    TotalMoves(d, d', paths, src, dst);
  }

  lemma SameTotal(digest: Digest, d: Disk, d': Disk, m: Model, paths: set<Path>)
    requires Represents(digest, d, m) && Represents(digest, d', m)
    ensures Total(d, paths) <= Total(d', paths)
  {
    forall p
      ensures VersionsAt(d, p) == VersionsAt(d', p)
    {
      VersionsAtModel(digest, d, m, p);
      VersionsAtModel(digest, d', m, p);
    }
    TotalGrows(d, d', paths);
  }

  ghost predicate MovesApart(events: seq<Event>) {
    forall i :: 0 <= i < |events| && events[i].call.Move? ==> events[i].call.src != events[i].call.dst
  }

  ghost predicate MovesWithin(events: seq<Event>, paths: set<Path>) {
    forall i :: 0 <= i < |events| && events[i].call.Move? ==> events[i].call.src in paths && events[i].call.dst in paths
  }

  lemma StepKeepsTotal(digest: Digest, d: Disk, m: Model, d': Disk, m': Model, c: Call, left: nat, paths: set<Path>)
    requires Represents(digest, d, m) && Represents(digest, d', m') && m' == ModelStep(digest, m, c, left)
    requires c.Move? ==> c.src != c.dst && c.src in paths && c.dst in paths
    ensures Total(d, paths) <= Total(d', paths)
  {
    if m' == m {
      SameTotal(digest, d, d', m, paths);
    } else if c.Capture? {
      CaptureCases(digest, m, c, left);
      var after :| Grown(m, m', c.path, [], after);
      GrownTotal(digest, d, m, d', m', c.path, [], after, paths);
    } else {
      MoveCases(digest, m, c, left);
      if Moved(m, m', c.src, c.dst) {
        MovedTotal(digest, d, m, d', m', c.src, c.dst, paths);
      } else {
        var before :| Grown(m, m', c.dst, before, []);
        GrownTotal(digest, d, m, d', m', c.dst, before, [], paths);
      }
    }
  }

  lemma EventKeepsTotal(digest: Digest, d: Disk, m: Model, e: Event, paths: set<Path>)
    requires Sound(digest) && Represents(digest, d, m)
    requires e.call.Move? ==> e.call.src != e.call.dst && e.call.src in paths && e.call.dst in paths
    ensures Total(d, paths) <= Total(DiskAfter(digest, d, e), paths)
  {
    StepRefines(digest, d, m, e);
    var left := |WritesOf(digest, d, e.call)| - |Done(digest, d, e)|;
    StepKeepsTotal(digest, d, m, DiskAfter(digest, d, e), ModelAfter(digest, d, m, e), e.call, left, paths);
  }

  lemma LastEventKeepsTotal(digest: Digest, d: Disk, m: Model, events: seq<Event>, paths: set<Path>)
    requires Sound(digest) && Represents(digest, d, m)
    requires events != [] && MovesApart(events) && MovesWithin(events, paths)
    ensures Total(RunDisk(digest, d, events[..|events| - 1]), paths) <= Total(RunDisk(digest, d, events), paths)
  {
    var last := |events| - 1;
    var before := events[..last];
    RunRefines(digest, d, m, before);
    EventKeepsTotal(digest, RunDisk(digest, d, before), RunModel(digest, d, m, before), events[last], paths);
  }

  lemma MovesBefore(events: seq<Event>, n: nat, paths: set<Path>)
    requires n <= |events| && MovesApart(events) && MovesWithin(events, paths)
    ensures MovesApart(events[..n]) && MovesWithin(events[..n], paths)
  {}

  /** Whatever the histories list at any point of a run, crashes included, they still
      list at its end, at least as often, over any paths that hold all moved ones. */
  lemma {:induction false} RunKeepsVersions(
    digest: Digest, d: Disk, m: Model, events: seq<Event>, n: nat, paths: set<Path>)
    requires Sound(digest) && Represents(digest, d, m)
    requires n <= |events| && MovesApart(events) && MovesWithin(events, paths)
    ensures Total(RunDisk(digest, d, events[..n]), paths) <= Total(RunDisk(digest, d, events), paths)
    decreases |events|
  {
    if n == |events| {
      assert events[..n] == events;
    } else {
      var before := events[..|events| - 1];
      assert before[..n] == events[..n];
      MovesBefore(events, |events| - 1, paths);
      RunKeepsVersions(digest, d, m, before, n, paths);
      LastEventKeepsTotal(digest, d, m, events, paths);
    }
  }

  /** A completed move leaves the source's versions before the destination's at the
      destination exactly when the two paths differ; a path moved onto itself is left
      without history. */
  lemma MoveMerges(digest: Digest, d: Disk, m: Model, src: Path, dst: Path)
    requires Sound(digest) && Represents(digest, d, m)
    requires src in m && m[src] != [] && NameOf(dst).Some?
    ensures var d' := ApplyAll(d, WritesOf(digest, d, Move(src, dst)));
            var moved, over := HistoryOf(d, src), HistoryOf(d, dst);
            && moved.Versions? && over.Versions?
            && (HistoryOf(d', dst) == Versions(moved.list + over.list) <==> src != dst)
            && HistoryOf(d', src) == Versions([])
  {
    var c := Move(src, dst);
    assert Filed(digest, d, m, src);
    HistoriesOf(digest, d, m, src, dst);
    if src != dst {
      MoveRecords(digest, d, m, c);
    } else {
      var d', m' := ApplyAll(d, WritesOf(digest, d, c)), ModelStep(digest, m, c, 0);
      CompleteMove(digest, d, m, c);
      MoveOntoItself(digest, m, src);
      HistoriesOf(digest, d', m', src, dst);
      assert RecordedAll([]) == [];
    }
  }

  lemma MoveOntoItself(digest: Digest, m: Model, p: Path)
    requires p in m && NameOf(p).Some?
    ensures Of(ModelStep(digest, m, Move(p, p), 0), p) == []
  {}

  // ---------------------------------------------------------------------------
  // Version selectors

  /** `resolve_version(version=k)`: 1-based from the front, negative from the back. */
  function AtPosition(list: seq<Version>, k: int): Option<Version> {
    if 0 < k <= |list| then Some(list[k - 1])
    else if -|list| <= k < 0 then Some(list[|list| + k])
    else None
  }

  /** The positions 1 to n, and -1 back to -n, and no other. */
  lemma AtPositionExactly(list: seq<Version>, k: int, v: Version)
    ensures AtPosition(list, k) == Some(v) <==>
            exists i :: 0 <= i < |list| && list[i] == v && (k == i + 1 || k == i - |list|)
  {
    assert 0 < k <= |list| ==> k == k - 1 + 1;
    assert -|list| <= k < 0 ==> k == |list| + k - |list|;
  }

  lemma CompleteCapture(digest: Digest, d: Disk, m: Model, c: Call)
    requires Sound(digest) && Represents(digest, d, m) && c.Capture? && NameOf(c.path).Some?
    ensures Represents(digest, ApplyAll(d, WritesOf(digest, d, c)), ModelStep(digest, m, c, 0))
  {
    CaptureCompletes(digest, d, m, c);
  }

  lemma CaptureModel(digest: Digest, m: Model, c: Call)
    requires c.Capture? && NameOf(c.path).Some?
    ensures var m' := ModelStep(digest, m, c, 0);
            && Of(m', c.path) == Of(m, c.path) + [Snapshot(c.bytes, NewVersion(digest, c, PrevOf(Of(m, c.path))))]
            && forall p :: p != c.path ==> Of(m', p) == Of(m, p)
  {}

  lemma MoveModel(digest: Digest, m: Model, c: Call)
    requires c.Move? && c.src != c.dst && c.src in m && NameOf(c.dst).Some?
    ensures var m' := ModelStep(digest, m, c, 0);
            Of(m', c.dst) == Of(m, c.src) + Of(m, c.dst) && Of(m', c.src) == []
  {}

  lemma CompleteMove(digest: Digest, d: Disk, m: Model, c: Call)
    requires Sound(digest) && Represents(digest, d, m) && c.Move?
    ensures Represents(digest, ApplyAll(d, WritesOf(digest, d, c)), ModelStep(digest, m, c, 0))
  {
    var ws := MoveWrites(d, c.src, c.dst);
    MoveRefines(digest, d, m, c, |ws|);
    assert ws[..|ws|] == ws;
  }

  lemma RecordedMore(es: seq<Snapshot>, e: Snapshot)
    ensures RecordedAll(es + [e]) == RecordedAll(es) + [Recorded(e.version)]
  {}

  /** A completed capture adds one version at the end of its path's history, with the
      call's own metadata and the previous version's digest, and its digest fetches
      the captured bytes. */
  lemma CaptureRecords(digest: Digest, d: Disk, m: Model, c: Call)
    requires Sound(digest) && Represents(digest, d, m) && c.Capture? && NameOf(c.path).Some?
    ensures var d' := ApplyAll(d, WritesOf(digest, d, c));
            var before, after := HistoryOf(d, c.path), HistoryOf(d', c.path);
            && before.Versions? && after.Versions? && |after.list| == |before.list| + 1
            && after.list[..|before.list|] == before.list
            && var v := after.list[|before.list|];
               && v.ts == Joined(c.ts) && v.proposalId == Joined(c.proposal) && v.actor == Joined(c.actor)
               && v.op == c.op && v.size == |c.bytes| && !v.evicted
               && v.prev == (if before.list == [] then None else Some(before.list[|before.list| - 1].sha))
               && v.sha in d'.objects && d'.objects[v.sha] == c.bytes
  {
    var d', m' := ApplyAll(d, WritesOf(digest, d, c)), ModelStep(digest, m, c, 0);
    var es := Of(m, c.path);
    var e := Snapshot(c.bytes, NewVersion(digest, c, PrevOf(es)));
    CompleteCapture(digest, d, m, c);
    CaptureModel(digest, m, c);
    HistoryIsModel(digest, d, m, c.path);
    HistoryIsModel(digest, d', m', c.path);
    RecordedMore(es, e);
    FetchGivesCaptured(digest, d', m', c.path, |es|);
    AllHeld(digest, d, m, c.path);
    LastRecorded(digest, d, es);
    if es != [] {
      PrevJoined(digest, d, es);
    }
  }

  lemma PrevJoined(digest: Digest, d: Disk, es: seq<Snapshot>)
    requires Sound(digest) && (forall e :: e in es ==> Held(digest, d, e)) && es != []
    ensures Joined(PrevOf(es).value) == PrevOf(es).value
  {
    assert Held(digest, d, es[|es| - 1]);
    DecodeEncode(PrevOf(es).value);
  }

  /** A completed move between different paths puts the source's history before the
      destination's and leaves the source without one. */
  lemma MoveRecords(digest: Digest, d: Disk, m: Model, c: Call)
    requires Sound(digest) && Represents(digest, d, m) && c.Move? && c.src != c.dst
    requires c.src in m && NameOf(c.dst).Some?
    ensures var d' := ApplyAll(d, WritesOf(digest, d, c));
            var moved, over := HistoryOf(d, c.src), HistoryOf(d, c.dst);
            && moved.Versions? && over.Versions?
            && HistoryOf(d', c.dst) == Versions(moved.list + over.list)
            && HistoryOf(d', c.src) == Versions([])
  {
    var d', m' := ApplyAll(d, WritesOf(digest, d, c)), ModelStep(digest, m, c, 0);
    CompleteMove(digest, d, m, c);
    assert Filed(digest, d, m, c.src);
    MoveModel(digest, m, c);
    HistoriesOf(digest, d, m, c.src, c.dst);
    HistoriesOf(digest, d', m', c.src, c.dst);
    RecordedConcat(Of(m, c.src), Of(m, c.dst));
  }

  lemma HistoriesOf(digest: Digest, d: Disk, m: Model, p: Path, q: Path)
    requires Represents(digest, d, m) && NameOf(p).Some? && NameOf(q).Some?
    ensures HistoryOf(d, p) == Versions(RecordedAll(Of(m, p))) && HistoryOf(d, q) == Versions(RecordedAll(Of(m, q)))
  {
    HistoryIsModel(digest, d, m, p);
    HistoryIsModel(digest, d, m, q);
  }

  lemma RecordedConcat(a: seq<Snapshot>, b: seq<Snapshot>)
    ensures RecordedAll(a + b) == RecordedAll(a) + RecordedAll(b)
  {}

  /** What the merge order is for: after the destination and the moved file are both
      captured and the histories merged, the newest version at the destination is the
      destination's own bytes, not the bytes moved onto it. */
  lemma OverwriteMoveRestores(digest: Digest, d: Disk, m: Model, over: Call, moved: Call)
    requires Sound(digest) && Represents(digest, d, m)
    requires over.Capture? && moved.Capture? && over.path != moved.path
    requires NameOf(over.path).Some? && NameOf(moved.path).Some?
    ensures var d1 := ApplyAll(d, WritesOf(digest, d, over));
            var d2 := ApplyAll(d1, WritesOf(digest, d1, moved));
            var d3 := ApplyAll(d2, WritesOf(digest, d2, Move(moved.path, over.path)));
            && HistoryOf(d3, over.path).Versions?
            && var v := AtPosition(HistoryOf(d3, over.path).list, -1);
               v.Some? && v.value.sha in d3.objects && d3.objects[v.value.sha] == over.bytes
  {
    var c := Move(moved.path, over.path);
    var d1, m1 := ApplyAll(d, WritesOf(digest, d, over)), ModelStep(digest, m, over, 0);
    var d2, m2 := ApplyAll(d1, WritesOf(digest, d1, moved)), ModelStep(digest, m1, moved, 0);
    CompleteCapture(digest, d, m, over);
    CompleteCapture(digest, d1, m1, moved);
    CompleteMove(digest, d2, m2, c);
    BothCaptured(digest, m, over, moved);
    MergedLast(digest, m2, c);
    NewestFetches(digest, ApplyAll(d2, WritesOf(digest, d2, c)), ModelStep(digest, m2, c, 0), over.path);
  }

  lemma BothCaptured(digest: Digest, m: Model, over: Call, moved: Call)
    requires over.Capture? && moved.Capture? && over.path != moved.path
    requires NameOf(over.path).Some? && NameOf(moved.path).Some?
    ensures var m2 := ModelStep(digest, ModelStep(digest, m, over, 0), moved, 0);
            && Of(m2, moved.path) != []
            && var es := Of(m2, over.path); es != [] && es[|es| - 1].bytes == over.bytes
  {
    CaptureModel(digest, m, over);
    CaptureModel(digest, ModelStep(digest, m, over, 0), moved);
  }

  lemma MergedLast(digest: Digest, m: Model, c: Call)
    requires c.Move? && c.src != c.dst && NameOf(c.dst).Some? && Of(m, c.src) != [] && Of(m, c.dst) != []
    ensures var es := Of(ModelStep(digest, m, c, 0), c.dst);
            es != [] && es[|es| - 1] == Of(m, c.dst)[|Of(m, c.dst)| - 1]
  {}

  lemma NewestFetches(digest: Digest, d: Disk, m: Model, p: Path)
    requires Sound(digest) && Represents(digest, d, m) && Of(m, p) != []
    ensures HistoryOf(d, p).Versions?
    ensures var v := AtPosition(HistoryOf(d, p).list, -1);
            v.Some? && v.value.sha in d.objects && d.objects[v.value.sha] == Of(m, p)[|Of(m, p)| - 1].bytes
  {
    assert Filed(digest, d, m, p);
    HistoryIsModel(digest, d, m, p);
    FetchGivesCaptured(digest, d, m, p, |Of(m, p)| - 1);
  }

  // ---------------------------------------------------------------------------
  // The store object

  datatype CaptureResult = NewlyRecorded(version: Version) | PathTooLong

  class Store {
    const digest: Digest
    var objects: map<Str, Bytes>
    var index: map<Str, Str>
    /** Every write made, in order: its prefixes are the crash points. */
    ghost var written: seq<Write>
    /** The bytes captured for each path. */
    ghost var model: Model

    constructor (digest: Digest)
      requires Sound(digest)
      ensures this.digest == digest && Valid()
      ensures State() == EmptyDisk() && written == [] && model == EmptyModel()
    {
      this.digest := digest;
      objects, index, written, model := map[], map[], [], map[];
    }

    ghost predicate Valid()
      reads this
    {
      Sound(digest) && Represents(digest, State(), model)
    }

    function State(): Disk
      reads this
    {
      Disk(objects, index)
    }

    method WriteOut(w: Write)
      modifies this`objects, this`index, this`written
      ensures State() == Apply(old(State()), w) && written == old(written) + [w]
    {
      var d := Apply(State(), w);
      objects, index := d.objects, d.index;
      written := written + [w];
    }

    method WriteCapture(path: Path, bytes: Bytes, proposal: Str, op: Op, actor: Str, ts: Str) returns (r: CaptureResult)
      modifies this`objects, this`index, this`written
      ensures var c := Call.Capture(path, bytes, proposal, op, actor, ts);
              var ws := CaptureWrites(digest, old(State()), c);
              && written == old(written) + ws
              && State() == ApplyAll(old(State()), ws)
              && r == if NameOf(path).None? then PathTooLong
                      else NewlyRecorded(NewVersion(digest, c, LastSha(old(State()), path)))
    {
      ghost var d := State();
      ghost var c := Call.Capture(path, bytes, proposal, op, actor, ts);
      var sha := digest(bytes);
      if sha !in objects {
        WriteOut(PutObject(sha, bytes));
        OneWrite(d, PutObject(sha, bytes));
      }
      assert written == old(written) + Stored(digest, d, bytes);
      ghost var d1 := State();
      assert d1 == ApplyAll(d, Stored(digest, d, bytes)) && d1.index == d.index;
      var prev := LastSha(State(), path);
      assert prev == LastSha(d, path);
      var version := Version(ts, proposal, sha, |bytes|, op, actor, prev, false);
      var name := NameOf(path);
      if name.None? {
        return PathTooLong;
      }
      var line := Append(name.value, ToJson(version) + [LINE_FEED]);
      WriteOut(line);
      OneWrite(d1, line);
      ApplyAllConcat(d, Stored(digest, d, bytes), [line]);
      r := NewlyRecorded(version);
    }

    method Capture(path: Path, bytes: Bytes, proposal: Str, op: Op, actor: Str, ts: Str) returns (r: CaptureResult)
      requires Valid()
      modifies this
      ensures Valid() && model == ModelStep(digest, old(model), Call.Capture(path, bytes, proposal, op, actor, ts), 0)
      ensures var c := Call.Capture(path, bytes, proposal, op, actor, ts);
              var ws := CaptureWrites(digest, old(State()), c);
              && written == old(written) + ws
              && State() == ApplyAll(old(State()), ws)
              && r == if NameOf(path).None? then PathTooLong
                      else NewlyRecorded(NewVersion(digest, c, LastSha(old(State()), path)))
    {
      ghost var c := Call.Capture(path, bytes, proposal, op, actor, ts);
      CaptureRepresents(digest, State(), model, c);
      r := WriteCapture(path, bytes, proposal, op, actor, ts);
      model := ModelStep(digest, model, c, 0);
    }

    method WriteRename(src: Path, dst: Path) returns (moved: Option<bool>)
      modifies this`objects, this`index, this`written
      ensures var ws := MoveWrites(old(State()), src, dst);
              && written == old(written) + ws
              && State() == ApplyAll(old(State()), ws)
              && (moved == Some(true) <==> ws != [])
              && (moved == Some(false) <==> NameOf(src).Some? && NameOf(src).value !in old(index))
    {
      ghost var d := State();
      var from := NameOf(src);
      if from.None? {
        return None;
      }
      if from.value !in index {
        return Some(false);
      }
      var to := NameOf(dst);
      if to.None? {
        return None;
      }
      var srcData: Str := index[from.value];
      if to.value in index {
        var dstData: Str := index[to.value];
        if srcData != [] && srcData[|srcData| - 1] != LINE_FEED {
          srcData := srcData + [LINE_FEED];
        }
        if dstData != [] && dstData[|dstData| - 1] != LINE_FEED {
          dstData := dstData + [LINE_FEED];
        }
        WriteOut(Replace(to.value, srcData + dstData));
        WriteOut(Unlink(from.value));
        TwoWrites(d, Replace(to.value, srcData + dstData), Unlink(from.value));
      } else {
        WriteOut(Rename(from.value, to.value));
        OneWrite(d, Rename(from.value, to.value));
      }
      moved := Some(true);
    }

    /** True when any history moved; None when a name is too long. */
    method RenameHistory(src: Path, dst: Path) returns (moved: Option<bool>)
      requires Valid()
      modifies this
      ensures Valid() && model == ModelStep(digest, old(model), Move(src, dst), 0)
      ensures var ws := MoveWrites(old(State()), src, dst);
              && written == old(written) + ws
              && State() == ApplyAll(old(State()), ws)
              && (moved == Some(true) <==> ws != [])
              && (moved == Some(false) <==> NameOf(src).Some? && NameOf(src).value !in old(index))
    {
      MoveRepresents(digest, State(), model, src, dst);
      moved := WriteRename(src, dst);
      model := ModelStep(digest, model, Move(src, dst), 0);
    }

    method LoadHistory(path: Path) returns (history: History)
      requires Valid()
      ensures history == if NameOf(path).None? then NameTooLong else Versions(RecordedAll(Of(model, path)))
    {
      history := HistoryOf(State(), path);
      HistoryIsModel(digest, State(), model, path);
    }

    /** For the digest of any recorded version, the bytes captured for it; whatever is
        returned has the digest asked for. */
    method FetchObject(sha: Str) returns (r: Option<Bytes>)
      requires Valid()
      ensures forall p, i :: 0 <= i < |Of(model, p)| && RecordedAll(Of(model, p))[i].sha == sha
                             ==> r == Some(Of(model, p)[i].bytes)
      ensures r.Some? ==> digest(r.value) == sha
    {
      forall p, i | 0 <= i < |Of(model, p)|
        ensures var v := RecordedAll(Of(model, p))[i]; v.sha in objects && objects[v.sha] == Of(model, p)[i].bytes
      {
        FetchGivesCaptured(digest, State(), model, p, i);
      }
      if sha !in objects {
        return None;
      }
      r := Some(objects[sha]);
    }
  }

  lemma CaptureRepresents(digest: Digest, d: Disk, m: Model, c: Call)
    requires Sound(digest) && Represents(digest, d, m) && c.Capture?
    ensures Represents(digest, ApplyAll(d, CaptureWrites(digest, d, c)), ModelStep(digest, m, c, 0))
  {
    var ws := CaptureWrites(digest, d, c);
    CaptureRefines(digest, d, m, c, |ws|);
    assert ws[..|ws|] == ws;
  }

  lemma MoveRepresents(digest: Digest, d: Disk, m: Model, src: Path, dst: Path)
    requires Sound(digest) && Represents(digest, d, m)
    ensures Represents(digest, ApplyAll(d, MoveWrites(d, src, dst)), ModelStep(digest, m, Move(src, dst), 0))
  {
    CompleteMove(digest, d, m, Move(src, dst));
  }

  lemma TwoWrites(d: Disk, a: Write, b: Write)
    ensures ApplyAll(d, [a, b]) == Apply(Apply(d, a), b)
  {
    OneWrite(d, a);
    OneWrite(Apply(d, a), b);
    ApplyAllConcat(d, [a], [b]);
  }
}
