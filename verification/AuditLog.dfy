/** The hash-chained audit log of `crates/kr0ki-core/src/audit_log.rs`. */
module AuditLog {
  import Text
  import opened Wrappers

  datatype Phase = Decision | Outcome
  datatype Verdict = Permit | Deny

  datatype Draft = Draft(correlationId: string, phase: Phase, caller: string, operation: string, method_: string,
                         path: string, decision: Verdict, reason: Option<string>, modelRevision: Option<string>,
                           transport: string, status: Option<nat>)

  datatype Record = Record(seqNo: nat, at: string, draft: Draft, prevHash: string)

  /** JSON serialization and SHA-256, as far as the log depends on them. */
  datatype Codec = Codec(ser: Record -> string, de: string -> Option<Record>, hash: string -> string)

  predicate IsSpace(c: char) {
    || 0x09 <= c as int <= 0x0d || c as int == 0x20 || c as int == 0x85 || c as int == 0xa0 || c as int == 0x1680
    || 0x2000 <= c as int <= 0x200a || c as int == 0x2028 || c as int == 0x2029 || c as int == 0x202f
    || c as int == 0x205f
    || c as int == 0x3000
  }

  predicate Blank(s: string) {
    forall k :: 0 <= k < |s| ==> IsSpace(s[k])
  }

  /** A text that is a line of its own: no line break in it, none stripped from it, not blank. */
  predicate OneLine(s: string) {
    '\n' !in s && !Blank(s) && s[|s| - 1] != '\r'
  }

  /** A serialized record is one line and parses back to itself. */
  ghost predicate Faithful(c: Codec) {
    forall r :: OneLine(c.ser(r)) && c.de(c.ser(r)) == Some(r)
  }

  /** `GENESIS_HASH`: 64 zeros. */
  function GenesisHash(): string {
    seq(64, k => '0')
  }

  // ---------------------------------------------------------------- lines

  function StripReturn(s: string): string {
    if s != "" && s[|s| - 1] == '\r' then s[..|s| - 1] else s
  }

  /** `BufRead::lines`: split at line feeds, dropping the carriage return before one; what follows the
      last line feed is a line as it stands, if it is not empty. */
  function Split(text: string, from: nat, to: nat): seq<string>
    requires from <= to <= |text|
    decreases |text| - to
  {
    if to == |text| then (if from == to then [] else [text[from..to]])
    else if text[to] == '\n' then [StripReturn(text[from..to])] + Split(text, to + 1, to + 1)
    else Split(text, from, to + 1)
  }

  function DropBlank(lines: seq<string>): seq<string> {
    if lines == [] then []
    else (if Blank(lines[0]) then [] else [lines[0]]) + DropBlank(lines[1..])
  }

  /** `read_lines`: the lines of the file that are not blank. */
  function ReadLines(text: string): seq<string> {
    DropBlank(Split(text, 0, 0))
  }

  predicate Closed(text: string) {
    text == "" || text[|text| - 1] == '\n'
  }

  lemma {:induction false} SplitLast(text: string, from: nat, to: nat)
    requires from <= to < |text| && text[|text| - 1] == '\n'
    requires forall k :: from <= k < |text| - 1 ==> text[k] != '\n'
    ensures Split(text, from, to) == [StripReturn(text[from..|text| - 1])]
    decreases |text| - to
  {
    if to == |text| - 1 {
      assert Split(text, |text|, |text|) == [];
    } else {
      SplitLast(text, from, to + 1);
    }
  }

  /** Appending a line and a line feed to a text of complete lines adds that line. */
  lemma {:induction false} SplitAppend(text: string, line: string, from: nat, to: nat)
    requires from <= to <= |text| && Closed(text) && '\n' !in line && StripReturn(line) == line
    requires from == to || to < |text|
    ensures Split(text + line + "\n", from, to) == Split(text, from, to) + [line]
    decreases |text| - to
  {
    hide StripReturn;
    var whole := text + line + "\n";
    if to == |text| {
      SplitLast(whole, from, to);
      assert whole[from..|whole| - 1] == line;
    } else if text[to] == '\n' {
      assert whole[to] == '\n' && whole[from..to] == text[from..to];
      SplitAppend(text, line, to + 1, to + 1);
    } else {
      assert whole[to] == text[to];
      SplitAppend(text, line, from, to + 1);
    }
  }

  lemma {:induction false} DropBlankAppend(a: seq<string>, line: string)
    requires !Blank(line)
    ensures DropBlank(a + [line]) == DropBlank(a) + [line]
  {
    hide Blank;
    if a == [] {
      assert a + [line] == [line] && [line][1..] == [];
    } else {
      assert (a + [line])[1..] == a[1..] + [line];
      DropBlankAppend(a[1..], line);
    }
  }

  lemma LineAppended(text: string, line: string)
    requires Closed(text) && OneLine(line)
    ensures ReadLines(text + line + "\n") == ReadLines(text) + [line] && Closed(text + line + "\n")
  {
    hide Blank;
    SplitAppend(text, line, 0, 0);
    DropBlankAppend(Split(text, 0, 0), line);
  }

  /** The line that the text between two line feeds stands for; the text after the last one keeps its
      carriage return. */
  predicate IsLine(part: string, last: bool, line: string) {
    if !last && part != "" && part[|part| - 1] == '\r' then line + "\r" == part else line == part
  }

  /** The lines are those between the line feeds at the positions `at`: all that are not blank, in order. */
  predicate LinesAt(parts: seq<string>, lines: seq<string>, at: seq<nat>) {
    && |at| == |lines|
    && (forall k :: 0 <= k < |at| ==> at[k] < |parts| && IsLine(parts[at[k]], at[k] == |parts| - 1, lines[k]))
    && (forall j, k :: 0 <= j < k < |at| ==> at[j] < at[k])
    && (forall i :: 0 <= i < |parts| ==> (i in at <==> !Blank(parts[i])))
  }

  function AsLines(parts: seq<string>): seq<string>
    requires parts != []
  {
    if |parts| == 1 then (if parts[0] == "" then [] else parts) else [StripReturn(parts[0])] + AsLines(parts[1..])
  }

  lemma {:induction false} SplitParts(text: string, from: nat, to: nat)
    requires from <= to <= |text| && '\n' !in text[from..to]
    ensures Split(text, from, to) == AsLines(Text.Split(text[from..], '\n'))
    decreases |text| - to
  {
    hide StripReturn;
    if to == |text| {
      assert text[from..to] == text[from..];
      Text.OneText(text[from..], '\n');
    } else if text[to] == '\n' {
      var parts := Text.Split(text[to + 1..], '\n');
      assert text[from..] == text[from..to] + ['\n'] + text[to + 1..];
      Text.NextText(text[from..to], text[to + 1..], '\n');
      assert ([text[from..to]] + parts)[1..] == parts;
      SplitParts(text, to + 1, to + 1);
    } else {
      assert text[from..to + 1] == text[from..to] + [text[to]];
      SplitParts(text, from, to + 1);
    }
  }

  lemma StripBlank(s: string)
    ensures Blank(StripReturn(s)) <==> Blank(s)
  {
    if s != "" && s[|s| - 1] == '\r' { assert s == s[..|s| - 1] + ['\r'] && IsSpace('\r'); }
  }

  lemma {:induction false} DropAt(parts: seq<string>) returns (at: seq<nat>)
    requires parts != []
    ensures LinesAt(parts, DropBlank(AsLines(parts)), at)
  {
    hide LinesAt, Blank, StripReturn;
    if |parts| == 1 {
      at := LastAt(parts);
    } else {
      var rest := DropAt(parts[1..]);
      at := if Blank(parts[0]) then Moved(rest) else [0] + Moved(rest);
      StripBlank(parts[0]);
      var lines := DropBlank(AsLines(parts[1..]));
      assert AsLines(parts)[1..] == AsLines(parts[1..]);
      assert DropBlank(AsLines(parts)) == if Blank(parts[0]) then lines else [StripReturn(parts[0])] + lines;
      FirstAt(parts, lines, rest);
    }
  }

  function Moved(at: seq<nat>): seq<nat> {
    seq(|at|, k requires 0 <= k < |at| => at[k] + 1)
  }

  lemma LastAt(parts: seq<string>) returns (at: seq<nat>)
    requires |parts| == 1
    ensures LinesAt(parts, DropBlank(AsLines(parts)), at)
  {
    at := if Blank(parts[0]) then [] else [0];
    hide IsSpace;
    assert parts == [parts[0]] && parts[1..] == [];
  }

  lemma FirstAt(parts: seq<string>, lines: seq<string>, rest: seq<nat>)
    requires |parts| > 1 && LinesAt(parts[1..], lines, rest)
    ensures Blank(parts[0]) ==> LinesAt(parts, lines, Moved(rest))
    ensures !Blank(parts[0]) ==> LinesAt(parts, [StripReturn(parts[0])] + lines, [0] + Moved(rest))
  {
    hide Blank, IsLine, StripReturn;
    StripIs(parts[0]);
    MovedMembers(parts, rest);
    forall k | 0 <= k < |rest|
      ensures Moved(rest)[k] < |parts| && IsLine(parts[Moved(rest)[k]], Moved(rest)[k] == |parts| - 1, lines[k])
    {
      assert parts[1..][rest[k]] == parts[rest[k] + 1];
    }
    if !Blank(parts[0]) { BothAt(parts, lines, Moved(rest), StripReturn(parts[0])); }
  }

  lemma MovedMembers(parts: seq<string>, rest: seq<nat>)
    requires |parts| > 1
    requires forall i :: 0 <= i < |parts| - 1 ==> (i in rest <==> !Blank(parts[1..][i]))
    ensures 0 !in Moved(rest) && forall i :: 1 <= i < |parts| ==> (i in Moved(rest) <==> !Blank(parts[i]))
  {
    hide Blank;
    forall i | 1 <= i < |parts| ensures i in Moved(rest) <==> !Blank(parts[i]) {
      assert parts[1..][i - 1] == parts[i];
      if i - 1 in rest {
        var k :| 0 <= k < |rest| && rest[k] == i - 1;
        assert Moved(rest)[k] == i;
      }
    }
  }

  lemma BothAt(parts: seq<string>, lines: seq<string>, at: seq<nat>, line: string)
    requires |parts| > 1 && |at| == |lines| && !Blank(parts[0]) && IsLine(parts[0], false, line)
    requires forall k :: 0 <= k < |at| ==>
               0 < at[k] < |parts| && IsLine(parts[at[k]], at[k] == |parts| - 1, lines[k])
    requires forall j, k :: 0 <= j < k < |at| ==> at[j] < at[k]
    requires forall i :: 1 <= i < |parts| ==> (i in at <==> !Blank(parts[i]))
    ensures LinesAt(parts, [line] + lines, [0] + at)
  {
    hide Blank, IsLine;
    var at' := [0] + at;
    assert forall i :: 1 <= i < |parts| ==> (i in at' <==> i in at);
    assert at'[0] == 0;
  }

  lemma StripIs(part: string)
    ensures IsLine(part, false, StripReturn(part))
  {
    if part != "" && part[|part| - 1] == '\r' { assert part == part[..|part| - 1] + "\r"; }
  }

  /** `read_lines` finds exactly the stretches between line feeds that are not blank, in order, each
      without the carriage return before its line feed. */
  lemma ReadLinesExactly(text: string) returns (at: seq<nat>)
    ensures LinesAt(Text.Split(text, '\n'), ReadLines(text), at)
  {
    assert text[0..] == text;
    SplitParts(text, 0, 0);
    at := DropAt(Text.Split(text, '\n'));
  }

  // ---------------------------------------------------------------- verification

  datatype Reason = NotARecord | WrongSequence(found: nat, expected: nat) | WrongPrevious

  datatype ChainBreak = ChainBreak(line: nat, seqNo: Option<nat>, reason: Reason)

  /** What is wrong with the line at `i`, if the hash of the line before it is `prev`. */
  function CheckLine(c: Codec, line: string, i: nat, prev: string): Option<ChainBreak> {
    match c.de(line)
    case None => Some(ChainBreak(i + 1, None, NotARecord))
    case Some(r) =>
      if r.seqNo != i then Some(ChainBreak(i + 1, Some(r.seqNo), WrongSequence(r.seqNo, i)))
      else if r.prevHash != prev then Some(ChainBreak(i + 1, Some(r.seqNo), WrongPrevious))
      else None
  }

  /** The hash a record at position `i` must carry. */
  function PreviousHash(c: Codec, lines: seq<string>, i: nat): string
    requires i <= |lines|
  {
    if i == 0 then GenesisHash() else c.hash(lines[i - 1])
  }

  predicate GoodLine(c: Codec, lines: seq<string>, i: nat)
    requires i < |lines|
  {
    CheckLine(c, lines[i], i, PreviousHash(c, lines, i)).None?
  }

  /** Every line is a record, numbered by its position, holding the hash of the line before it. */
  predicate Chained(c: Codec, lines: seq<string>) {
    forall i :: 0 <= i < |lines| ==> GoodLine(c, lines, i)
  }

  /** `verify` stops at line `i`: the lines before it are chained and it is not. */
  predicate BreaksAt(c: Codec, lines: seq<string>, b: ChainBreak) {
    && 0 < b.line <= |lines| && Chained(c, lines[..b.line - 1])
    && CheckLine(c, lines[b.line - 1], b.line - 1, PreviousHash(c, lines, b.line - 1)) == Some(b)
  }

  /** The outcome of `verify`: how many records were verified, or where the chain breaks. */
  predicate IsVerdict(c: Codec, lines: seq<string>, v: Result<nat, ChainBreak>) {
    match v
    case Ok(n) => n == |lines| && Chained(c, lines)
    case Err(b) => BreaksAt(c, lines, b)
  }

  /** A reported break is true: every line before it is a record in its place, and this one is not a
      record, or has another number than its place, or does not hold the hash of the line before. */
  lemma BreakIsTrue(c: Codec, lines: seq<string>, b: ChainBreak)
    requires IsVerdict(c, lines, Err(b))
    ensures 0 < b.line <= |lines|
    ensures forall i :: 0 <= i < b.line - 1 ==>
              var r := c.de(lines[i]);
              r.Some? && r.value.seqNo == i
                && r.value.prevHash == if i == 0 then GenesisHash() else c.hash(lines[i - 1])
    ensures var (i, r) := (b.line - 1, c.de(lines[b.line - 1]));
            match b.reason
            case NotARecord => r.None? && b.seqNo.None?
            case WrongSequence(found, expected) =>
              r.Some? && r.value.seqNo == found && b.seqNo == Some(found) && expected == i != found
            case WrongPrevious =>
              r.Some? && r.value.seqNo == i && b.seqNo == Some(i)
              && r.value.prevHash != if i == 0 then GenesisHash() else c.hash(lines[i - 1])
  {
    hide GenesisHash;
    forall i | 0 <= i < b.line - 1
      ensures c.de(lines[i]).Some? && c.de(lines[i]).value.seqNo == i
              && c.de(lines[i]).value.prevHash == if i == 0 then GenesisHash() else c.hash(lines[i - 1])
    {
      GoodBefore(c, lines, b.line - 1, i);
    }
  }

  /** There is only one outcome. */
  lemma OneVerdict(c: Codec, lines: seq<string>, v: Result<nat, ChainBreak>, w: Result<nat, ChainBreak>)
    requires IsVerdict(c, lines, v) && IsVerdict(c, lines, w)
    ensures v == w
  {
    hide CheckLine, PreviousHash;
    if v.Err? && w.Err? {
      FirstBreak(c, lines, v.error, w.error);
      FirstBreak(c, lines, w.error, v.error);
    } else if v.Err? {
      NotChained(c, lines, v.error);
    } else if w.Err? {
      NotChained(c, lines, w.error);
    }
  }

  lemma NotChained(c: Codec, lines: seq<string>, b: ChainBreak)
    requires BreaksAt(c, lines, b)
    ensures !Chained(c, lines)
  {
    assert !GoodLine(c, lines, b.line - 1);
  }

  lemma FirstBreak(c: Codec, lines: seq<string>, a: ChainBreak, b: ChainBreak)
    requires BreaksAt(c, lines, a) && BreaksAt(c, lines, b)
    ensures a.line <= b.line
  {
    if b.line < a.line { GoodBefore(c, lines, a.line - 1, b.line - 1); }
  }

  lemma GoodBefore(c: Codec, lines: seq<string>, k: nat, i: nat)
    requires i < k <= |lines| && Chained(c, lines[..k])
    ensures GoodLine(c, lines, i)
  {
    assert GoodLine(c, lines[..k], i);
    assert PreviousHash(c, lines[..k], i) == PreviousHash(c, lines, i);
  }

  method Verify(c: Codec, lines: seq<string>) returns (v: Result<nat, ChainBreak>)
    ensures IsVerdict(c, lines, v)
  {
    var expectedPrev := GenesisHash();
    hide GenesisHash;
    for i := 0 to |lines|
      invariant Chained(c, lines[..i])
      invariant expectedPrev == PreviousHash(c, lines, i)
    {
      match c.de(lines[i]) {
        case None => return Err(ChainBreak(i + 1, None, NotARecord));
        case Some(record) =>
          if record.seqNo != i {
            return Err(ChainBreak(i + 1, Some(record.seqNo), WrongSequence(record.seqNo, i)));
          }
          if record.prevHash != expectedPrev {
            return Err(ChainBreak(i + 1, Some(record.seqNo), WrongPrevious));
          }
      }
      ChainedSnoc(c, lines[..i], lines[i]);
      assert lines[..i + 1] == lines[..i] + [lines[i]];
      expectedPrev := c.hash(lines[i]);
    }
    assert lines[..|lines|] == lines;
    v := Ok(|lines|);
  }

  lemma ChainedSnoc(c: Codec, lines: seq<string>, line: string)
    ensures Chained(c, lines + [line])
            <==> Chained(c, lines) && CheckLine(c, line, |lines|, PreviousHash(c, lines, |lines|)).None?
  {
    hide CheckLine, GenesisHash;
    var more := lines + [line];
    forall i | 0 <= i < |lines| ensures GoodLine(c, more, i) == GoodLine(c, lines, i) {
      assert PreviousHash(c, more, i) == PreviousHash(c, lines, i);
    }
    assert PreviousHash(c, more, |lines|) == PreviousHash(c, lines, |lines|);
    if Chained(c, more) {
      assert GoodLine(c, more, |lines|);
      forall i | 0 <= i < |lines| ensures GoodLine(c, lines, i) { assert GoodLine(c, more, i); }
    }
  }

  // ---------------------------------------------------------------- the writer

  datatype AuditError = Io | Malformed(line: nat) | Poisoned

  class LogFile {
    var text: string

    constructor ()
      ensures text == ""
    {
      text := "";
    }
  }

  datatype Tail = Tail(nextSeq: nat, lastHash: string, healthy: bool)

  /** Where `open` resumes: after the last line, or why it cannot. */
  function Resume(c: Codec, lines: seq<string>): Result<Tail, AuditError> {
    if lines == [] then Ok(Tail(0, GenesisHash(), true))
    else
      match c.de(lines[|lines| - 1])
      case None => Err(Malformed(|lines|))
      case Some(r) => Ok(Tail(r.seqNo + 1, c.hash(lines[|lines| - 1]), true))
  }

  function NextRecord(t: Tail, draft: Draft, at: string): Record {
    Record(t.nextSeq, at, draft, t.lastHash)
  }

  /** How a write goes: all of it, nothing, all of it but the sync fails, or only the first `cut`
      characters of the line without its line feed. */
  datatype Write = Synced | Lost | LeftBehind | Torn(cut: nat)

  /** What the write of a line adds to the file. */
  function Added(line: string, w: Write): string {
    match w
    case Synced => line + "\n"
    case Lost => ""
    case LeftBehind => line + "\n"
    case Torn(cut) => if cut < |line| then line[..cut] else line
  }

  /** One append: the new text and tail, and what the caller is told. */
  function AppendTo(c: Codec, text: string, t: Tail, draft: Draft, at: string, w: Write)
    : (string, Tail, Result<Record, AuditError>)
  {
    if !t.healthy then (text, t, Err(Poisoned))
    else
      var r := NextRecord(t, draft, at);
      var after := text + Added(c.ser(r), w);
      if w.Synced? then (after, Tail(t.nextSeq + 1, c.hash(c.ser(r)), true), Ok(r))
      else (after, t.(healthy := false), Err(Io))
  }

  class AuditLog {
    const file: LogFile
    const codec: Codec
    var tail: Tail

    constructor (file: LogFile, codec: Codec, tail: Tail)
      ensures this.file == file && this.codec == codec && this.tail == tail
    {
      this.file, this.codec, this.tail := file, codec, tail;
    }

    /** `open`: resume from the last line of the file. */
    static method Open(file: LogFile, codec: Codec) returns (r: Result<AuditLog, AuditError>)
      ensures r.Err? <==> Resume(codec, ReadLines(file.text)).Err?
      ensures r.Err? ==> r.error == Resume(codec, ReadLines(file.text)).error
      ensures r.Ok? ==> fresh(r.value) && r.value.file == file && r.value.codec == codec
                        && Ok(r.value.tail) == Resume(codec, ReadLines(file.text))
    {
      var lines := ReadLines(file.text);
      var tail: Tail;
      if |lines| == 0 {
        tail := Tail(0, GenesisHash(), true);
      } else {
        var last := lines[|lines| - 1];
        match codec.de(last) {
          case None => return Err(Malformed(|lines|));
          case Some(record) => tail := Tail(record.seqNo + 1, codec.hash(last), true);
        }
      }
      var log := new AuditLog(file, codec, tail);
      r := Ok(log);
    }

    /** `append`: one record and a new tail, or an error and a tail that takes no more. */
    method Append(draft: Draft, at: string, w: Write) returns (r: Result<Record, AuditError>)
      modifies this, file
      ensures (file.text, tail, r) == AppendTo(codec, old(file.text), old(tail), draft, at, w)
      ensures r.Ok? <==> old(tail).healthy && w.Synced?
      ensures r.Ok? ==> r.value.draft == draft && r.value.at == at && r.value.seqNo == old(tail).nextSeq
                        && r.value.prevHash == old(tail).lastHash
                        && file.text == old(file.text) + codec.ser(r.value) + "\n"
    {
      if !tail.healthy { return Err(Poisoned); }
      var record := Record(tail.nextSeq, at, draft, tail.lastHash);
      var line := codec.ser(record);
      file.text := file.text + Added(line, w);
      assert w.Synced? ==> file.text == old(file.text) + line + "\n";
      if w != Synced {
        tail := tail.(healthy := false);
        return Err(Io);
      }
      tail := Tail(tail.nextSeq + 1, codec.hash(line), true);
      r := Ok(record);
    }

    /** `verify`: walk the file again. */
    method VerifyFile() returns (v: Result<nat, ChainBreak>)
      ensures IsVerdict(codec, ReadLines(file.text), v)
    {
      v := Verify(codec, ReadLines(file.text));
    }
  }

  // ---------------------------------------------------------------- every run of one writer

  datatype Event = Appending(draft: Draft, at: string, write: Write) | Reopening

  /** A record whose whole line went to the file, and whether its append reported it. */
  datatype Kept = Kept(record: Record, reported: bool)

  /** The log of one writer: the file, the open log, and the records in the file so far. */
  datatype Log = Log(text: string, tail: Tail, kept: seq<Kept>)

  const NewLog := Log("", Tail(0, GenesisHash(), true), [])

  function KeptBy(t: Tail, draft: Draft, at: string, w: Write): seq<Kept> {
    if t.healthy && (w.Synced? || w.LeftBehind?) then [Kept(NextRecord(t, draft, at), w.Synced?)] else []
  }

  function StepLog(c: Codec, l: Log, e: Event): Log {
    match e
    case Appending(draft, at, w) =>
      var (text, tail, _) := AppendTo(c, l.text, l.tail, draft, at, w);
      Log(text, tail, l.kept + KeptBy(l.tail, draft, at, w))
    case Reopening =>
      var t := Resume(c, ReadLines(l.text));
      if t.Ok? then l.(tail := t.value) else l
  }

  function RunLog(c: Codec, l: Log, events: seq<Event>): Log
    decreases |events|
  {
    if events == [] then l else RunLog(c, StepLog(c, l, events[0]), events[1..])
  }

  /** The records that the appends of a run returned, in order. */
  function Returned(c: Codec, l: Log, events: seq<Event>): seq<Record>
    decreases |events|
  {
    if events == [] then []
    else ReturnedBy(c, l, events[0]) + Returned(c, StepLog(c, l, events[0]), events[1..])
  }

  function ReturnedBy(c: Codec, l: Log, e: Event): seq<Record> {
    match e
    case Appending(draft, at, w) =>
      var r := AppendTo(c, l.text, l.tail, draft, at, w).2;
      if r.Ok? then [r.value] else []
    case Reopening => []
  }

  function Reported(kept: seq<Kept>): seq<Record> {
    if kept == [] then []
    else Reported(kept[..|kept| - 1]) + if kept[|kept| - 1].reported then [kept[|kept| - 1].record] else []
  }

  function Lines(c: Codec, kept: seq<Kept>): seq<string> {
    seq(|kept|, i requires 0 <= i < |kept| => c.ser(kept[i].record))
  }

  /** The file is a chain of complete lines, those of the records kept, and a healthy tail stands at its
      end. */
  predicate LogOk(c: Codec, l: Log) {
    var lines := ReadLines(l.text);
    && Closed(l.text) && Chained(c, lines) && lines == Lines(c, l.kept)
    && (l.tail.healthy ==> l.tail.nextSeq == |lines| && l.tail.lastHash == PreviousHash(c, lines, |lines|))
  }

  /** The event is a write that stops inside its line. */
  predicate Tears(l: Log, e: Event) {
    e.Appending? && e.write.Torn? && e.write.cut > 0 && l.tail.healthy
  }

  /** Some write of the run stops inside its line. */
  predicate TornIn(c: Codec, l: Log, events: seq<Event>)
    decreases |events|
  {
    events != [] && (Tears(l, events[0]) || TornIn(c, StepLog(c, l, events[0]), events[1..]))
  }

  predicate NoneTorn(events: seq<Event>) {
    forall k :: 0 <= k < |events| ==> events[k].Appending? ==> !events[k].write.Torn?
  }

  function Attempts(events: seq<Event>): nat {
    if events == [] then 0 else (if events[0].Appending? then 1 else 0) + Attempts(events[1..])
  }

  lemma StepLogOk(c: Codec, l: Log, e: Event)
    requires Faithful(c) && LogOk(c, l) && !Tears(l, e)
    ensures LogOk(c, StepLog(c, l, e))
    ensures Resume(c, ReadLines(l.text)).Ok?
  {
    var lines := ReadLines(l.text);
    if lines != [] { assert GoodLine(c, lines, |lines| - 1); }
    hide ReadLines, GenesisHash, OneLine;
    match e
    case Appending(draft, at, w) =>
      var r := NextRecord(l.tail, draft, at);
      if l.tail.healthy && (w.Synced? || w.LeftBehind?) {
        LineAppended(l.text, c.ser(r));
        ChainedSnoc(c, lines, c.ser(r));
        assert l.text + (c.ser(r) + "\n") == l.text + c.ser(r) + "\n";
        assert Lines(c, l.kept + [Kept(r, w.Synced?)]) == Lines(c, l.kept) + [c.ser(r)];
      } else {
        assert l.text + "" == l.text && l.kept + [] == l.kept;
        assert l.tail.healthy && w.Torn? ==> c.ser(r)[..0] == "";
      }
    case Reopening =>
  }

  lemma {:induction false} RunLogOk(c: Codec, l: Log, events: seq<Event>)
    requires Faithful(c) && LogOk(c, l) && !TornIn(c, l, events)
    ensures LogOk(c, RunLog(c, l, events))
    decreases |events|
  {
    hide StepLog, LogOk, Faithful, Tears;
    if events != [] {
      StepLogOk(c, l, events[0]);
      RunLogOk(c, StepLog(c, l, events[0]), events[1..]);
    }
  }

  lemma {:induction false} NoneTornIn(c: Codec, l: Log, events: seq<Event>)
    requires NoneTorn(events)
    ensures !TornIn(c, l, events)
    decreases |events|
  {
    hide StepLog;
    if events != [] { NoneTornIn(c, StepLog(c, l, events[0]), events[1..]); }
  }

  lemma ReportedMore(kept: seq<Kept>, k: Kept)
    ensures Reported(kept + [k]) == Reported(kept) + if k.reported then [k.record] else []
  {
    assert (kept + [k])[..|kept|] == kept;
  }

  /** What is reported is what the appends returned, and no more is kept than was tried. */
  lemma {:induction false} RunReports(c: Codec, l: Log, events: seq<Event>)
    ensures var m := RunLog(c, l, events);
            && Reported(m.kept) == Reported(l.kept) + Returned(c, l, events)
            && |m.kept| <= |l.kept| + Attempts(events)
    decreases |events|
  {
    if events != [] {
      var m, more := StepLog(c, l, events[0]), Returned(c, StepLog(c, l, events[0]), events[1..]);
      StepReports(c, l, events[0]);
      hide StepLog, ReturnedBy, Reported;
      RunReports(c, m, events[1..]);
      ThreeParts(Reported(l.kept), ReturnedBy(c, l, events[0]), more);
    }
  }

  lemma ThreeParts<T>(a: seq<T>, b: seq<T>, c: seq<T>)
    ensures (a + b) + c == a + (b + c)
  {
  }

  lemma StepReports(c: Codec, l: Log, e: Event)
    ensures var m := StepLog(c, l, e);
            && Reported(m.kept) == Reported(l.kept) + ReturnedBy(c, l, e)
            && |m.kept| <= |l.kept| + if e.Appending? then 1 else 0
  {
    hide ReadLines, Resume, Added, Reported;
    match e
    case Appending(draft, at, w) =>
      if KeptBy(l.tail, draft, at, w) == [] {
        assert l.kept + [] == l.kept && Reported(l.kept) + [] == Reported(l.kept);
      } else {
        ReportedMore(l.kept, KeptBy(l.tail, draft, at, w)[0]);
      }
    case Reopening =>
      assert Reported(l.kept) + [] == Reported(l.kept);
  }

  lemma {:induction false} ReportedBound(kept: seq<Kept>)
    ensures |Reported(kept)| <= |kept|
  {
    if kept != [] { ReportedBound(kept[..|kept| - 1]); }
  }

  /** After any run of appends and reopenings in which no write stops inside its line, the log verifies.
      Its lines are those of the records kept, in order; the reported ones among them are exactly the
      records the appends returned, in order, and no more are kept than were tried. */
  lemma EveryRunVerifies(c: Codec, events: seq<Event>, v: Result<nat, ChainBreak>)
    requires Faithful(c) && !TornIn(c, NewLog, events) && IsVerdict(c, ReadLines(RunLog(c, NewLog, events).text), v)
    ensures var l := RunLog(c, NewLog, events);
            && v == Ok(|l.kept|) && ReadLines(l.text) == Lines(c, l.kept)
            && Reported(l.kept) == Returned(c, NewLog, events)
            && |Returned(c, NewLog, events)| <= |l.kept| <= Attempts(events)
  {
    assert ReadLines("") == [];
    RunLogOk(c, NewLog, events);
    RunReports(c, NewLog, events);
    var l := RunLog(c, NewLog, events);
    ReportedBound(l.kept);
    hide RunLog, ReadLines;
    OneVerdict(c, ReadLines(l.text), v, Ok(|l.kept|));
  }

  /** Appending never repairs: a log that breaks keeps breaking at the same place. */
  lemma BreakPersists(c: Codec, lines: seq<string>, more: seq<string>, b: ChainBreak)
    requires BreaksAt(c, lines, b)
    ensures BreaksAt(c, lines + more, b)
  {
    hide CheckLine, Chained;
    assert (lines + more)[..b.line - 1] == lines[..b.line - 1];
    assert PreviousHash(c, lines + more, b.line - 1) == PreviousHash(c, lines, b.line - 1);
  }

  // ---------------------------------------------------------------- what the lines say

  lemma NewLogOk(c: Codec)
    ensures LogOk(c, NewLog)
  {
    assert ReadLines("") == [];
  }

  /** What the caller of an append asked to have recorded. */
  datatype Entry = Entry(draft: Draft, at: string)

  function EntryOf(r: Record): Entry {
    Entry(r.draft, r.at)
  }

  /** The entries of a run that reach the file, told from the write outcomes alone. A log is healthy until
      a write fails and again after a reopening; then a write leaves its line when it is synced, or only
      its sync fails. */
  function Written(healthy: bool, events: seq<Event>): seq<Entry>
    decreases |events|
  {
    if events == [] then []
    else
      match events[0]
      case Reopening => Written(true, events[1..])
      case Appending(draft, at, w) =>
        (if healthy && (w.Synced? || w.LeftBehind?) then [Entry(draft, at)] else [])
        + Written(healthy && w.Synced?, events[1..])
  }

  /** Those among them that are reported as written. */
  function Acknowledged(healthy: bool, events: seq<Event>): seq<Entry>
    decreases |events|
  {
    if events == [] then []
    else
      match events[0]
      case Reopening => Acknowledged(true, events[1..])
      case Appending(draft, at, w) =>
        (if healthy && w.Synced? then [Entry(draft, at)] else []) + Acknowledged(healthy && w.Synced?, events[1..])
  }

  function KeptEntries(kept: seq<Kept>): seq<Entry> {
    seq(|kept|, i requires 0 <= i < |kept| => EntryOf(kept[i].record))
  }

  function RecordEntries(rs: seq<Record>): seq<Entry> {
    seq(|rs|, i requires 0 <= i < |rs| => EntryOf(rs[i]))
  }

  /** One event of a good log adds its own entry, or none. */
  lemma StepEntries(c: Codec, l: Log, e: Event)
    requires Faithful(c) && LogOk(c, l) && !Tears(l, e)
    ensures var m := StepLog(c, l, e);
            && m.tail.healthy == (if e.Reopening? then true else l.tail.healthy && e.write.Synced?)
            && KeptEntries(m.kept) == KeptEntries(l.kept)
                 + (if e.Appending? && l.tail.healthy
                   && (e.write.Synced? || e.write.LeftBehind?) then [Entry(e.draft, e.at)] else [])
            && RecordEntries(ReturnedBy(c, l, e))
               == if e.Appending? && l.tail.healthy && e.write.Synced? then [Entry(e.draft, e.at)] else []
  {
    StepLogOk(c, l, e);
    hide ReadLines, Faithful, LogOk, Added;
  }

  lemma {:induction false} RunEntries(c: Codec, l: Log, events: seq<Event>)
    requires Faithful(c) && LogOk(c, l) && !TornIn(c, l, events)
    ensures KeptEntries(RunLog(c, l, events).kept) == KeptEntries(l.kept) + Written(l.tail.healthy, events)
    ensures RecordEntries(Returned(c, l, events)) == Acknowledged(l.tail.healthy, events)
    decreases |events|
  {
    hide StepLog, LogOk, Faithful, Tears, KeptEntries;
    if events != [] {
      var e, m := events[0], StepLog(c, l, events[0]);
      StepEntries(c, l, e);
      StepLogOk(c, l, e);
      RunEntries(c, m, events[1..]);
      EntriesConcat(ReturnedBy(c, l, e), Returned(c, m, events[1..]));
      hide RecordEntries, ReturnedBy;
      if e.Appending? && l.tail.healthy && (e.write.Synced? || e.write.LeftBehind?) {
        ThreeParts(KeptEntries(l.kept), [Entry(e.draft, e.at)], Written(m.tail.healthy, events[1..]));
      } else {
        ThreeParts(KeptEntries(l.kept), [], Written(m.tail.healthy, events[1..]));
        assert [] + Written(m.tail.healthy, events[1..]) == Written(m.tail.healthy, events[1..]);
      }
    }
  }

  lemma EntriesConcat(a: seq<Record>, b: seq<Record>)
    ensures RecordEntries(a + b) == RecordEntries(a) + RecordEntries(b)
  {
  }

  /** After any run in which no write stops inside its line, every line reads back as a record, numbered by
      its place and carrying the draft and the time of the append that wrote it, in order; and the records
      returned carry those of the appends that were reported as written. */
  lemma LinesSayWhatWasAppended(c: Codec, events: seq<Event>)
    requires Faithful(c) && !TornIn(c, NewLog, events)
    ensures var lines, entries := ReadLines(RunLog(c, NewLog, events).text), Written(true, events);
            && |lines| == |entries|
            && forall i :: 0 <= i < |lines| ==>
                 c.de(lines[i]).Some? && c.de(lines[i]).value.seqNo == i && EntryOf(c.de(lines[i]).value) == entries[i]
    ensures RecordEntries(Returned(c, NewLog, events)) == Acknowledged(true, events)
  {
    NewLogOk(c);
    RunEntries(c, NewLog, events);
    RunLogOk(c, NewLog, events);
    var l := RunLog(c, NewLog, events);
    var lines, entries := ReadLines(l.text), Written(true, events);
    assert KeptEntries(NewLog.kept) == [] && [] + entries == entries;
    hide RunLog, ReadLines, Written, Returned;
    forall i | 0 <= i < |lines|
      ensures c.de(lines[i]).Some? && c.de(lines[i]).value.seqNo == i && EntryOf(c.de(lines[i]).value) == entries[i]
    {
      assert lines[i] == c.ser(l.kept[i].record);
      assert GoodLine(c, lines, i);
    }
  }

  // ---------------------------------------------------------------- writes that stop inside a line

  /** No proper beginning of a serialized record is a record, nor is a record followed by a beginning of
      another; all of them are one line. */
  ghost predicate OnlyWhole(c: Codec) {
    && (forall r, cut :: 0 < cut < |c.ser(r)| ==> NoRecord(c, c.ser(r)[..cut]))
    && (forall r, q, cut :: 0 < cut <= |c.ser(q)| ==> NoRecord(c, c.ser(r) + c.ser(q)[..cut]))
  }

  predicate NoRecord(c: Codec, line: string) {
    OneLine(line) && c.de(line).None?
  }

  lemma {:induction false} SplitTail(text: string, line: string, from: nat, to: nat)
    requires from <= to <= |text| && Closed(text) && '\n' !in line && line != ""
    requires from == to || to < |text|
    ensures Split(text + line, from, to) == Split(text, from, to) + [line]
    decreases |text| - to
  {
    hide StripReturn;
    var whole := text + line;
    if to == |text| {
      NoBreak(whole, from, to);
      assert whole[from..] == line;
    } else if text[to] == '\n' {
      assert whole[to] == '\n' && whole[from..to] == text[from..to];
      SplitTail(text, line, to + 1, to + 1);
    } else {
      assert whole[to] == text[to];
      SplitTail(text, line, from, to + 1);
    }
  }

  lemma {:induction false} NoBreak(text: string, from: nat, to: nat)
    requires from <= to <= |text| && from < |text| && forall k :: from <= k < |text| ==> text[k] != '\n'
    ensures Split(text, from, to) == [text[from..]]
    decreases |text| - to
  {
    if to < |text| { NoBreak(text, from, to + 1); } else { assert text[from..to] == text[from..]; }
  }

  /** What stands after the last line feed is read as a line. */
  lemma TailRead(text: string, line: string)
    requires Closed(text) && OneLine(line)
    ensures ReadLines(text + line) == ReadLines(text) + [line]
  {
    assert line != "";
    hide Blank;
    SplitTail(text, line, 0, 0);
    DropBlankAppend(Split(text, 0, 0), line);
  }

  lemma {:induction false} SplitPrefix(text: string, more: string, from: nat, to: nat)
    requires from <= to <= |text| && Closed(text) && (from == to || to < |text|)
    ensures Split(text, from, to) <= Split(text + more, from, to)
    decreases |text| - to
  {
    hide StripReturn;
    var whole := text + more;
    if to < |text| {
      assert whole[to] == text[to] && whole[from..to] == text[from..to];
      if text[to] == '\n' { SplitPrefix(text, more, to + 1, to + 1); } else { SplitPrefix(text, more, from, to + 1); }
    }
  }

  lemma {:induction false} DropBlankPrefix(a: seq<string>, b: seq<string>)
    requires a <= b
    ensures DropBlank(a) <= DropBlank(b)
  {
    hide Blank;
    if a != [] { DropBlankPrefix(a[1..], b[1..]); }
  }

  /** Complete lines stay as they are whatever follows. */
  lemma LinesStay(text: string, more: string)
    requires Closed(text)
    ensures ReadLines(text) <= ReadLines(text + more)
  {
    SplitPrefix(text, more, 0, 0);
    DropBlankPrefix(Split(text, 0, 0), Split(text + more, 0, 0));
  }

  /** Broken in a complete line, or at the last line of a file nobody can resume. */
  ghost predicate Ruined(c: Codec, l: Log, b: ChainBreak) {
    || (exists n: nat :: BrokenBefore(c, l.text, n, b))
    || (!l.tail.healthy && Resume(c, ReadLines(l.text)).Err? && BreaksAt(c, ReadLines(l.text), b))
  }

  ghost predicate BrokenBefore(c: Codec, text: string, n: nat, b: ChainBreak) {
    n <= |text| && Closed(text[..n]) && BreaksAt(c, ReadLines(text[..n]), b)
  }

  lemma RuinedBreaks(c: Codec, l: Log, b: ChainBreak)
    requires Ruined(c, l, b)
    ensures BreaksAt(c, ReadLines(l.text), b) && !Chained(c, ReadLines(l.text))
  {
    hide BreaksAt, Chained, ReadLines, Closed, Resume;
    if n: nat :| BrokenBefore(c, l.text, n, b) {
      assert l.text == l.text[..n] + l.text[n..];
      LinesStay(l.text[..n], l.text[n..]);
      var lines, all := ReadLines(l.text[..n]), ReadLines(l.text);
      assert all == lines + all[|lines|..];
      BreakPersists(c, lines, all[|lines|..], b);
    }
    NotChained(c, ReadLines(l.text), b);
  }

  lemma TextGrows(c: Codec, l: Log, e: Event)
    ensures l.text <= StepLog(c, l, e).text
    ensures !l.tail.healthy && (e.Appending? || Resume(c, ReadLines(l.text)).Err?) ==> StepLog(c, l, e) == l
  {
    hide ReadLines, Resume;
    assert l.kept + [] == l.kept;
  }

  /** A ruined log stays ruined at the same line, whatever is written after. */
  lemma RuinedStays(c: Codec, l: Log, e: Event, b: ChainBreak)
    requires Ruined(c, l, b)
    ensures Ruined(c, StepLog(c, l, e), b)
  {
    TextGrows(c, l, e);
    hide StepLog, BreaksAt, ReadLines, Closed, Resume;
    var m := StepLog(c, l, e);
    if n: nat :| BrokenBefore(c, l.text, n, b) {
      assert m.text[..n] == l.text[..n];
      assert BrokenBefore(c, m.text, n, b);
    }
  }

  lemma {:induction false} RuinedForGood(c: Codec, l: Log, events: seq<Event>, b: ChainBreak)
    requires Ruined(c, l, b)
    ensures Ruined(c, RunLog(c, l, events), b)
    decreases |events|
  {
    hide StepLog, Ruined;
    if events != [] {
      RuinedStays(c, l, events[0], b);
      RuinedForGood(c, StepLog(c, l, events[0]), events[1..], b);
    }
  }

  /** Only the line feed of the last record is missing. */
  ghost predicate Hanging(c: Codec, l: Log) {
    exists n: nat, r :: HangsAt(c, l.text, n, r)
  }

  ghost predicate HangsAt(c: Codec, text: string, n: nat, r: Record) {
    n <= |text| && Closed(text[..n]) && text[n..] == c.ser(r) && Chained(c, ReadLines(text[..n]) + [c.ser(r)])
  }

  /** A log whose last line was cut or lost its line feed. */
  ghost predicate Damaged(c: Codec, l: Log) {
    Hanging(c, l) || exists b :: Ruined(c, l, b)
  }

  lemma BrokenLast(c: Codec, lines: seq<string>, line: string)
    requires Chained(c, lines) && c.de(line).None?
    ensures BreaksAt(c, lines + [line], ChainBreak(|lines| + 1, None, NotARecord))
    ensures Resume(c, lines + [line]).Err?
  {
    hide Chained;
    assert (lines + [line])[..|lines|] == lines;
  }

  /** A chained file of complete lines, then an unfinished line that is no record. */
  lemma CutRuins(c: Codec, l: Log, text: string, part: string)
    requires Closed(text) && Chained(c, ReadLines(text)) && l.text == text + part && NoRecord(c, part)
             && !l.tail.healthy
    ensures Ruined(c, l, ChainBreak(|ReadLines(text)| + 1, None, NotARecord))
  {
    TailRead(text, part);
    hide ReadLines, OneLine, Chained;
    BrokenLast(c, ReadLines(text), part);
  }

  /** The same with a line feed: nothing can undo it. */
  lemma ClosedRuins(c: Codec, l: Log, text: string, line: string)
    requires Closed(text) && Chained(c, ReadLines(text)) && NoRecord(c, line) && text + line + "\n" <= l.text
    ensures Ruined(c, l, ChainBreak(|ReadLines(text)| + 1, None, NotARecord))
  {
    LineAppended(text, line);
    hide ReadLines, OneLine, Chained;
    BrokenLast(c, ReadLines(text), line);
    var n := |text + line + "\n"|;
    assert l.text[..n] == text + line + "\n";
    assert BrokenBefore(c, l.text, n, ChainBreak(|ReadLines(text)| + 1, None, NotARecord));
  }

  /** A torn write damages a good log: the line is cut, or hangs. */
  lemma TornDamages(c: Codec, l: Log, e: Event)
    requires Faithful(c) && OnlyWhole(c) && LogOk(c, l) && Tears(l, e)
    ensures Damaged(c, StepLog(c, l, e))
    ensures e.write.cut < |c.ser(NextRecord(l.tail, e.draft, e.at))| ==>
              Ruined(c, StepLog(c, l, e), ChainBreak(|l.kept| + 1, None, NotARecord))
  {
    var r, m := NextRecord(l.tail, e.draft, e.at), StepLog(c, l, e);
    var lines := ReadLines(l.text);
    hide ReadLines, OneLine, GenesisHash;
    if e.write.cut < |c.ser(r)| {
      CutRuins(c, m, l.text, c.ser(r)[..e.write.cut]);
    } else {
      ChainedSnoc(c, lines, c.ser(r));
      assert m.text == l.text + c.ser(r);
      assert m.text[..|l.text|] == l.text && m.text[|l.text|..] == c.ser(r);
      assert HangsAt(c, m.text, |l.text|, r);
    }
  }

  lemma HangingReads(c: Codec, text: string, n: nat, r: Record)
    requires Faithful(c) && HangsAt(c, text, n, r)
    ensures ReadLines(text) == ReadLines(text[..n]) + [c.ser(r)] && Chained(c, ReadLines(text[..n]))
    ensures Resume(c, ReadLines(text)).Ok?
  {
    hide ReadLines;
    assert text == text[..n] + text[n..];
    TailRead(text[..n], c.ser(r));
    ChainedSnoc(c, ReadLines(text[..n]), c.ser(r));
  }

  /** One event of a hanging log: the line still hangs, or the next one runs into it. */
  lemma HangingStep(c: Codec, l: Log, e: Event)
    requires Faithful(c) && OnlyWhole(c) && Hanging(c, l)
    ensures Damaged(c, StepLog(c, l, e))
    ensures e.Appending? && e.write.Synced? && l.tail.healthy ==> exists b :: Ruined(c, StepLog(c, l, e), b)
  {
    var n: nat, r :| HangsAt(c, l.text, n, r);
    HangingReads(c, l.text, n, r);
    var m := StepLog(c, l, e);
    var added := if e.Appending?
      && l.tail.healthy then Added(c.ser(NextRecord(l.tail, e.draft, e.at)), e.write) else "";
    assert m.text == l.text + added;
    if added == "" {
      assert m.text == l.text;
      hide HangsAt;
      assert HangsAt(c, m.text, n, r);
    } else {
      hide StepLog, HangsAt, ReadLines, Chained;
      assert l.text == l.text[..n] + c.ser(r) by { HangsText(c, l.text, n, r); }
      RunsInto(c, l, m, l.text[..n], r, NextRecord(l.tail, e.draft, e.at), e.write);
    }
  }

  lemma HangsText(c: Codec, text: string, n: nat, r: Record)
    requires HangsAt(c, text, n, r)
    ensures text == text[..n] + c.ser(r) && Closed(text[..n])
  {
  }

  lemma Glued(c: Codec, r: Record, q: Record)
    requires Faithful(c) && OnlyWhole(c)
    ensures NoRecord(c, c.ser(r) + c.ser(q))
  {
    assert OneLine(c.ser(q)) && |c.ser(q)| > 0;
    assert c.ser(q)[..|c.ser(q)|] == c.ser(q);
  }

  /** The line of `q`, or a beginning of it, right behind the line of `r`. */
  lemma RunsInto(c: Codec, l: Log, m: Log, text: string, r: Record, q: Record, w: Write)
    requires Faithful(c) && OnlyWhole(c) && Closed(text) && Chained(c, ReadLines(text))
    requires l.text == text + c.ser(r) && m.text == l.text + Added(c.ser(q), w) && Added(c.ser(q), w) != ""
    requires !w.Synced? ==> !m.tail.healthy
    ensures exists b :: Ruined(c, m, b)
  {
    hide ReadLines, OneLine, Chained, Ruined;
    var b := ChainBreak(|ReadLines(text)| + 1, None, NotARecord);
    if w.Torn? {
      var cut := if w.cut < |c.ser(q)| then w.cut else |c.ser(q)|;
      assert Added(c.ser(q), w) == c.ser(q)[..cut];
      assert m.text == text + (c.ser(r) + c.ser(q)[..cut]);
      CutRuins(c, m, text, c.ser(r) + c.ser(q)[..cut]);
    } else {
      Glued(c, r, q);
      assert m.text == text + (c.ser(r) + c.ser(q)) + "\n";
      ClosedRuins(c, m, text, c.ser(r) + c.ser(q));
    }
    assert Ruined(c, m, b);
  }

  lemma DamagedStep(c: Codec, l: Log, e: Event)
    requires Faithful(c) && OnlyWhole(c) && Damaged(c, l)
    ensures Damaged(c, StepLog(c, l, e))
  {
    hide StepLog, Ruined, Hanging;
    if Hanging(c, l) {
      HangingStep(c, l, e);
    } else {
      var b :| Ruined(c, l, b);
      RuinedStays(c, l, e, b);
    }
  }

  lemma {:induction false} DamagedStays(c: Codec, l: Log, events: seq<Event>)
    requires Faithful(c) && OnlyWhole(c) && Damaged(c, l)
    ensures Damaged(c, RunLog(c, l, events))
    decreases |events|
  {
    hide StepLog, Damaged, Faithful, OnlyWhole;
    if events != [] {
      DamagedStep(c, l, events[0]);
      DamagedStays(c, StepLog(c, l, events[0]), events[1..]);
    }
  }

  lemma {:induction false} TornRunDamages(c: Codec, l: Log, events: seq<Event>)
    requires Faithful(c) && OnlyWhole(c) && LogOk(c, l) && TornIn(c, l, events)
    ensures Damaged(c, RunLog(c, l, events))
    decreases |events|
  {
    hide StepLog, Damaged, Faithful, OnlyWhole, LogOk, Tears;
    if Tears(l, events[0]) {
      TornDamages(c, l, events[0]);
      DamagedStays(c, StepLog(c, l, events[0]), events[1..]);
    } else {
      StepLogOk(c, l, events[0]);
      TornRunDamages(c, StepLog(c, l, events[0]), events[1..]);
    }
  }

  function NoDraft(): Draft {
    Draft("", Decision, "", "", "", "", Permit, None, None, "", None)
  }

  /** Reopening a damaged log and appending to it once leaves it ruined. */
  lemma DamagedOnceMore(c: Codec, l: Log)
    requires Faithful(c) && OnlyWhole(c) && Damaged(c, l)
    ensures exists b :: Ruined(c, RunLog(c, l, [Reopening, Appending(NoDraft(), "", Synced)]), b)
  {
    var e := Appending(NoDraft(), "", Synced);
    var m := StepLog(c, l, Reopening);
    RunTwo(c, l, Reopening, e);
    if Hanging(c, l) {
      var n: nat, r :| HangsAt(c, l.text, n, r);
      HangingReads(c, l.text, n, r);
      hide HangsAt, ReadLines;
      assert m.text == l.text && m.tail.healthy;
      assert HangsAt(c, m.text, n, r);
      hide StepLog, Ruined, RunLog;
      HangingStep(c, m, e);
    } else {
      hide StepLog, Ruined, RunLog;
      var b :| Ruined(c, l, b);
      RuinedStays(c, l, Reopening, b);
      RuinedStays(c, m, e, b);
    }
  }

  lemma RunTwo(c: Codec, l: Log, x: Event, y: Event)
    ensures RunLog(c, l, [x, y]) == StepLog(c, StepLog(c, l, x), y)
  {
    hide StepLog;
    assert [x, y][1..] == [y] && [y][1..] == [];
    var m := StepLog(c, l, x);
    assert RunLog(c, StepLog(c, m, y), []) == StepLog(c, m, y);
    assert RunLog(c, m, [y]) == RunLog(c, StepLog(c, m, y), []);
  }

  lemma {:induction false} RunAppend(c: Codec, l: Log, a: seq<Event>, b: seq<Event>)
    ensures RunLog(c, l, a + b) == RunLog(c, RunLog(c, l, a), b)
    decreases |a|
  {
    hide StepLog;
    if a == [] {
      assert a + b == b;
    } else {
      assert (a + b)[1..] == a[1..] + b;
      RunAppend(c, StepLog(c, l, a[0]), a[1..], b);
    }
  }

  /** A run can go on for good, without further torn writes, exactly when none of its own writes stopped
      inside its line on a healthy log. */
  lemma TornExactly(c: Codec, events: seq<Event>)
    requires Faithful(c) && OnlyWhole(c)
    ensures (forall more :: NoneTorn(more) ==> Chained(c, ReadLines(RunLog(c, NewLog, events + more).text)))
            <==> !TornIn(c, NewLog, events)
  {
    NewLogOk(c);
    var l := RunLog(c, NewLog, events);
    hide RunLog, ReadLines, Chained, Faithful, OnlyWhole, LogOk, TornIn, NoneTorn, Damaged, Ruined;
    if TornIn(c, NewLog, events) {
      var more := [Reopening, Appending(NoDraft(), "", Synced)];
      TornRunDamages(c, NewLog, events);
      DamagedOnceMore(c, l);
      RunAppend(c, NewLog, events, more);
      var b :| Ruined(c, RunLog(c, l, more), b);
      RuinedBreaks(c, RunLog(c, l, more), b);
      assert NoneTorn(more) by { OnceMoreWhole(); }
    } else {
      forall more | NoneTorn(more) ensures Chained(c, ReadLines(RunLog(c, NewLog, events + more).text)) {
        RunLogOk(c, NewLog, events);
        NoneTornIn(c, l, more);
        RunLogOk(c, l, more);
        RunAppend(c, NewLog, events, more);
        OkChained(c, RunLog(c, l, more));
      }
    }
  }

  lemma OnceMoreWhole()
    ensures NoneTorn([Reopening, Appending(NoDraft(), "", Synced)])
  {
  }

  lemma OkChained(c: Codec, l: Log)
    requires LogOk(c, l)
    ensures Chained(c, ReadLines(l.text))
  {
    hide ReadLines, Chained;
  }

  /** After a write that stopped inside its line, a reopening and an append, the log breaks at that line
      whatever is written later. When only the line feed was lost, that append was reported as a
      success. */
  lemma TornWriteBreaks(c: Codec, l: Log, draft: Draft, at: string, cut: nat, draft': Draft, at': string,
                        more: seq<Event>)
    requires Faithful(c) && OnlyWhole(c) && LogOk(c, l) && l.tail.healthy && cut > 0
    ensures var first := [Appending(draft, at, Torn(cut)), Reopening, Appending(draft', at', Synced)];
            && BreaksAt(c, ReadLines(RunLog(c, l, first + more).text), ChainBreak(|l.kept| + 1, None, NotARecord))
            && |Returned(c, l, first)| == if cut < |c.ser(NextRecord(l.tail, draft, at))| then 0 else 1
  {
    var x, y, z := Appending(draft, at, Torn(cut)), Reopening, Appending(draft', at', Synced);
    var first := [x, y, z];
    var b := ChainBreak(|l.kept| + 1, None, NotARecord);
    TornThree(c, l, draft, at, cut, draft', at');
    RunThree(c, l, x, y, z);
    ReturnedThree(c, l, x, y, z);
    hide *;
    RunAppend(c, l, first, more);
    RuinedForGood(c, RunLog(c, l, first), more, b);
    RuinedBreaks(c, RunLog(c, RunLog(c, l, first), more), b);
  }

  lemma TornThree(c: Codec, l: Log, draft: Draft, at: string, cut: nat, draft': Draft, at': string)
    requires Faithful(c) && OnlyWhole(c) && LogOk(c, l) && l.tail.healthy && cut > 0
    ensures var l1 := StepLog(c, l, Appending(draft, at, Torn(cut)));
            var l2 := StepLog(c, l1, Reopening);
            && Ruined(c, StepLog(c, l2, Appending(draft', at', Synced)), ChainBreak(|l.kept| + 1, None, NotARecord))
            && (l2.tail.healthy <==> cut >= |c.ser(NextRecord(l.tail, draft, at))|)
  {
    var e, z := Appending(draft, at, Torn(cut)), Appending(draft', at', Synced);
    var r, b := NextRecord(l.tail, draft, at), ChainBreak(|l.kept| + 1, None, NotARecord);
    var l1 := StepLog(c, l, e);
    var l2 := StepLog(c, l1, Reopening);
    hide ReadLines, OneLine, GenesisHash;
    if cut < |c.ser(r)| {
      var part := c.ser(r)[..cut];
      TornDamages(c, l, e);
      TailRead(l.text, part);
      BrokenLast(c, ReadLines(l.text), part);
      hide Ruined;
      RuinedStays(c, l1, Reopening, b);
      RuinedStays(c, l2, z, b);
    } else {
      TailRead(l.text, c.ser(r));
      assert l2.tail.healthy && l2.text == l.text + c.ser(r);
      var q := NextRecord(l2.tail, draft', at');
      Glued(c, r, q);
      assert StepLog(c, l2, z).text == l.text + (c.ser(r) + c.ser(q)) + "\n";
      ClosedRuins(c, StepLog(c, l2, z), l.text, c.ser(r) + c.ser(q));
    }
  }

  lemma ReturnedThree(c: Codec, l: Log, x: Event, y: Event, z: Event)
    requires x.Appending? && !x.write.Synced? && y.Reopening? && z.Appending? && z.write.Synced?
    ensures |Returned(c, l, [x, y, z])| == if StepLog(c, StepLog(c, l, x), y).tail.healthy then 1 else 0
  {
    var l1 := StepLog(c, l, x);
    var l2 := StepLog(c, l1, y);
    assert [x, y, z][1..] == [y, z] && [y, z][1..] == [z] && [z][1..] == [];
    assert ReturnedBy(c, l, x) == [] && ReturnedBy(c, l1, y) == [];
    hide StepLog, Added, ReadLines;
    assert Returned(c, StepLog(c, l2, z), []) == [];
    assert Returned(c, l2, [z]) == ReturnedBy(c, l2, z) + [];
    assert Returned(c, l1, [y, z]) == [] + Returned(c, l2, [z]);
    assert Returned(c, l, [x, y, z]) == [] + Returned(c, l1, [y, z]);
  }

  lemma RunThree(c: Codec, l: Log, x: Event, y: Event, z: Event)
    ensures RunLog(c, l, [x, y, z]) == StepLog(c, StepLog(c, StepLog(c, l, x), y), z)
  {
    hide StepLog;
    assert [x, y, z][1..] == [y, z];
    RunTwo(c, StepLog(c, l, x), y, z);
  }

  // ---------------------------------------------------------------- tampering

  /** No two different lines of the two logs have the same hash. */
  ghost predicate NoCollisions(c: Codec, a: seq<string>, b: seq<string>) {
    forall x, y :: (x in a || x in b) && (y in a || y in b) && c.hash(x) == c.hash(y) ==> x == y
  }

  /** Two accepted logs ending in the same line are the same log. */
  lemma {:induction false} LastLineFixesAll(c: Codec, a: seq<string>, b: seq<string>)
    requires Chained(c, a) && Chained(c, b) && NoCollisions(c, a, b)
    requires a != [] && b != [] && a[|a| - 1] == b[|b| - 1]
    ensures a == b
    decreases |a|
  {
    var n := |a|;
    assert GoodLine(c, a, n - 1) && GoodLine(c, b, |b| - 1);
    assert |b| == n;
    assert a == a[..n - 1] + [a[n - 1]] && b == b[..n - 1] + [b[n - 1]];
    if n > 1 {
      var a', b' := a[..n - 1], b[..n - 1];
      assert c.hash(a[n - 2]) == c.hash(b[n - 2]);
      assert a[n - 2] in a && b[n - 2] in b;
      assert forall x :: x in a' ==> x in a;
      assert forall x :: x in b' ==> x in b;
      PrefixChained(c, a, n - 1);
      PrefixChained(c, b, n - 1);
      hide Chained;
      LastLineFixesAll(c, a', b');
    }
  }

  lemma PrefixChained(c: Codec, lines: seq<string>, k: nat)
    requires k <= |lines| && Chained(c, lines)
    ensures Chained(c, lines[..k])
  {
    hide CheckLine;
    forall i | 0 <= i < k ensures GoodLine(c, lines[..k], i) {
      assert GoodLine(c, lines, i);
      assert PreviousHash(c, lines[..k], i) == PreviousHash(c, lines, i);
    }
  }

  /** A log that first differs from an accepted one at `i` and keeps line `i + 1` breaks at its
      line `i + 1` or `i + 2`, counting from one. */
  lemma ChangedLineBreaks(c: Codec, a: seq<string>, b: seq<string>, i: nat, v: Result<nat, ChainBreak>)
    requires Chained(c, a) && NoCollisions(c, a, b) && IsVerdict(c, b, v)
    requires i + 1 < |a| && i + 1 < |b| && a[..i] == b[..i] && a[i] != b[i] && a[i + 1] == b[i + 1]
    ensures v.Err? && v.error.line == if GoodLine(c, b, i) then i + 2 else i + 1
  {
    assert GoodLine(c, a, i + 1);
    assert a[i] in a && b[i] in b;
    assert !GoodLine(c, b, i + 1);
    PrefixChained(c, a, i);
    assert v.Err?;
    hide CheckLine;
    if v.error.line < i + 1 {
      BrokenPrefix(c, b, v.error, i);
    } else if GoodLine(c, b, i) {
      if v.error.line > i + 2 { GoodBefore(c, b, v.error.line - 1, i + 1); }
    } else {
      if v.error.line > i + 1 { GoodBefore(c, b, v.error.line - 1, i); }
    }
  }

  lemma BrokenPrefix(c: Codec, lines: seq<string>, b: ChainBreak, k: nat)
    requires BreaksAt(c, lines, b) && b.line <= k <= |lines|
    ensures !Chained(c, lines[..k])
  {
    hide CheckLine;
    assert PreviousHash(c, lines[..k], b.line - 1) == PreviousHash(c, lines, b.line - 1);
    assert !GoodLine(c, lines[..k], b.line - 1);
  }

  /** Editing one line of an accepted log goes unnoticed exactly when it is the last line and the
      new text is itself the right record for that place. */
  lemma EditUndetectedExactly(c: Codec, a: seq<string>, i: nat, x: string)
    requires Chained(c, a) && i < |a| && x != a[i] && NoCollisions(c, a, a[i := x])
    ensures Chained(c, a[i := x]) <==> i == |a| - 1 && CheckLine(c, x, i, PreviousHash(c, a, i)).None?
  {
    var b := a[i := x];
    hide CheckLine;
    if i < |a| - 1 {
      assert GoodLine(c, a, i + 1);
      assert a[i] in a && b[i] in b;
      LinkBroken(c, a, b, i);
    } else {
      assert b == a[..i] + [x] && a[..i] + [x] == b[..i] + [x];
      PrefixChained(c, a, i);
      ChainedSnoc(c, a[..i], x);
      assert PreviousHash(c, a[..i], i) == PreviousHash(c, a, i);
    }
  }

  /** The line after a changed one no longer fits. */
  lemma LinkBroken(c: Codec, a: seq<string>, b: seq<string>, i: nat)
    requires i + 1 < |a| && i + 1 < |b| && GoodLine(c, a, i + 1) && a[i + 1] == b[i + 1] && c.hash(a[i]) != c.hash(b[i])
    ensures !Chained(c, b)
  {
    assert !GoodLine(c, b, i + 1);
  }

  /** Such an edit always exists: the last record with another time. */
  lemma LastRecordEditable(c: Codec, a: seq<string>) returns (x: string)
    requires Faithful(c) && Chained(c, a) && a != []
    ensures x != a[|a| - 1] && Chained(c, a[|a| - 1 := x])
  {
    var i := |a| - 1;
    assert GoodLine(c, a, i);
    var r := c.de(a[i]).value;
    var q := r.(at := r.at + "!");
    x := c.ser(q);
    assert c.de(x) == Some(q) && |q.at| == |r.at| + 1;
    hide Faithful;
    assert CheckLine(c, x, i, PreviousHash(c, a, i)).None?;
    hide CheckLine, GenesisHash;
    assert a[i := x] == a[..i] + [x];
    PrefixChained(c, a, i);
    ChainedSnoc(c, a[..i], x);
    assert PreviousHash(c, a[..i], i) == PreviousHash(c, a, i);
  }

  /** Where two logs first differ, or one of them ends. */
  function FirstDifference(a: seq<string>, b: seq<string>): (i: nat)
    ensures i <= |a| && i <= |b| && a[..i] == b[..i]
    ensures i < |a| && i < |b| ==> a[i] != b[i]
  {
    if a == [] || b == [] || a[0] != b[0] then 0
    else
      var i := FirstDifference(a[1..], b[1..]);
      assert a[..i + 1] == [a[0]] + a[1..][..i] && b[..i + 1] == [b[0]] + b[1..][..i];
      i + 1
  }

  /** A line of an accepted log that stands at another place breaks the log there. */
  lemma OutOfPlace(c: Codec, a: seq<string>, b: seq<string>, i: nat, j: nat)
    requires Chained(c, a) && i < |b| && i <= |a| && b[..i] == a[..i] && j < |a| && a[j] == b[i] && i != j
    ensures BreaksAt(c, b, ChainBreak(i + 1, Some(j), WrongSequence(j, i))) && !Chained(c, b)
  {
    assert GoodLine(c, a, j);
    PrefixChained(c, a, i);
    assert BreaksAt(c, b, ChainBreak(i + 1, Some(j), WrongSequence(j, i)));
    NotChained(c, b, ChainBreak(i + 1, Some(j), WrongSequence(j, i)));
  }

  lemma NotPrefix(a: seq<string>, b: seq<string>)
    requires !(b <= a)
    ensures FirstDifference(a, b) < |b|
  {
    var i := FirstDifference(a, b);
    assert b[..|b|] == b && (i == |b| ==> b <= a);
  }

  /** Lines taken from an accepted log, in any order and any number: they are accepted exactly when
      they are its first lines in their order. Otherwise the break is at the first line that is not
      the one the log has there, and names the place it came from. */
  lemma RearrangedExactly(c: Codec, a: seq<string>, b: seq<string>)
    requires Chained(c, a) && forall x :: x in b ==> x in a
    ensures Chained(c, b) <==> b <= a
    ensures !(b <= a) ==>
              var i := FirstDifference(a, b);
              i < |b|
                && exists j: nat :: j < |a| && a[j] == b[i]
                     && BreaksAt(c, b, ChainBreak(i + 1, Some(j), WrongSequence(j, i)))
  {
    if b <= a {
      PrefixChained(c, a, |b|);
      assert a[..|b|] == b;
    } else {
      var i := FirstDifference(a, b);
      NotPrefix(a, b);
      assert b[i] in b;
      hide Chained, BreaksAt, FirstDifference;
      var j: nat :| j < |a| && a[j] == b[i];
      OutOfPlace(c, a, b, i, j);
    }
  }

  /** Any reordering of an accepted log breaks at the first line that is not in its place. */
  lemma ReorderingDetected(c: Codec, a: seq<string>, b: seq<string>)
    requires Chained(c, a) && multiset(b) == multiset(a) && b != a
    ensures var i := FirstDifference(a, b);
            i < |b|
              && exists j: nat :: j < |a| && a[j] == b[i]
                   && BreaksAt(c, b, ChainBreak(i + 1, Some(j), WrongSequence(j, i)))
  {
    assert |multiset(a)| == |a| && |multiset(b)| == |b|;
    forall x | x in b ensures x in a { assert x in multiset(b); }
    RearrangedExactly(c, a, b);
  }

  /** `b` is what is left of `a` when the lines at some places are taken out. */
  ghost predicate LeftOver(a: seq<string>, b: seq<string>, places: seq<nat>) {
    && |places| == |b| && (forall k :: 0 <= k < |b| ==> places[k] < |a| && a[places[k]] == b[k])
    && forall k, m :: 0 <= k < m < |b| ==> places[k] < places[m]
  }

  /** Removing lines goes unnoticed exactly when only last ones are removed; otherwise the gap is
      named: the first line after it, and where that line stood. */
  lemma RemovalUndetectedExactly(c: Codec, a: seq<string>, b: seq<string>, places: seq<nat>)
    requires Chained(c, a) && LeftOver(a, b, places)
    ensures Chained(c, b) <==> forall k :: 0 <= k < |b| ==> places[k] == k
    ensures !Chained(c, b) ==>
              exists i: nat :: i < |b| && (forall k :: 0 <= k < i ==> places[k] == k) && places[i] > i
                && BreaksAt(c, b, ChainBreak(i + 1, Some(places[i]), WrongSequence(places[i], i)))
  {
    if forall k :: 0 <= k < |b| ==> places[k] == k {
      assert |b| > 0 ==> places[|b| - 1] < |a|;
      assert b == a[..|b|];
      PrefixChained(c, a, |b|);
    } else {
      var i := FirstGap(places);
      assert places[i] > i by { if i > 0 { assert places[i - 1] < places[i]; } }
      assert b[..i] == a[..i];
      OutOfPlace(c, a, b, i, places[i]);
    }
  }

  lemma {:induction false} FirstGap(places: seq<nat>) returns (i: nat)
    requires exists k :: 0 <= k < |places| && places[k] != k
    ensures i < |places| && places[i] != i && forall k :: 0 <= k < i ==> places[k] == k
    decreases |places|
  {
    var n := |places| - 1;
    if exists k :: 0 <= k < n && places[k] != k {
      var k :| 0 <= k < n && places[k] != k;
      assert places[..n][k] != k;
      i := FirstGap(places[..n]);
      assert forall k :: 0 <= k < n ==> places[..n][k] == places[k];
    } else {
      i := n;
    }
  }

  /** Exchanging two lines breaks at the first of them; taking out one line breaks where it was,
      unless it was the last; moving a line to the front breaks at the front. */
  lemma SingleMoves(c: Codec, a: seq<string>, i: nat, j: nat)
    requires Chained(c, a) && i < j < |a|
    ensures BreaksAt(c, a[i := a[j]][j := a[i]], ChainBreak(i + 1, Some(j), WrongSequence(j, i)))
    ensures BreaksAt(c, a[..i] + a[i + 1..], ChainBreak(i + 1, Some(i + 1), WrongSequence(i + 1, i)))
    ensures BreaksAt(c, [a[j]] + a[..j] + a[j + 1..], ChainBreak(1, Some(j), WrongSequence(j, 0)))
  {
    var swapped, shorter, rotated := a[i := a[j]][j := a[i]], a[..i] + a[i + 1..], [a[j]] + a[..j] + a[j + 1..];
    assert swapped[..i] == a[..i] && shorter[..i] == a[..i] && rotated[..0] == a[..0];
    assert shorter[i] == a[i + 1] && swapped[i] == a[j] && rotated[0] == a[j];
    OutOfPlace(c, a, swapped, i, j);
    OutOfPlace(c, a, shorter, i, i + 1);
    OutOfPlace(c, a, rotated, 0, j);
  }
}
