/** The append-only, hash-chained log. A line is what parsing it gives; parsing a printed entry gives
    that entry back. */
module TransparencyLog {
  import opened Wrappers
  import opened Octets
  import opened Text
  import Hex

  datatype TransparencyEvent =
    | Boot(operator: Text, bindAddr: Text, shareLoaded: bool, keysetId: Option<Text>, bootEpoch: Option<u64>)
    | DkgStart(ceremonyId: Text, myIndex: u16, n: u16, t: u16)
    | DkgFinalize(ceremonyId: Text, myIndex: u16, jointPk: Text, qual: seq<u16>)
    | ReshareStart(ceremonyId: Text, myIndex: u16, n: u16, t: u16)
    | ReshareFinalize(ceremonyId: Text, myIndex: u16, newEpoch: u64)
    | SignSessionStart(sessionId: Text, myIndex: u16)
    | RefreshSessionStart(sessionId: Text, myIndex: u16, kappa: u8)
    | ShareReload(reloadedKeysetId: Text, epoch: u64)

  /** Milliseconds since the epoch, 128 bits. */
  type Millis = Bytes16

  /** Identifiers are hexadecimal text. */
  datatype LogEntry = LogEntry(eventId: Text, prevEventId: Text, ts: Millis, event: TransparencyEvent)

  datatype LogLine = Blank | Unparsable | Line(entry: LogEntry)

  /** The event's text inside a line, and the hash that chains entries. */
  const EVENT_JSON: TransparencyEvent -> Text
  const HASH: seq<u8> -> Bytes32

  function GenesisId(): Text { seq(64, i => '0' as int) }

  /** Text that is not hexadecimal counts as no octets. */
  function DecodedId(id: Text): seq<u8> {
    match Hex.DecodeHex(id)
    case Some(b) => b
    case None => []
  }

  function Preimage(prev: Text, ts: Millis, event: TransparencyEvent): seq<u8> {
    DecodedId(prev) + (Le(16, ts) + EVENT_JSON(event))
  }

  function EventId(prev: Text, ts: Millis, event: TransparencyEvent): Text {
    Hex.EncodeHex(Le(32, HASH(Preimage(prev, ts, event))))
  }

  // ---------------------------------------------------------------- the logger

  /** Identifier of the last line that parses. */
  function LastId(lines: seq<LogLine>): Text {
    if lines == [] then GenesisId() else
      match lines[|lines| - 1]
      case Line(entry) => entry.eventId
      case _ => LastId(lines[..|lines| - 1])
  }

  function NewEntry(prev: Text, ts: Millis, event: TransparencyEvent): LogEntry {
    LogEntry(EventId(prev, ts, event), prev, ts, event)
  }

  class LogFile {
    var lines: seq<LogLine>

    constructor ()
      ensures lines == []
    {
      lines := [];
    }
  }

  class TransparencyLogger {
    const file: LogFile
    var lastEventId: Text

    /** Opens a file and scans it for the last entry; lines that do not parse are passed over. */
    constructor (file: LogFile)
      ensures this.file == file && lastEventId == LastId(file.lines)
    {
      var last := GenesisId();
      for j := 0 to |file.lines|
        invariant last == LastId(file.lines[..j])
      {
        assert file.lines[..j + 1][..j] == file.lines[..j];
        match file.lines[j] {
          case Line(entry) => last := entry.eventId;
          case _ =>
        }
      }
      assert file.lines[..|file.lines|] == file.lines;
      this.file := file;
      lastEventId := last;
    }

    method Append(event: TransparencyEvent, now: Millis) returns (id: Text)
      modifies this, file
      ensures file.lines == old(file.lines) + [Line(NewEntry(old(lastEventId), now, event))]
      ensures id == lastEventId == EventId(old(lastEventId), now, event)
    {
      id := EventId(lastEventId, now, event);
      file.lines := file.lines + [Line(LogEntry(id, lastEventId, now, event))];
      lastEventId := id;
    }
  }

  // ---------------------------------------------------------------- verification

  /** How far verification got: the identifier the next entry must name and the entries so far; or
      the index of the first bad entry. */
  datatype Progress = Intact(expected: Text, count: nat) | Broken(index: nat)

  function CheckLine(p: Progress, line: LogLine): Progress {
    if p.Broken? then p else
      match line
      case Blank => p
      case Unparsable => Broken(p.count)
      case Line(entry) =>
        if entry.prevEventId != p.expected then Broken(p.count)
        else if EventId(entry.prevEventId, entry.ts, entry.event) != entry.eventId then Broken(p.count)
        else Intact(entry.eventId, p.count + 1)
  }

  function CheckLines(lines: seq<LogLine>): Progress {
    if lines == [] then Intact(GenesisId(), 0)
    else CheckLine(CheckLines(lines[..|lines| - 1]), lines[|lines| - 1])
  }

  lemma {:induction false} BrokenStays(lines: seq<LogLine>, j: nat)
    requires j <= |lines| && CheckLines(lines[..j]).Broken?
    ensures CheckLines(lines) == CheckLines(lines[..j])
    decreases |lines|
  {
    if j == |lines| {
      assert lines[..j] == lines;
    } else {
      assert lines[..|lines| - 1][..j] == lines[..j];
      BrokenStays(lines[..|lines| - 1], j);
    }
  }

  method VerifyChain(lines: seq<LogLine>) returns (p: Progress)
    ensures p == CheckLines(lines)
  {
    hide EventId;
    var expectedPrev, count := GenesisId(), 0;
    for j := 0 to |lines|
      invariant CheckLines(lines[..j]) == Intact(expectedPrev, count)
    {
      assert lines[..j + 1][..j] == lines[..j];
      if CheckLines(lines[..j + 1]).Broken? {
        BrokenStays(lines, j + 1);
      }
      match lines[j] {
        case Blank =>
        case Unparsable => return Broken(count);
        case Line(entry) =>
          if entry.prevEventId != expectedPrev {
            return Broken(count);
          }
          var recomputed := EventId(entry.prevEventId, entry.ts, entry.event);
          if recomputed != entry.eventId {
            return Broken(count);
          }
          expectedPrev := entry.eventId;
          count := count + 1;
      }
    }
    assert lines[..|lines|] == lines;
    p := Intact(expectedPrev, count);
  }

  function Entries(lines: seq<LogLine>): seq<LogEntry> {
    if lines == [] then [] else
      match lines[|lines| - 1]
      case Line(entry) => Entries(lines[..|lines| - 1]) + [entry]
      case _ => Entries(lines[..|lines| - 1])
  }

  /** A verified file counts all its entries and expects its last identifier next. */
  lemma {:induction false} IntactMeans(lines: seq<LogLine>)
    ensures CheckLines(lines).Intact? ==> CheckLines(lines) == Intact(LastId(lines), |Entries(lines)|)
  {
    hide EventId, GenesisId;
    if lines != [] {
      IntactMeans(lines[..|lines| - 1]);
    }
  }

  /** An append keeps a verified file verified iff the logger's identifier is still the file's last:
      that is, iff no other writer appended in between. */
  lemma {:induction false} AppendKeepsIff(
      lines: seq<LogLine>, last: Text, ts: Millis, event: TransparencyEvent)
    requires CheckLines(lines).Intact?
    ensures CheckLines(lines + [Line(NewEntry(last, ts, event))]).Intact? <==> last == LastId(lines)
  {
    hide EventId, GenesisId;
    IntactMeans(lines);
    assert (lines + [Line(NewEntry(last, ts, event))])[..|lines|] == lines;
  }

  // ---------------------------------------------------------------- runs

  datatype Step = Open | Append(ts: Millis, event: TransparencyEvent)

  /** The file and the identifier that the current logger holds, if one is open. */
  datatype Log = Log(lines: seq<LogLine>, logger: Option<Text>)

  function Next(log: Log, step: Step): Log {
    match step
    case Open => log.(logger := Some(LastId(log.lines)))
    case Append(ts, event) =>
      if log.logger.None? then log else
        var entry := NewEntry(log.logger.value, ts, event);
        Log(log.lines + [Line(entry)], Some(entry.eventId))
  }

  function Run(steps: seq<Step>): Log {
    if steps == [] then Log([], None) else Next(Run(steps[..|steps| - 1]), steps[|steps| - 1])
  }

  /** Appends that reached the file. */
  function Appends(steps: seq<Step>): nat {
    if steps == [] then 0 else
      var before := steps[..|steps| - 1];
      Appends(before) + (if steps[|steps| - 1].Append? && Run(before).logger.Some? then 1 else 0)
  }

  lemma NextVerifies(log: Log, step: Step)
    requires CheckLines(log.lines).Intact? && (log.logger.Some? ==> log.logger.value == LastId(log.lines))
    ensures var after := Next(log, step);
            && CheckLines(after.lines).Intact?
            && (after.logger.Some? ==> after.logger.value == LastId(after.lines))
            && |Entries(after.lines)| == |Entries(log.lines)| + (if step.Append? && log.logger.Some? then 1 else 0)
  {
    hide EventId, GenesisId, CheckLines;
    match step
    case Open =>
    case Append(ts, event) =>
      if log.logger.Some? {
        AppendKeepsIff(log.lines, log.logger.value, ts, event);
        assert Next(log, step).lines[..|log.lines|] == log.lines;
      }
  }

  lemma EmptyRun(steps: seq<Step>)
    requires steps == []
    ensures Run(steps) == Log([], None) && Appends(steps) == 0
    ensures CheckLines([]).Intact? && Entries([]) == []
  {
  }

  lemma {:induction false} RunInvariant(steps: seq<Step>)
    ensures CheckLines(Run(steps).lines).Intact?
    ensures Run(steps).logger.Some? ==> Run(steps).logger.value == LastId(Run(steps).lines)
    ensures |Entries(Run(steps).lines)| == Appends(steps)
  {
    if steps == [] {
      EmptyRun(steps);
    } else {
      RunInvariant(steps[..|steps| - 1]);
      hide CheckLines, Entries, LastId, Next;
      NextVerifies(Run(steps[..|steps| - 1]), steps[|steps| - 1]);
    }
  }

  /** Any sequence of opening, reopening and appending from an empty file leaves one that verifies
      with exactly as many entries as were appended. */
  lemma {:induction false} RunVerifies(steps: seq<Step>)
    ensures CheckLines(Run(steps).lines) == Intact(LastId(Run(steps).lines), Appends(steps))
  {
    hide *;
    RunInvariant(steps);
    IntactMeans(Run(steps).lines);
  }

  /** What was appended while a logger was open, in order. */
  function Appended(steps: seq<Step>): seq<(Millis, TransparencyEvent)> {
    if steps == [] then [] else
      var before, step := steps[..|steps| - 1], steps[|steps| - 1];
      if step.Append? && Run(before).logger.Some? then Appended(before) + [(step.ts, step.event)]
      else Appended(before)
  }

  function Contents(entries: seq<LogEntry>): seq<(Millis, TransparencyEvent)> {
    seq(|entries|, j requires 0 <= j < |entries| => (entries[j].ts, entries[j].event))
  }

  lemma NextRecords(log: Log, step: Step)
    ensures Contents(Entries(Next(log, step).lines)) ==
            if step.Append? && log.logger.Some? then Contents(Entries(log.lines)) + [(step.ts, step.event)]
            else Contents(Entries(log.lines))
  {
    hide EventId, LastId;
    if step.Append? && log.logger.Some? {
      assert Next(log, step).lines[..|log.lines|] == log.lines;
    }
  }

  /** The file holds exactly what was appended, with the times and in the order it was. */
  lemma {:induction false} RunRecords(steps: seq<Step>)
    ensures Contents(Entries(Run(steps).lines)) == Appended(steps)
  {
    if steps == [] {
      EmptyRun(steps);
    } else {
      RunRecords(steps[..|steps| - 1]);
      hide Entries, Next, Contents;
      NextRecords(Run(steps[..|steps| - 1]), steps[|steps| - 1]);
    }
  }

  // ---------------------------------------------------------------- tamper evidence

  ghost predicate Chained(entries: seq<LogEntry>) {
    entries != [] ==>
      var before, e := entries[..|entries| - 1], entries[|entries| - 1];
      && Chained(before)
      && e.prevEventId == Tip(before) && e.eventId == EventId(e.prevEventId, e.ts, e.event)
  }

  function Tip(entries: seq<LogEntry>): Text {
    if entries == [] then GenesisId() else entries[|entries| - 1].eventId
  }

  lemma {:induction false} IntactChained(lines: seq<LogLine>)
    requires CheckLines(lines).Intact?
    ensures Chained(Entries(lines)) && Tip(Entries(lines)) == LastId(lines)
  {
    hide EventId, GenesisId;
    if lines != [] {
      var rest := lines[..|lines| - 1];
      IntactMeans(rest);
      IntactChained(rest);
    }
  }

  lemma NoneChained()
    ensures CheckLines([]) == Intact(Tip([]), 0) && Entries([]) == [] && Chained([])
  {
  }

  /** One more line on top of a file that verifies. */
  lemma LineMeans(lines: seq<LogLine>, line: LogLine)
    requires CheckLines(lines) == Intact(Tip(Entries(lines)), |Entries(lines)|) && Chained(Entries(lines))
    ensures Entries(lines + [line]) == if line.Line? then Entries(lines) + [line.entry] else Entries(lines)
    ensures var fits := line.Blank? || (line.Line? && Chained(Entries(lines) + [line.entry]));
            CheckLines(lines + [line]) ==
            if fits then Intact(Tip(Entries(lines + [line])), |Entries(lines + [line])|) else Broken(|Entries(lines)|)
  {
    hide EventId, GenesisId;
    assert (lines + [line])[..|lines|] == lines;
    if line.Line? {
      assert (Entries(lines) + [line.entry])[..|Entries(lines)|] == Entries(lines);
    }
  }

  lemma BrokenNext(lines: seq<LogLine>, line: LogLine)
    requires CheckLines(lines).Broken?
    ensures CheckLines(lines + [line]) == CheckLines(lines)
  {
    assert (lines + [line])[..|lines|] == lines;
  }

  /** Verification, exactly: a file passes iff every line is blank or an entry and the entries are chained. */
  lemma {:induction false} VerifiedIff(lines: seq<LogLine>)
    ensures CheckLines(lines).Intact? <==> Unparsable !in lines && Chained(Entries(lines))
    ensures CheckLines(lines).Intact? ==> CheckLines(lines) == Intact(Tip(Entries(lines)), |Entries(lines)|)
  {
    hide *;
    if lines == [] {
      NoneChained();
    } else {
      var before, line := lines[..|lines| - 1], lines[|lines| - 1];
      assert lines == before + [line];
      VerifiedIff(before);
      if CheckLines(before).Intact? {
        LineMeans(before, line);
      } else {
        BrokenNext(before, line);
        UnchainedStays(before, line);
      }
    }
  }

  lemma UnchainedStays(lines: seq<LogLine>, line: LogLine)
    ensures Unparsable in lines ==> Unparsable in lines + [line]
    ensures !Chained(Entries(lines)) ==> !Chained(Entries(lines + [line]))
  {
    hide EventId, GenesisId;
    assert (lines + [line])[..|lines|] == lines;
    if line.Line? {
      assert (Entries(lines) + [line.entry])[..|Entries(lines)|] == Entries(lines);
    }
  }

  /** The reported index is that of the first bad line: what stands before it verifies with that many entries, and
      the line is neither blank nor an entry that continues the chain. */
  lemma {:induction false} FirstBad(lines: seq<LogLine>) returns (k: nat)
    requires CheckLines(lines).Broken?
    ensures k < |lines| && CheckLines(lines[..k]).Intact? && CheckLines(lines) == Broken(|Entries(lines[..k])|)
    ensures lines[k] != Blank
    ensures lines[k].Line? ==> !Chained(Entries(lines[..k]) + [lines[k].entry])
  {
    hide *;
    if lines == [] {
      k := 0;
      NoneChained();
    } else {
      var before, line := lines[..|lines| - 1], lines[|lines| - 1];
      assert lines == before + [line];
      if CheckLines(before).Broken? {
        k := FirstBad(before);
        BrokenNext(before, line);
        assert before[..k] == lines[..k];
      } else {
        k := |lines| - 1;
        VerifiedIff(before);
        LineMeans(before, line);
      }
    }
  }

  /** Opening a file finds the identifier of its last entry, whatever other lines it has. */
  lemma {:induction false} LastIsTip(lines: seq<LogLine>)
    ensures LastId(lines) == Tip(Entries(lines))
  {
    hide GenesisId;
    if lines != [] {
      LastIsTip(lines[..|lines| - 1]);
    }
  }

  /** No two of the listed entries hash to the same value from different preimages. */
  ghost predicate NoCollision(a: seq<LogEntry>, b: seq<LogEntry>) {
    forall i, j :: 0 <= i < |a| && 0 <= j < |b| ==>
      var p, q := Preimage(a[i].prevEventId, a[i].ts, a[i].event), Preimage(b[j].prevEventId, b[j].ts, b[j].event);
      HASH(p) == HASH(q) ==> p == q
  }

  ghost predicate InjectiveJson() {
    forall e, f :: EVENT_JSON(e) == EVENT_JSON(f) ==> e == f
  }

  lemma GenesisDecodes()
    ensures Hex.DecodeHex(GenesisId()) == Some(seq(32, i => 0))
  {
    ZeroText(32);
    assert GenesisId() == Hex.EncodeHex(seq(32, i => 0));
    Hex.DecodeEncodeHex(seq(32, i => 0));
  }

  lemma {:induction false} ZeroText(n: nat)
    ensures Hex.EncodeHex(seq(n, i => 0)) == seq(2 * n, i => '0' as int)
  {
    if n > 0 {
      ZeroText(n - 1);
      assert seq<u8>(n, i => 0)[1..] == seq<u8>(n - 1, i => 0);
      var z: u8 := '0' as int;
      assert seq<u8>(2 * n, i => '0' as int) == [z, z] + seq<u8>(2 * n - 2, i => '0' as int);
    }
  }

  /** Identifiers in a chain are the printed form of 32 octets. */
  lemma TipDecodes(entries: seq<LogEntry>)
    requires Chained(entries)
    ensures Hex.DecodeHex(Tip(entries)).Some? && |DecodedId(Tip(entries))| == 32
    ensures Tip(entries) == Hex.EncodeHex(DecodedId(Tip(entries)))
  {
    hide Hex.DecodeHex, Hex.EncodeHex, Le;
    if entries == [] {
      GenesisDecodes();
      ZeroText(32);
      assert GenesisId() == Hex.EncodeHex(seq(32, i => 0));
    } else {
      var e := entries[|entries| - 1];
      Hex.DecodeEncodeHex(Le(32, HASH(Preimage(e.prevEventId, e.ts, e.event))));
    }
  }

  lemma IdDeterminesHash(p: seq<u8>, q: seq<u8>)
    requires Hex.EncodeHex(Le(32, HASH(p))) == Hex.EncodeHex(Le(32, HASH(q)))
    ensures HASH(p) == HASH(q)
  {
    hide Hex.DecodeHex, Hex.EncodeHex, Le, Pow256;
    Hex.DecodeEncodeHex(Le(32, HASH(p)));
    Hex.DecodeEncodeHex(Le(32, HASH(q)));
    Widths();
    LeInjective(32, HASH(p), HASH(q));
  }

  lemma PreimageParts(a: seq<u8>, ts: Millis, x: Text, b: seq<u8>, us: Millis, y: Text)
    requires |a| == |b| && a + (Le(16, ts) + x) == b + (Le(16, us) + y)
    ensures a == b && ts == us && x == y
  {
    hide Le, Pow256;
    var p, q := a + (Le(16, ts) + x), b + (Le(16, us) + y);
    assert a == p[..|a|] && b == q[..|a|];
    assert Le(16, ts) == p[|a|..][..16] && Le(16, us) == q[|a|..][..16];
    assert x == p[|a|..][16..] && y == q[|a|..][16..];
    Widths();
    LeInjective(16, ts, us);
  }

  lemma CollisionPrefix(a: seq<LogEntry>, b: seq<LogEntry>)
    requires a != [] && b != [] && NoCollision(a, b)
    ensures NoCollision(a[..|a| - 1], b[..|b| - 1])
    ensures var e, f := a[|a| - 1], b[|b| - 1];
            var p, q := Preimage(e.prevEventId, e.ts, e.event), Preimage(f.prevEventId, f.ts, f.event);
            HASH(p) == HASH(q) ==> p == q
  {
    hide Preimage;
  }

  /** Equal identifiers of chained entries mean equal entries, short of a collision. */
  lemma EntryDetermined(e: LogEntry, f: LogEntry)
    requires e.eventId == f.eventId
    requires e.eventId == EventId(e.prevEventId, e.ts, e.event) && f.eventId == EventId(f.prevEventId, f.ts, f.event)
    requires |DecodedId(e.prevEventId)| == |DecodedId(f.prevEventId)|
    requires e.prevEventId == Hex.EncodeHex(DecodedId(e.prevEventId))
    requires f.prevEventId == Hex.EncodeHex(DecodedId(f.prevEventId))
    requires var p, q := Preimage(e.prevEventId, e.ts, e.event), Preimage(f.prevEventId, f.ts, f.event);
             HASH(p) == HASH(q) ==> p == q
    requires InjectiveJson()
    ensures e == f
  {
    hide Hex.DecodeHex, Hex.EncodeHex, Le, DecodedId;
    IdDeterminesHash(Preimage(e.prevEventId, e.ts, e.event), Preimage(f.prevEventId, f.ts, f.event));
    PreimageParts(DecodedId(e.prevEventId), e.ts, EVENT_JSON(e.event),
                  DecodedId(f.prevEventId), f.ts, EVENT_JSON(f.event));
  }

  lemma ChainedLast(entries: seq<LogEntry>)
    requires Chained(entries) && entries != []
    ensures var before, e := entries[..|entries| - 1], entries[|entries| - 1];
            && Chained(before) && Tip(entries) == e.eventId
            && e.prevEventId == Tip(before) && e.eventId == EventId(e.prevEventId, e.ts, e.event)
  {
    hide EventId;
  }

  /** The last identifier and the number of entries determine a chain, short of a hash collision. */
  lemma {:induction false} ChainDetermined(a: seq<LogEntry>, b: seq<LogEntry>)
    requires Chained(a) && Chained(b) && |a| == |b| && Tip(a) == Tip(b)
    requires NoCollision(a, b) && InjectiveJson()
    ensures a == b
    decreases |a|
  {
    hide *;
    if a != [] {
      var a', b' := a[..|a| - 1], b[..|b| - 1];
      CollisionPrefix(a, b);
      ChainedLast(a);
      ChainedLast(b);
      TipDecodes(a');
      TipDecodes(b');
      EntryDetermined(a[|a| - 1], b[|b| - 1]);
      ChainDetermined(a', b');
      assert a == a' + [a[|a| - 1]] && b == b' + [b[|b| - 1]];
    }
  }

  /** Two verified logs with the same number of entries and the same last identifier hold the same
      entries, unless two of their entries exhibit a hash collision. */
  lemma {:induction false} VerifiedLogsAgree(a: seq<LogLine>, b: seq<LogLine>)
    requires CheckLines(a).Intact? && CheckLines(a) == CheckLines(b)
    requires NoCollision(Entries(a), Entries(b)) && InjectiveJson()
    ensures Entries(a) == Entries(b)
  {
    hide *;
    IntactMeans(a);
    IntactMeans(b);
    IntactChained(a);
    IntactChained(b);
    ChainDetermined(Entries(a), Entries(b));
  }
}
