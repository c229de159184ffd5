/**
 Reading the event log without following it (`internal/events/events.go`): the
 files are streamed oldest first, record by record, through a query filter.
 */
module EventStream {
  import opened Wrappers
  import opened EventCodec
  import opened EventLog
  import opened EventLogSafety

  /** An absent bound leaves that side open; no types select every type. */
  datatype Query = Query(containerPrefix: string, types: seq<string>, since: Option<int>, until: Option<int>)

  datatype StreamError = Malformed | RecordTooLong

  datatype Streamed = Streamed(emitted: seq<Event>, error: Option<StreamError>)

  predicate Matches(e: Event, q: Query) {
    && q.containerPrefix <= e.containerID
    && (q.since.Some? ==> q.since.value <= e.timestamp)
    && (q.until.Some? ==> e.timestamp <= q.until.value)
    && (q.types == [] || e.kind in q.types)
  }

  function Selected(e: Event, q: Query): seq<Event> {
    if Matches(e, q) then [e] else []
  }

  /** One stream after another, unless the first one failed. */
  function Then(first: Streamed, second: Streamed): Streamed {
    if first.error.Some? then first
    else Streamed(first.emitted + second.emitted, second.error)
  }

  function StreamTail(c: Codec, q: Query, rest: Bytes): Streamed {
    if rest == "" then Streamed([], None)
    else
      match c.decode(rest)
      case Some(e) => Streamed(Selected(e, q), None)
      case None => Streamed([], if c.valid(rest) then Some(Malformed) else None)
  }

  function StreamLine(c: Codec, q: Query, line: Bytes): Streamed {
    match c.decode(line)
    case Some(e) => Streamed(Selected(e, q), None)
    case None => Streamed([], Some(Malformed))
  }

  /** One file: an incomplete last record is passed over, a complete bad one is not. */
  function Stream(c: Codec, q: Query, data: Bytes): Streamed
    decreases |data|
  {
    match ReadRecord(data)
    case TooLarge => Streamed([], Some(RecordTooLong))
    case AtEof(rest) => StreamTail(c, q, rest)
    case Line(line, rest) => Then(StreamLine(c, q, line), Stream(c, q, rest))
  }

  function StreamFiles(c: Codec, q: Query, files: seq<Bytes>): Streamed
    decreases |files|
  {
    if files == [] then Streamed([], None)
    else Then(Stream(c, q, files[0]), StreamFiles(c, q, files[1..]))
  }

  function Files(log: Log): seq<Bytes> {
    seq(|Present(log)|, i requires 0 <= i < |Present(log)| => Present(log)[i].data)
  }

  // ---------- The program ----------

  method EventMatchesQuery(e: Event, q: Query) returns (r: bool)
    ensures r == Matches(e, q)
  {
    if !(q.containerPrefix <= e.containerID) {
      return false;
    }
    if q.since.Some? && e.timestamp < q.since.value {
      return false;
    }
    if q.until.Some? && e.timestamp > q.until.value {
      return false;
    }
    if |q.types| == 0 {
      return true;
    }
    for i := 0 to |q.types|
      invariant forall j | 0 <= j < i :: q.types[j] != e.kind
    {
      if e.kind == q.types[i] {
        return true;
      }
    }
    return false;
  }

  /** Decodes one record of the loop below; only an incomplete one at the end is forgiven. */
  method StreamRecord(c: Codec, q: Query, line: Bytes, atEof: bool)
    returns (emitted: seq<Event>, error: Option<StreamError>)
    requires line != ""
    ensures Streamed(emitted, error) == if atEof then StreamTail(c, q, line) else StreamLine(c, q, line)
  {
    match c.decode(line)
    case None =>
      return [], if !atEof || c.valid(line) then Some(Malformed) else None;
    case Some(e) =>
      var matches := EventMatchesQuery(e, q);
      return if matches then [e] else [], None;
  }

  method StreamEventLog(c: Codec, q: Query, data: Bytes) returns (emitted: seq<Event>, error: Option<StreamError>)
    ensures Streamed(emitted, error) == Stream(c, q, data)
  {
    emitted := [];
    var unread := data;
    while ReadRecord(unread).Line?
      invariant Stream(c, q, data) == Then(Streamed(emitted, None), Stream(c, q, unread))
      decreases |unread|
    {
      var line, rest := ReadRecord(unread).line, ReadRecord(unread).rest;
      var more, failure := StreamRecord(c, q, line, false);
      ThenAssoc(Streamed(emitted, None), Streamed(more, failure), Stream(c, q, rest));
      emitted := emitted + more;
      if failure.Some? {
        return emitted, failure;
      }
      unread := rest;
    }
    if ReadRecord(unread).TooLarge? {
      return emitted, Some(RecordTooLong);
    }
    if unread == "" {
      return emitted, None;
    }
    var more, failure := StreamRecord(c, q, unread, true);
    return emitted + more, failure;
  }

  method StreamHistoricalEventLogs(c: Codec, q: Query, files: seq<Bytes>)
    returns (emitted: seq<Event>, error: Option<StreamError>)
    ensures Streamed(emitted, error) == StreamFiles(c, q, files)
  {
    emitted := [];
    for i := 0 to |files|
      invariant StreamFiles(c, q, files) == Then(Streamed(emitted, None), StreamFiles(c, q, files[i..]))
    {
      var more, failure := StreamEventLog(c, q, files[i]);
      ThenAssoc(Streamed(emitted, None), Streamed(more, failure), StreamFiles(c, q, files[i + 1..]));
      assert files[i..][1..] == files[i + 1..];
      emitted := emitted + more;
      if failure.Some? {
        return emitted, failure;
      }
    }
    return emitted, None;
  }

  lemma ThenAssoc(a: Streamed, b: Streamed, d: Streamed)
    ensures Then(Then(a, b), d) == Then(a, Then(b, d))
    ensures Then(Streamed([], None), a) == a
  {
    if a.error.None? && b.error.None? {
      assert (a.emitted + b.emitted) + d.emitted == a.emitted + (b.emitted + d.emitted);
    }
  }

  // ---------- Streaming a file with a torn end ----------

  ghost predicate EndsWhole(data: Bytes) {
    data == "" || data[|data| - 1] == '\n'
  }

  /** A file is streamed line by line up to its last newline, then its tail. */
  lemma {:induction false} StreamSplit(c: Codec, q: Query, whole: Bytes, tail: Bytes)
    requires EndsWhole(whole)
    ensures Stream(c, q, whole + tail) == Then(Stream(c, q, whole), Stream(c, q, tail))
    decreases |whole|
  {
    if whole == "" {
      assert whole + tail == tail;
      ThenAssoc(Stream(c, q, tail), Stream(c, q, tail), Stream(c, q, tail));
    } else {
      ReadSplit(whole, tail);
      match ReadRecord(whole)
      case TooLarge =>
      case Line(line, rest) =>
        StreamSplit(c, q, rest, tail);
        ThenAssoc(StreamLine(c, q, line), Stream(c, q, rest), Stream(c, q, tail));
    }
  }

  lemma ReadSplit(whole: Bytes, tail: Bytes)
    requires whole != "" && EndsWhole(whole)
    ensures !ReadRecord(whole).AtEof?
    ensures ReadRecord(whole).TooLarge? ==> ReadRecord(whole + tail).TooLarge?
    ensures ReadRecord(whole).Line? ==>
              && EndsWhole(ReadRecord(whole).rest)
              && ReadRecord(whole + tail) == Line(ReadRecord(whole).line, ReadRecord(whole).rest + tail)
  {
    NoneBefore(whole, 0);
    var i := FirstNewline(whole);
    var data := whole + tail;
    assert forall k :: 0 <= k < |whole| ==> data[k] == whole[k];
    assert i < |whole|;
    FirstNewlineIs(data, i);
    assert data[..i + 1] == whole[..i + 1];
    assert data[i + 1..] == whole[i + 1..] + tail;
  }

  /** How a repairable file with an unterminated end divides. */
  lemma RepairDivides(c: Codec, data: Bytes) returns (whole: Bytes, tail: Bytes)
    requires !EndsWhole(data) && Repaired(c, data).Ok?
    ensures data == whole + tail && EndsWhole(whole) && '\n' !in tail && tail != ""
    ensures |tail| <= MAX_EVENT_RECORD_BYTES || (whole == "" && |tail| == MAX_EVENT_RECORD_BYTES + 1)
    ensures Repaired(c, data) == Ok(if c.valid(tail) then data + "\n" else whole)
    ensures c.valid(tail) ==> c.decode(tail).Some?
  {
    var start := TailStart(data).value;
    whole, tail := data[..start], data[start..];
    TailHasNoNewline(data);
  }

  lemma TailHasNoNewline(data: Bytes)
    requires TailStart(data).Ok?
    ensures '\n' !in data[TailStart(data).value..]
    ensures |data| - TailStart(data).value <= MAX_EVENT_RECORD_BYTES
            || (TailStart(data).value == 0 && |data| == MAX_EVENT_RECORD_BYTES + 1)
  {
    var from := if |data| < MAX_EVENT_RECORD_BYTES + 1 then 0 else |data| - (MAX_EVENT_RECORD_BYTES + 1);
    NoneAfter(data, from, |data|);
  }

  lemma StreamTerminated(c: Codec, q: Query, tail: Bytes)
    requires Lawful(c) && '\n' !in tail && tail != "" && c.decode(tail).Some?
    ensures Stream(c, q, tail + "\n") == Stream(c, q, tail)
  {
    FirstNewlineIs(tail, |tail|);
    var data := tail + "\n";
    assert forall k :: 0 <= k < |tail| ==> data[k] == tail[k];
    assert data[|tail|] == '\n';
    FirstNewlineIs(data, |tail|);
    if |tail| <= MAX_EVENT_RECORD_BYTES {
      assert data[..|tail| + 1] == data && data[|tail| + 1..] == "";
      assert Stream(c, q, "") == Streamed([], None);
    }
  }

  /**
   Repairing a file, any file, does not change what is read from it: except one
   of exactly one byte more than a record may hold, with no newline and incomplete.
   */
  lemma StreamIgnoresRepair(c: Codec, q: Query, data: Bytes)
    requires Lawful(c) && Repaired(c, data).Ok?
    ensures Stream(c, q, Repaired(c, data).value) == Stream(c, q, data)
            <==> !(|data| == MAX_EVENT_RECORD_BYTES + 1 && '\n' !in data && !c.valid(data))
  {
    if EndsWhole(data) {
      assert Repaired(c, data) == Ok(data);
    } else {
      var whole, tail := RepairDivides(c, data);
      WholeIsTail(data, whole, tail);
      if c.valid(tail) {
        SalvagedReadsSame(c, q, whole, tail);
      } else {
        TruncatedReadsSame(c, q, whole, tail);
      }
    }
  }

  lemma SalvagedReadsSame(c: Codec, q: Query, whole: Bytes, tail: Bytes)
    requires Lawful(c) && EndsWhole(whole) && '\n' !in tail && tail != "" && c.decode(tail).Some?
    ensures Stream(c, q, whole + tail + "\n") == Stream(c, q, whole + tail)
  {
    StreamSplit(c, q, whole, tail);
    StreamTerminated(c, q, tail);
    assert whole + (tail + "\n") == whole + tail + "\n";
    StreamSplit(c, q, whole, tail + "\n");
  }

  lemma TruncatedReadsSame(c: Codec, q: Query, whole: Bytes, tail: Bytes)
    requires Lawful(c) && EndsWhole(whole) && '\n' !in tail && tail != "" && !c.valid(tail)
    requires |tail| <= MAX_EVENT_RECORD_BYTES || whole == ""
    ensures Stream(c, q, whole) == Stream(c, q, whole + tail) <==> |tail| <= MAX_EVENT_RECORD_BYTES
  {
    StreamSplit(c, q, whole, tail);
    TailReadings(c, q, tail);
    ThenNothing(Stream(c, q, whole));
    assert Stream(c, q, "") == Streamed([], None);
  }

  lemma TailReadings(c: Codec, q: Query, tail: Bytes)
    requires Lawful(c) && '\n' !in tail && tail != ""
    ensures |tail| > MAX_EVENT_RECORD_BYTES ==> Stream(c, q, tail) == Streamed([], Some(RecordTooLong))
    ensures |tail| <= MAX_EVENT_RECORD_BYTES && !c.valid(tail) ==> Stream(c, q, tail) == Streamed([], None)
  {
    FirstNewlineIs(tail, |tail|);
  }

  lemma ThenNothing(s: Streamed)
    ensures Then(s, Streamed([], None)) == s
  {
    assert s.emitted + [] == s.emitted;
  }

  lemma WholeIsTail(data: Bytes, whole: Bytes, tail: Bytes)
    requires data == whole + tail && EndsWhole(whole) && '\n' !in tail
    ensures whole == "" ==> data == tail
    ensures '\n' !in data ==> whole == ""
  {
    if whole != "" {
      assert data[|whole| - 1] == '\n';
    }
  }

  // ---------- Streaming a log that any history produced ----------

  /** The reference: the committed records decoded and filtered, up to one that does not read back. */
  function StreamRecords(c: Codec, q: Query, records: seq<Bytes>): Streamed
    decreases |records|
  {
    if records == [] then Streamed([], None)
    else Then(StreamLine(c, q, records[0]), StreamRecords(c, q, records[1..]))
  }

  lemma {:induction false} StreamRecordsConcat(c: Codec, q: Query, a: seq<Bytes>, b: seq<Bytes>)
    ensures StreamRecords(c, q, a + b) == Then(StreamRecords(c, q, a), StreamRecords(c, q, b))
    decreases |a|
  {
    if a == [] {
      assert a + b == b;
      ThenAssoc(StreamRecords(c, q, b), StreamRecords(c, q, b), StreamRecords(c, q, b));
    } else {
      assert (a + b)[1..] == a[1..] + b;
      StreamRecordsConcat(c, q, a[1..], b);
      ThenAssoc(StreamLine(c, q, a[0]), StreamRecords(c, q, a[1..]), StreamRecords(c, q, b));
    }
  }

  lemma {:induction false} StreamLines(c: Codec, q: Query, records: seq<Bytes>)
    requires Lawful(c) && forall r | r in records :: IsRecord(c, r)
    ensures Stream(c, q, Lines(records)) == StreamRecords(c, q, records)
    decreases |records|
  {
    if records == [] {
      assert Stream(c, q, "") == Streamed([], None);
    } else {
      var r, rest := records[0], records[1..];
      RecordFacts(c, r);
      LinesConcat([r], rest);
      assert records == [r] + rest;
      LinesOne(r);
      assert Lines(records) == r + "\n" + Lines(rest);
      ReadLine(r, Lines(rest));
      StreamLines(c, q, rest);
    }
  }

  lemma LinesOne(r: Bytes)
    ensures Lines([r]) == r + "\n"
  {
    assert [r][..0] == [];
    assert Lines([]) + r == r;
  }

  /** A torn end counts as a record exactly when it is whole. */
  lemma StreamTorn(c: Codec, q: Query, records: seq<Bytes>, tail: Bytes)
    requires Lawful(c) && forall r | r in records :: IsRecord(c, r)
    requires tail == "" || Torn(c, tail)
    ensures Stream(c, q, Lines(records) + tail)
            == StreamRecords(c, q, records + if IsRecord(c, tail) then [tail] else [])
  {
    LinesEnd(records);
    StreamSplit(c, q, Lines(records), tail);
    StreamLines(c, q, records);
    ThenNothing(StreamRecords(c, q, records));
    NotRecord(c);
    if tail != "" {
      TornFacts(c, tail);
      TailReadings(c, q, tail);
      if IsRecord(c, tail) {
        StreamRecordsConcat(c, q, records, [tail]);
        StreamRecordsOne(c, q, tail);
        StreamWholeTail(c, q, tail);
      }
    }
    assert !IsRecord(c, tail) ==> records + [] == records;
  }

  lemma StreamRecordsOne(c: Codec, q: Query, r: Bytes)
    ensures StreamRecords(c, q, [r]) == StreamLine(c, q, r)
  {
    assert [r][1..] == [];
    ThenNothing(StreamLine(c, q, r));
  }

  lemma StreamWholeTail(c: Codec, q: Query, tail: Bytes)
    requires Lawful(c) && IsRecord(c, tail)
    ensures Stream(c, q, tail) == StreamLine(c, q, tail)
  {
    RecordFacts(c, tail);
    FirstNewlineIs(tail, |tail|);
  }

  lemma FilesOfSlots(c: Codec, q: Query, log: Log)
    ensures StreamFiles(c, q, Files(log))
            == Then(Stream(c, q, Data(log.older)),
                Then(Stream(c, q, Data(log.retained)), Stream(c, q, Data(log.active))))
  {
    assert Stream(c, q, "") == Streamed([], None);
    var o, r, a := SlotFiles(log.older), SlotFiles(log.retained), SlotFiles(log.active);
    assert Files(log) == o + (r + a);
    FilesConcat(c, q, o, r + a);
    FilesConcat(c, q, r, a);
    SlotStream(c, q, log.older);
    SlotStream(c, q, log.retained);
    SlotStream(c, q, log.active);
  }

  function SlotFiles(o: Option<Gen>): seq<Bytes> {
    if o.Some? then [o.value.data] else []
  }

  lemma SlotStream(c: Codec, q: Query, o: Option<Gen>)
    ensures StreamFiles(c, q, SlotFiles(o)) == Stream(c, q, Data(o))
  {
    assert Stream(c, q, "") == Streamed([], None);
    if o.Some? {
      assert SlotFiles(o)[1..] == [];
      ThenNothing(Stream(c, q, Data(o)));
    }
  }

  lemma {:induction false} FilesConcat(c: Codec, q: Query, a: seq<Bytes>, b: seq<Bytes>)
    ensures StreamFiles(c, q, a + b) == Then(StreamFiles(c, q, a), StreamFiles(c, q, b))
    decreases |a|
  {
    if a == [] {
      assert a + b == b;
      ThenAssoc(StreamFiles(c, q, b), StreamFiles(c, q, b), StreamFiles(c, q, b));
    } else {
      assert (a + b)[1..] == a[1..] + b;
      FilesConcat(c, q, a[1..], b);
      ThenAssoc(Stream(c, q, a[0]), StreamFiles(c, q, a[1..]), StreamFiles(c, q, b));
    }
  }

  lemma StreamOfShadow(c: Codec, q: Query, log: Log, sh: Shadow, committed: seq<Bytes>)
    requires Lawful(c) && Holds(c, log, sh, committed)
    requires forall r | r in committed :: IsRecord(c, r)
    ensures StreamFiles(c, q, Files(log)) == StreamRecords(c, q, Records(c, sh))
  {
    SuffixMembers(Records(c, sh), committed);
    var last := sh.active + if IsRecord(c, sh.tail) then [sh.tail] else [];
    assert Records(c, sh) == sh.older + sh.retained + last;
    FilesOfSlots(c, q, log);
    SlotReads(c, q, log.older, sh.older);
    SlotReads(c, q, log.retained, sh.retained);
    ActiveReads(c, q, log.active, sh.active, sh.tail);
    RecordsRead(c, q, sh.older, sh.retained, last);
  }

  lemma ActiveReads(c: Codec, q: Query, o: Option<Gen>, records: seq<Bytes>, tail: Bytes)
    requires Lawful(c) && ActiveHolds(c, o, records, tail) && forall r | r in records :: IsRecord(c, r)
    ensures Stream(c, q, Data(o)) == StreamRecords(c, q, records + if IsRecord(c, tail) then [tail] else [])
  {
    StreamTorn(c, q, records, tail);
    assert Data(o) == Lines(records) + tail;
  }

  lemma SlotReads(c: Codec, q: Query, o: Option<Gen>, records: seq<Bytes>)
    requires Lawful(c) && SlotHolds(o, records) && forall r | r in records :: IsRecord(c, r)
    ensures Stream(c, q, Data(o)) == StreamRecords(c, q, records)
  {
    StreamLines(c, q, records);
  }

  lemma RecordsRead(c: Codec, q: Query, a: seq<Bytes>, b: seq<Bytes>, d: seq<Bytes>)
    ensures StreamRecords(c, q, a + b + d)
            == Then(StreamRecords(c, q, a), Then(StreamRecords(c, q, b), StreamRecords(c, q, d)))
  {
    StreamRecordsConcat(c, q, a + b, d);
    StreamRecordsConcat(c, q, a, b);
    ThenAssoc(StreamRecords(c, q, a), StreamRecords(c, q, b), StreamRecords(c, q, d));
  }

  lemma SuffixMembers<T>(a: seq<T>, b: seq<T>)
    requires Suffix(a, b)
    ensures forall x | x in a :: x in b
  {
    forall i | 0 <= i < |a|
      ensures a[i] in b
    {
      assert b[|b| - |a|..][i] == a[i];
    }
  }

  ghost predicate ReadsSuffix(c: Codec, q: Query, log: Log, committed: seq<Bytes>) {
    exists k: nat :: k <= |committed|
                     && StreamFiles(c, q, Files(log)) == StreamRecords(c, q, committed[k..])
                     && StreamRecords(c, q, committed[k..]).error.None?
  }

  /** The log as the next append would leave it before rotating, if it gets that far. */
  function RepairedLog(c: Codec, log: Log): Log {
    if log.active.Some? && Repaired(c, log.active.value.data).Ok? then
      log.(active := Some(log.active.value.(data := Repaired(c, log.active.value.data).value)))
    else log
  }

  /**
   After every history, wherever its appends were stopped, a reader sees an end
   of the committed records without error; and sees the same whether or not the log was repaired.
   */
  lemma EveryHistoryReads(c: Codec, q: Query, attempts: seq<Attempt>)
    requires Lawful(c)
    ensures var h := Run(c, START, attempts);
            && ReadsSuffix(c, q, h.log, h.committed)
            && StreamFiles(c, q, Files(RepairedLog(c, h.log))) == StreamFiles(c, q, Files(h.log))
  {
    StartHolds(c);
    RunKeepsInv(c, START, attempts);
    var h := Run(c, START, attempts);
    var sh :| Holds(c, h.log, sh, h.committed);
    StreamOfShadow(c, q, h.log, sh, h.committed);
    var k: nat := |h.committed| - |Records(c, sh)|;
    assert h.committed[k..] == Records(c, sh);
    CommittedReadable(c, h.committed[k..]);
    ReadableRecords(c, q, h.committed[k..]);
    RepairReadsSame(c, q, h.log, sh, h.committed);
  }

  /** What was committed was encoded, and so reads back. */
  lemma CommittedReadable(c: Codec, records: seq<Bytes>)
    requires Lawful(c) && forall r | r in records :: IsRecord(c, r)
    ensures forall r | r in records :: c.decode(r).Some?
  {
    forall r | r in records
      ensures c.decode(r).Some?
    {
      RecordFacts(c, r);
    }
  }

  lemma RepairReadsSame(c: Codec, q: Query, log: Log, sh: Shadow, committed: seq<Bytes>)
    requires Lawful(c) && Holds(c, log, sh, committed)
    ensures StreamFiles(c, q, Files(RepairedLog(c, log))) == StreamFiles(c, q, Files(log))
  {
    if log.active.Some? && Repaired(c, log.active.value.data).Ok? {
      FilesOfSlots(c, q, log);
      FilesOfSlots(c, q, RepairedLog(c, log));
      StreamIgnoresRepair(c, q, log.active.value.data);
      ShortOrWhole(c, log, sh, committed);
    }
  }

  /** No history produces the one file that reads differently once repaired. */
  lemma ShortOrWhole(c: Codec, log: Log, sh: Shadow, committed: seq<Bytes>)
    requires Lawful(c) && Holds(c, log, sh, committed) && log.active.Some?
    ensures '\n' !in log.active.value.data ==> |log.active.value.data| <= MAX_EVENT_RECORD_BYTES
  {
    LinesEnd(sh.active);
    if Lines(sh.active) != "" {
      assert log.active.value.data[|Lines(sh.active)| - 1] == '\n';
    } else if sh.tail != "" {
      TornFacts(c, sh.tail);
    }
  }

  /** Read back in full: if every event passes the reader's checks, nothing but the query drops any. */
  lemma {:induction false} ReadableRecords(c: Codec, q: Query, records: seq<Bytes>)
    requires forall r | r in records :: c.decode(r).Some?
    ensures StreamRecords(c, q, records).error.None?
    ensures forall e :: e in StreamRecords(c, q, records).emitted
                        <==> Matches(e, q) && exists r :: r in records && c.decode(r) == Some(e)
    decreases |records|
  {
    if records != [] {
      ReadableRecords(c, q, records[1..]);
      assert records == [records[0]] + records[1..];
    }
  }
}
