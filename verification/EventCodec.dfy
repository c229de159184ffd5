/**
 Event records as bytes: one encoded event per line, and the bounded reader
 that takes them apart again (`internal/events/record_reader.go`).

 Encoding and decoding are parameters. The encoder refuses an event that the
 reader would refuse; of what it does encode the model only uses that it is one
 line of text no proper prefix of which is complete, and that it reads back.
 */
module EventCodec {
  import opened Wrappers

  type Bytes = string

  const MAX_EVENT_RECORD_BYTES: nat := 0x10_0000

  datatype Event = Event(timestamp: int, kind: string, containerID: string, details: string)

  /** `valid` says that bytes are complete; `decode` also checks the schema. */
  datatype Codec = Codec(encode: Event -> Option<Bytes>, valid: Bytes -> bool, decode: Bytes -> Option<Event>)

  ghost predicate Lawful(c: Codec) {
    && !c.valid("")
    && (forall e :: c.encode(e).Some? ==> '\n' !in c.encode(e).value && c.decode(c.encode(e).value).Some?)
    && (forall e, b: Bytes :: c.encode(e).Some? && b < c.encode(e).value ==> !c.valid(b))
    && (forall b: Bytes :: c.decode(b).Some? ==> c.valid(b))
    && (forall b: Bytes :: c.decode(b + "\n") == c.decode(b))
  }

  /** What an append may write before its newline. */
  ghost predicate IsRecord(c: Codec, b: Bytes) {
    |b| <= MAX_EVENT_RECORD_BYTES && exists e :: c.encode(e) == Some(b)
  }

  /** The bytes a write cut short may leave behind, up to a record without its newline. */
  ghost predicate Torn(c: Codec, tail: Bytes) {
    exists r :: IsRecord(c, r) && tail <= r
  }

  lemma RecordFacts(c: Codec, b: Bytes)
    requires Lawful(c) && IsRecord(c, b)
    ensures b != "" && '\n' !in b && c.valid(b) && c.decode(b).Some?
  {
    var e :| c.encode(e) == Some(b);
  }

  /** A torn tail is complete exactly when it is a whole record. */
  lemma TornFacts(c: Codec, tail: Bytes)
    requires Lawful(c) && Torn(c, tail)
    ensures '\n' !in tail && |tail| <= MAX_EVENT_RECORD_BYTES
    ensures c.valid(tail) <==> IsRecord(c, tail)
  {
    var r :| IsRecord(c, r) && tail <= r;
    RecordFacts(c, r);
    var e :| c.encode(e) == Some(r);
    if tail != r {
      assert tail < c.encode(e).value;
      if IsRecord(c, tail) {
        RecordFacts(c, tail);
        assert false;
      }
    }
  }

  /** The text of a log holding these records. */
  function Lines(records: seq<Bytes>): Bytes {
    if records == [] then ""
    else Lines(records[..|records| - 1]) + records[|records| - 1] + "\n"
  }

  lemma LinesAppend(records: seq<Bytes>, r: Bytes)
    ensures Lines(records + [r]) == Lines(records) + r + "\n"
  {
    assert (records + [r])[..|records|] == records;
  }

  lemma {:induction false} LinesConcat(a: seq<Bytes>, b: seq<Bytes>)
    ensures Lines(a + b) == Lines(a) + Lines(b)
    decreases |b|
  {
    if b == [] {
      assert a + b == a;
    } else {
      var init, last := b[..|b| - 1], b[|b| - 1];
      LinesConcat(a, init);
      assert a + b == (a + init) + [last];
      LinesAppend(a + init, last);
      AppendAssoc(Lines(a), Lines(init), last + "\n");
    }
  }

  lemma AppendAssoc(a: Bytes, b: Bytes, d: Bytes)
    ensures a + b + d == a + (b + d)
  {
  }

  lemma LinesEnd(records: seq<Bytes>)
    ensures Lines(records) != "" ==> Lines(records)[|Lines(records)| - 1] == '\n'
  {
  }

  // ---------- Reading a record ----------

  function FirstNewline(b: Bytes): (i: nat)
    ensures i <= |b| && (i < |b| ==> b[i] == '\n')
  {
    NewlineFrom(b, 0)
  }

  function NewlineFrom(b: Bytes, start: nat): (i: nat)
    requires start <= |b|
    ensures start <= i <= |b| && (i < |b| ==> b[i] == '\n')
    decreases |b| - start
  {
    if start == |b| || b[start] == '\n' then start else NewlineFrom(b, start + 1)
  }

  lemma {:induction false} NoneBefore(b: Bytes, start: nat)
    requires start <= |b|
    ensures forall k | start <= k < NewlineFrom(b, start) :: b[k] != '\n'
    decreases |b| - start
  {
    if start < |b| && b[start] != '\n' {
      NoneBefore(b, start + 1);
    }
  }

  lemma FirstNewlineIs(b: Bytes, i: nat)
    requires i <= |b| && (i < |b| ==> b[i] == '\n') && forall k | 0 <= k < i :: b[k] != '\n'
    ensures FirstNewline(b) == i
  {
    NoneBefore(b, 0);
  }

  /** The last newline at or after `start`, or `start - 1` if there is none. */
  function LastNewlineFrom(b: Bytes, start: nat): (i: int)
    requires start <= |b|
    ensures start - 1 <= i < |b| && (i >= start ==> b[i] == '\n')
  {
    NewlineBefore(b, start, |b|)
  }

  function NewlineBefore(b: Bytes, start: nat, end: nat): (i: int)
    requires start <= end <= |b|
    ensures start - 1 <= i < end && (i >= start ==> b[i] == '\n')
    decreases end
  {
    if end == start then start - 1
    else if b[end - 1] == '\n' then end - 1
    else NewlineBefore(b, start, end - 1)
  }

  lemma {:induction false} NoneAfter(b: Bytes, start: nat, end: nat)
    requires start <= end <= |b|
    ensures forall k | NewlineBefore(b, start, end) < k < end :: b[k] != '\n'
    decreases end
  {
    if end > start && b[end - 1] != '\n' {
      NoneAfter(b, start, end - 1);
    }
  }

  lemma LastNewlineIs(b: Bytes, start: nat, i: int)
    requires start - 1 <= i < |b| && start <= |b| && (i >= start ==> b[i] == '\n')
    requires forall k | i < k < |b| :: b[k] != '\n'
    ensures LastNewlineFrom(b, start) == i
  {
    NoneAfter(b, start, |b|);
  }

  /** What one read yields: a line, the unterminated rest, or a record over the limit. */
  datatype ReadResult = Line(line: Bytes, rest: Bytes) | AtEof(rest: Bytes) | TooLarge

  /**
   The reader buffers one byte more than a record may hold, so a newline is
   found only within that many bytes, and that many bytes without one are an error.
   */
  function ReadRecord(data: Bytes): ReadResult {
    var i := FirstNewline(data);
    if i < |data| && i <= MAX_EVENT_RECORD_BYTES then Line(data[..i + 1], data[i + 1..])
    else if |data| > MAX_EVENT_RECORD_BYTES then TooLarge
    else AtEof(data)
  }

  /** The lines of a log come back one by one, whatever follows them. */
  lemma ReadLine(r: Bytes, rest: Bytes)
    requires '\n' !in r && |r| <= MAX_EVENT_RECORD_BYTES
    ensures ReadRecord(r + "\n" + rest) == Line(r + "\n", rest)
  {
    var data := r + "\n" + rest;
    assert forall k :: 0 <= k < |r| ==> data[k] == r[k];
    FirstNewlineIs(data, |r|);
    assert data[..|r| + 1] == r + "\n";
    assert data[|r| + 1..] == rest;
  }
}
