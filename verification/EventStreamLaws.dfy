/** What a reader of the event log selects, and where it stops with an error. */
module EventStreamLaws {
  import opened Wrappers
  import opened EventCodec
  import opened EventStream

  // ---------- Selection ----------

  /** An event is selected exactly if every condition of the query that is set holds, bounds included. */
  lemma SelectedExactly(e: Event, q: Query)
    ensures Selected(e, q) == (if Matches(e, q) then [e] else [])
    ensures Matches(e, q) <==>
            && |q.containerPrefix| <= |e.containerID|
            && (forall i | 0 <= i < |q.containerPrefix| :: e.containerID[i] == q.containerPrefix[i])
            && !(q.since.Some? && e.timestamp < q.since.value)
            && !(q.until.Some? && e.timestamp > q.until.value)
            && (q.types != [] ==> exists i :: 0 <= i < |q.types| && q.types[i] == e.kind)
  {
  }

  // ---------- Errors ----------

  /** A line of the file: not longer than a record may be, up to its newline. */
  predicate IsLine(line: Bytes) {
    line != "" && line[|line| - 1] == '\n' && '\n' !in line[..|line| - 1] && |line| <= 0x10_0001
  }

  lemma LineRead(line: Bytes, rest: Bytes)
    requires IsLine(line)
    ensures ReadRecord(line + rest) == Line(line, rest)
  {
    var r := line[..|line| - 1];
    assert line == r + "\n";
    ReadLine(r, rest);
  }

  /** A reader that met no error so far stops at a line that does not decode, with what it emitted before. */
  lemma BadLineStops(c: Codec, q: Query, whole: Bytes, bad: Bytes, rest: Bytes)
    requires EndsWhole(whole) && Stream(c, q, whole).error.None? && IsLine(bad) && c.decode(bad).None?
    ensures Stream(c, q, whole + (bad + rest)) == Streamed(Stream(c, q, whole).emitted, Some(Malformed))
  {
    StreamSplit(c, q, whole, bad + rest);
    LineRead(bad, rest);
    assert Stream(c, q, whole).emitted + [] == Stream(c, q, whole).emitted;
  }

  /** So it does where the next newline is too far away. */
  lemma LongLineStops(c: Codec, q: Query, whole: Bytes, long: Bytes)
    requires EndsWhole(whole) && Stream(c, q, whole).error.None?
    requires |long| > 0x10_0000 && '\n' !in long[..0x10_0001]
    ensures Stream(c, q, whole + long) == Streamed(Stream(c, q, whole).emitted, Some(RecordTooLong))
  {
    StreamSplit(c, q, whole, long);
    assert forall k | 0 <= k < 0x10_0001 :: long[k] == long[..0x10_0001][k];
    assert Stream(c, q, whole).emitted + [] == Stream(c, q, whole).emitted;
  }

  /** A line that decodes adds its event, if it is selected, and nothing else. */
  lemma GoodLineAdds(c: Codec, q: Query, whole: Bytes, good: Bytes, e: Event)
    requires EndsWhole(whole) && Stream(c, q, whole).error.None? && IsLine(good) && c.decode(good) == Some(e)
    ensures Stream(c, q, whole + good)
         == Streamed(Stream(c, q, whole).emitted + (if Matches(e, q) then [e] else []), None)
  {
    StreamSplit(c, q, whole, good);
    LineRead(good, "");
    assert good + "" == good && Stream(c, q, "") == Streamed([], None);
    ThenNothing(StreamLine(c, q, good));
  }

  /**
   An unterminated end within the limit: read if it is a record, an error if it
   is complete and not one, and otherwise passed over.
   */
  lemma EndRead(c: Codec, q: Query, whole: Bytes, tail: Bytes)
    requires EndsWhole(whole) && Stream(c, q, whole).error.None?
    requires tail != "" && '\n' !in tail && |tail| <= 0x10_0000
    ensures var before := Stream(c, q, whole).emitted;
            Stream(c, q, whole + tail)
            == match c.decode(tail)
               case Some(e) => Streamed(before + (if Matches(e, q) then [e] else []), None)
               case None => Streamed(before, if c.valid(tail) then Some(Malformed) else None)
  {
    StreamSplit(c, q, whole, tail);
    FirstNewlineIs(tail, |tail|);
    assert Stream(c, q, whole).emitted + [] == Stream(c, q, whole).emitted;
  }

  /** Files are read one after another, up to the first error. */
  lemma {:induction false} FilesInOrder(c: Codec, q: Query, a: seq<Bytes>, b: seq<Bytes>)
    ensures StreamFiles(c, q, a + b) == Then(StreamFiles(c, q, a), StreamFiles(c, q, b))
    decreases |a|
  {
    if a == [] {
      assert a + b == b;
      ThenAssoc(StreamFiles(c, q, b), StreamFiles(c, q, b), StreamFiles(c, q, b));
    } else {
      assert (a + b)[1..] == a[1..] + b;
      FilesInOrder(c, q, a[1..], b);
      ThenAssoc(Stream(c, q, a[0]), StreamFiles(c, q, a[1..]), StreamFiles(c, q, b));
    }
  }
}
