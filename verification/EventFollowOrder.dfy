/**
 What a follower delivers. As long as no repair takes away bytes the follower
 had read, it visits the generations in order, delivers whole lines in order and
 once, and misses lines exactly where they were completed behind its back.
 */
module EventFollowOrder {
  import opened Wrappers
  import opened EventCodec
  import opened EventStream
  import opened EventFollow

  // ---------- Lines and events ----------

  /** A line as the reader hands it out, with an event in it. */
  ghost predicate Readable(c: Codec, line: Bytes) {
    ReadRecord(line) == Line(line, "") && EndsWhole(line) && c.decode(line).Some?
  }

  function Text(lines: seq<Bytes>): Bytes {
    if lines == [] then "" else Text(lines[..|lines| - 1]) + lines[|lines| - 1]
  }

  /** The events of the delivered lines that the query selects. */
  function EventsIn(c: Codec, q: Query, lines: seq<Bytes>): seq<Event> {
    if lines == [] then []
    else EventsIn(c, q, lines[..|lines| - 1]) + StreamLine(c, q, lines[|lines| - 1]).emitted
  }

  function EventsOfAll(c: Codec, q: Query, visits: seq<Visit>): seq<Event> {
    if visits == [] then []
    else EventsOfAll(c, q, visits[..|visits| - 1]) + EventsIn(c, q, visits[|visits| - 1].lines)
  }

  /** Whole readable lines were delivered, in order and without a gap, from the start of the file. */
  ghost predicate DeliveredWhole(c: Codec, w: World, v: Visit) {
    && v.age < |w.files| && v.delivered <= |w.files[v.age]|
    && w.files[v.age][..v.delivered] == Text(v.lines)
    && (forall line | line in v.lines :: Readable(c, line))
  }

  /** A complete line of the file was not delivered. */
  ghost predicate Missed(w: World, v: Visit) {
    v.age < |w.files| && v.delivered <= |w.files[v.age]| && '\n' in w.files[v.age][v.delivered..]
  }

  /** The next line of the file is complete and cannot be decoded. */
  ghost predicate Unreadable(c: Codec, w: World, v: Visit) {
    && v.age < |w.files| && v.delivered <= |w.files[v.age]|
    && ReadRecord(w.files[v.age][v.delivered..]).Line?
    && c.decode(ReadRecord(w.files[v.age][v.delivered..]).line).None?
  }

  /** A line was completed behind the position up to which the file had been read. */
  ghost predicate CompletedLater(w: World, v: Visit) {
    v.age < |w.files| && v.offset <= |w.files[v.age]| && '\n' in w.files[v.age][v.offset..]
  }

  // ---------- The condition on the writer ----------

  /** How much of the current file the follower has read, for its records or for its anchor. */
  function Seen(f: Follower): nat {
    if f.offset < |f.anchor| then |f.anchor| else f.offset
  }

  /** A repair of the file being read leaves everything the follower has read of it. */
  ghost predicate Spares(w: World, f: Follower, m: WriterMove) {
    m.Repair? && w.active == Some(f.current) && f.current < |w.files| ==> Seen(f) <= |Whole(w.files[f.current])|
  }

  ghost predicate Gentle(c: Codec, q: Query, s: Sys, moves: seq<Move>)
    decreases |moves|
  {
    moves == [] || !WorldOk(s.world) || !FollowerOk(s.world, s.follower) ||
    ((moves[0].Writer? ==> Spares(s.world, s.follower, moves[0].move))
        && Gentle(c, q, Step(c, q, s, moves[0]), moves[1..]))
  }

  /** Files that are not active are final, and what was read of the current one stays. */
  ghost predicate Keeps(w: World, w': World, f: Follower) {
    && Finals(w, w') && f.current < |w.files|
    && Seen(f) <= |w.files[f.current]| && Seen(f) <= |w'.files[f.current]|
    && w'.files[f.current][..Seen(f)] == w.files[f.current][..Seen(f)]
  }

  lemma WriteKeeps(w: World, f: Follower, m: WriterMove)
    requires WorldOk(w) && f.current < |w.files| && Seen(f) <= |w.files[f.current]| && Spares(w, f, m)
    ensures WorldOk(Write(w, m)) && Keeps(w, Write(w, m), f)
  {
    WriteFinals(w, m);
  }

  // ---------- What every step keeps ----------

  /** The follower's memory agrees with the file. */
  ghost predicate Sound(w: World, f: Follower)
    requires FollowerOk(w, f)
  {
    var data := w.files[f.current];
    && Seen(f) <= |data|
    && f.anchor <= data && |f.anchor| <= ANCHOR_LIMIT
    && f.checkpoint.offset + |f.checkpoint.data| <= f.offset
    && f.checkpoint.data == data[f.checkpoint.offset..f.checkpoint.offset + |f.checkpoint.data|]
    && f.buffer == data[f.offset - |f.buffer|..f.offset]
  }

  /** At the end of what it could read the follower holds no complete line; a final file is read to its end. */
  ghost predicate EndOk(w: World, f: Follower)
    requires FollowerOk(w, f)
  {
    && (f.pc.AtEnd? || f.pc.Sleeping? ==> ReadRecord(f.buffer).AtEof?)
    && (f.queued != [] && f.pc.AtEnd? ==> f.offset == |w.files[f.current]|)
    && (f.pc.Boundary? ==> !f.pc.changed)
  }

  /** Exactly when a visit misses a line; one whose successor was held can only stumble over an unreadable one. */
  ghost predicate MissExact(c: Codec, w: World, v: Visit) {
    && (Missed(w, v) <==> Unreadable(c, w, v) || CompletedLater(w, v))
    && (v.leaving.Held? && Missed(w, v) ==> Unreadable(c, w, v))
  }

  ghost predicate MissesOk(c: Codec, w: World, f: Follower)
    requires FollowerOk(w, f)
  {
    && (forall v | v in f.left :: MissExact(c, w, v))
    && (f.pc.Boundary? || f.pc == Returned(true) ==> MissExact(c, w, Here(f, LeavingOf(w, f))))
  }

  /** The age after a visit, by how it was left; one that waited takes whatever is active next. */
  predicate Follows(v: Visit, age: nat) {
    match v.leaving
    case Again => age == v.age
    case Last => age > v.age
    case _ => age == v.age + 1
  }

  ghost predicate InOrder(f: Follower) {
    && (forall i | 0 <= i < |f.left| - 1 :: Follows(f.left[i], f.left[i + 1].age))
    && (f.left != [] ==> Follows(f.left[|f.left| - 1], f.current))
    && (forall v | v in f.left :: v.age < f.current && !v.leaving.Again?)
  }

  ghost predicate Ordered(c: Codec, q: Query, w: World, f: Follower)
    requires FollowerOk(w, f)
  {
    && (forall v | v in f.left :: DeliveredWhole(c, w, v))
    && DeliveredWhole(c, w, Here(f, Last))
    && f.emitted == EventsOfAll(c, q, f.left) + EventsIn(c, q, f.lines)
  }

  /** What the follower holds in its hands. */
  ghost predicate Present(w: World, f: Follower) {
    WorldOk(w) && FollowerOk(w, f) && Sound(w, f) && EndOk(w, f)
  }

  /** What it has delivered, and what it has left. */
  ghost predicate Past(c: Codec, q: Query, w: World, f: Follower) {
    FollowerOk(w, f) && MissesOk(c, w, f) && InOrder(f) && Ordered(c, q, w, f)
  }

  ghost predicate Inv(c: Codec, q: Query, s: Sys) {
    Present(s.world, s.follower) && Past(c, q, s.world, s.follower)
  }

  /** While what was read stays, an inspection sees a boundary exactly when the path names another file. */
  lemma InspectExact(w: World, f: Follower, consumed: nat)
    requires FollowerOk(w, f) && Sound(w, f) && consumed <= f.offset
    ensures Inspect(w, f, consumed) <==> w.active != Some(f.current)
  {
    var data := w.files[f.current];
    assert f.anchor <= Take(data, ANCHOR_LIMIT);
    assert f.checkpoint.data <= data[f.checkpoint.offset..];
  }

  // ---------- Writer steps ----------

  lemma KeepsSound(w: World, w': World, f: Follower)
    requires FollowerOk(w, f) && FollowerOk(w', f) && Keeps(w, w', f) && Sound(w, f)
    ensures Sound(w', f)
  {
    var data, data', seen := w.files[f.current], w'.files[f.current], Seen(f);
    assert f.anchor == data[..seen][..|f.anchor|] == data'[..seen][..|f.anchor|];
    assert f.buffer == data[..seen][f.offset - |f.buffer|..f.offset] == data'[..seen][f.offset - |f.buffer|..f.offset];
    var from, to := f.checkpoint.offset, f.checkpoint.offset + |f.checkpoint.data|;
    assert f.checkpoint.data == data[..seen][from..to] == data'[..seen][from..to];
  }

  lemma KeepsVisits(c: Codec, w: World, w': World, f: Follower)
    requires WorldOk(w) && FollowerOk(w, f) && Keeps(w, w', f) && InOrder(f)
    requires forall v | v in f.left :: DeliveredWhole(c, w, v) && MissExact(c, w, v)
    ensures forall v | v in f.left :: DeliveredWhole(c, w', v) && MissExact(c, w', v)
  {
    ActiveIsNewest(w);
    forall v | v in f.left
      ensures DeliveredWhole(c, w', v) && MissExact(c, w', v)
    {
      assert w'.files[v.age] == w.files[v.age];
    }
  }

  lemma WriterKeepsInv(c: Codec, q: Query, s: Sys, m: WriterMove)
    requires Inv(c, q, s) && Spares(s.world, s.follower, m)
    ensures Inv(c, q, s.(world := Write(s.world, m)))
  {
    WriteKeeps(s.world, s.follower, m);
    StepKeepsOk(c, q, s, Writer(m));
    KeepsPresent(s.world, Write(s.world, m), s.follower);
    KeepsPast(c, q, s.world, Write(s.world, m), s.follower);
  }

  lemma KeepsPresent(w: World, w': World, f: Follower)
    requires Present(w, f) && Keeps(w, w', f) && WorldOk(w') && FollowerOk(w', f)
    ensures Present(w', f)
  {
    KeepsSound(w, w', f);
    KeepsEnd(w, w', f);
  }

  lemma KeepsPast(c: Codec, q: Query, w: World, w': World, f: Follower)
    requires Present(w, f) && Past(c, q, w, f) && Keeps(w, w', f) && WorldOk(w') && FollowerOk(w', f)
    ensures Past(c, q, w', f)
  {
    KeepsVisits(c, w, w', f);
    KeepsHere(c, w, w', f);
  }

  lemma KeepsHere(c: Codec, w: World, w': World, f: Follower)
    requires FollowerOk(w, f) && FollowerOk(w', f) && Keeps(w, w', f) && Sound(w, f)
    requires DeliveredWhole(c, w, Here(f, Last))
    ensures DeliveredWhole(c, w', Here(f, Last))
    ensures w.active != Some(f.current) ==> forall l :: MissExact(c, w', Here(f, l)) <==> MissExact(c, w, Here(f, l))
  {
    var data, data', d := w.files[f.current], w'.files[f.current], f.offset - |f.buffer|;
    assert data[..Seen(f)][..d] == data[..d] && data'[..Seen(f)][..d] == data'[..d];
  }

  lemma KeepsEnd(w: World, w': World, f: Follower)
    requires WorldOk(w) && FollowerOk(w, f) && FollowerOk(w', f) && Keeps(w, w', f) && EndOk(w, f)
    ensures EndOk(w', f)
  {
    ActiveIsNewest(w);
  }

  // ---------- Reading ----------

  lemma ReadsLine(data: Bytes)
    requires ReadRecord(data).Line?
    ensures data == ReadRecord(data).line + ReadRecord(data).rest
    ensures ReadRecord(data).line != "" && EndsWhole(ReadRecord(data).line)
    ensures ReadRecord(ReadRecord(data).line) == Line(ReadRecord(data).line, "")
  {
    var i := FirstNewline(data);
    var line := data[..i + 1];
    NoneBefore(data, 0);
    assert forall k :: 0 <= k < i ==> line[k] == data[k];
    FirstNewlineIs(line, i);
    assert line[..i + 1] == line && line[i + 1..] == "";
  }

  /** A line found in what was read so far is the line found in the whole. */
  lemma ReadPrefix(a: Bytes, b: Bytes)
    requires ReadRecord(a).Line?
    ensures ReadRecord(a + b) == Line(ReadRecord(a).line, ReadRecord(a).rest + b)
  {
    var i, data := FirstNewline(a), a + b;
    NoneBefore(a, 0);
    assert forall k | 0 <= k <= i :: data[k] == a[k];
    FirstNewlineIs(data, i);
    assert data[..i + 1] == a[..i + 1] && data[i + 1..] == a[i + 1..] + b;
  }

  /** What is left at an end of file has no newline. */
  lemma AtEofNoNewline(data: Bytes)
    requires ReadRecord(data).AtEof?
    ensures '\n' !in data
  {
    NoneBefore(data, 0);
  }

  lemma HasNewline(a: Bytes, b: Bytes)
    ensures '\n' in a + b <==> '\n' in a || '\n' in b
  {
    assert forall x :: x in a + b <==> x in a || x in b;
  }

  /** Steps that neither deliver nor move on keep all that is said of what was delivered. */
  ghost predicate SameDelivery(f: Follower, f': Follower) {
    && f'.current == f.current && f'.lines == f.lines && f'.left == f.left && f'.queued == f.queued
        && f'.emitted == f.emitted
    && |f.buffer| <= f.offset && |f'.buffer| <= f'.offset && f'.offset - |f'.buffer| == f.offset - |f.buffer|
  }

  lemma SameDeliveryKeeps(c: Codec, q: Query, w: World, f: Follower, f': Follower)
    requires Past(c, q, w, f) && FollowerOk(w, f') && SameDelivery(f, f')
    requires f'.pc.Boundary? || f'.pc == Returned(true) ==> MissExact(c, w, Here(f', LeavingOf(w, f')))
    ensures Past(c, q, w, f')
  {
  }

  lemma FillSound(w: World, f: Follower, n: nat)
    requires FollowerOk(w, f) && Sound(w, f) && f.offset < |w.files[f.current]|
    ensures FollowerOk(w, Fill(w, f, n)) && Sound(w, Fill(w, f, n)) && SameDelivery(f, Fill(w, f, n))
  {
    SlicesJoin(w.files[f.current], f.offset - |f.buffer|, f.offset, Fill(w, f, n).offset);
  }

  lemma SlicesJoin(data: Bytes, a: nat, b: nat, end: nat)
    requires a <= b <= end <= |data|
    ensures data[a..b] + data[b..end] == data[a..end] && data[a..b] + data[b..] == data[a..]
  {
  }

  lemma FillKeeps(c: Codec, q: Query, w: World, f: Follower, n: nat)
    requires Present(w, f) && Past(c, q, w, f) && f.pc.Reading? && f.offset < |w.files[f.current]|
    ensures Present(w, Fill(w, f, n)) && Past(c, q, w, Fill(w, f, n))
  {
    FillSound(w, f, n);
    SameDeliveryKeeps(c, q, w, f, Fill(w, f, n));
  }

  lemma EndOfFileKeeps(c: Codec, q: Query, w: World, f: Follower)
    requires Present(w, f) && Past(c, q, w, f) && f.pc.Reading? && ReadRecord(f.buffer).AtEof?
    requires f.source.Spent? || f.offset >= |w.files[f.current]|
    ensures Present(w, EndOfFile(f)) && Past(c, q, w, EndOfFile(f))
  {
    SameDeliveryKeeps(c, q, w, f, EndOfFile(f));
  }

  function Delivered(f: Follower, line: Bytes, rest: Bytes, e: Event, q: Query): Follower {
    f.(lines := f.lines + [line], buffer := rest, emitted := f.emitted + Selected(e, q))
  }

  /** The line taken out of the buffer is the next one of the file. */
  lemma NextLine(w: World, f: Follower, line: Bytes, rest: Bytes)
    requires FollowerOk(w, f) && Sound(w, f) && f.buffer == line + rest
    ensures var data, d := w.files[f.current], f.offset - |f.buffer|;
            && data[..d + |line|] == data[..d] + line
            && rest == data[d + |line|..f.offset]
  {
    var data, d := w.files[f.current], f.offset - |f.buffer|;
    assert data[d..f.offset][..|line|] == line && data[d..f.offset][|line|..] == rest;
  }

  lemma DeliverOrdered(c: Codec, q: Query, w: World, f: Follower, line: Bytes, rest: Bytes, e: Event)
    requires FollowerOk(w, f) && Sound(w, f) && Ordered(c, q, w, f) && f.buffer == line + rest
    requires Readable(c, line) && c.decode(line) == Some(e)
    requires FollowerOk(w, Delivered(f, line, rest, e, q))
    ensures Ordered(c, q, w, Delivered(f, line, rest, e, q))
  {
    NextLine(w, f, line, rest);
    assert (f.lines + [line])[..|f.lines|] == f.lines;
    EventsExtend(c, q, f.lines, line, e);
    Assoc(EventsOfAll(c, q, f.left), EventsIn(c, q, f.lines), Selected(e, q));
  }

  lemma DeliverKeeps(c: Codec, q: Query, w: World, f: Follower, line: Bytes, rest: Bytes, e: Event)
    requires Present(w, f) && Past(c, q, w, f) && f.pc.Reading?
    requires ReadRecord(f.buffer) == Line(line, rest) && c.decode(line) == Some(e)
    ensures Present(w, Delivered(f, line, rest, e, q)) && Past(c, q, w, Delivered(f, line, rest, e, q))
  {
    ReadsLine(f.buffer);
    DeliverPresent(w, f, line, rest, Delivered(f, line, rest, e, q));
    DeliverOrdered(c, q, w, f, line, rest, e);
  }

  lemma DeliverPresent(w: World, f: Follower, line: Bytes, rest: Bytes, f': Follower)
    requires Present(w, f) && f.pc.Reading? && f.buffer == line + rest
    requires f' == f.(buffer := rest, lines := f'.lines, emitted := f'.emitted)
    ensures Present(w, f')
  {
    NextLine(w, f, line, rest);
  }

  /** A boundary noticed at a line that cannot be decoded, which is in the file. */
  lemma MalformedMisses(c: Codec, w: World, f: Follower, l: Leaving)
    requires FollowerOk(w, f) && Sound(w, f)
    requires ReadRecord(f.buffer).Line? && c.decode(ReadRecord(f.buffer).line).None?
    ensures Unreadable(c, w, Here(f, l)) && Missed(w, Here(f, l))
  {
    var data, d := w.files[f.current], f.offset - |f.buffer|;
    SlicesJoin(data, d, f.offset, |data|);
    ReadsLine(f.buffer);
    ReadPrefix(f.buffer, data[f.offset..]);
    HasNewline(f.buffer, data[f.offset..]);
    var line := ReadRecord(f.buffer).line;
    assert line[|line| - 1] == '\n' && f.buffer[|line| - 1] == '\n';
  }

  lemma MalformedKeeps(c: Codec, q: Query, w: World, f: Follower, consumed: nat)
    requires Present(w, f) && Past(c, q, w, f) && f.pc.Reading? && consumed <= f.offset
    requires ReadRecord(f.buffer).Line? && c.decode(ReadRecord(f.buffer).line).None?
    ensures var f' := if Inspect(w, f, consumed) then AtBoundary(w, f) else Anchored(w, f).(pc := Failed(RecordError));
            Present(w, f') && Past(c, q, w, f')
  {
    InspectExact(w, f, consumed);
    if w.active != Some(f.current) {
      MalformedMisses(c, w, f, LeavingOf(w, f));
      LeavesAtBoundary(c, q, w, f);
    } else {
      AnchoredSound(w, f);
      SameDeliveryKeeps(c, q, w, f, Anchored(w, f).(pc := Failed(RecordError)));
    }
  }

  lemma LeavesAtBoundary(c: Codec, q: Query, w: World, f: Follower)
    requires Present(w, f) && Past(c, q, w, f) && w.active != Some(f.current)
    requires MissExact(c, w, Here(f, LeavingOf(w, f)))
    ensures Present(w, AtBoundary(w, f)) && Past(c, q, w, AtBoundary(w, f))
  {
    var f' := AtBoundary(w, f);
    assert Here(f', LeavingOf(w, f')) == Here(f, LeavingOf(w, f));
    SameDeliveryKeeps(c, q, w, f, f');
  }

  lemma AnchoredSound(w: World, f: Follower)
    requires FollowerOk(w, f) && Sound(w, f)
    ensures FollowerOk(w, Anchored(w, f)) && Sound(w, Anchored(w, f)) && SameDelivery(f, Anchored(w, f))
  {
  }

  lemma LineKeeps(c: Codec, q: Query, w: World, f: Follower, line: Bytes, rest: Bytes, n: nat)
    requires Present(w, f) && Past(c, q, w, f) && f.pc.Reading? && ReadRecord(f.buffer) == Line(line, rest)
    ensures Present(w, Read(c, q, w, f, n)) && Past(c, q, w, Read(c, q, w, f, n))
  {
    match c.decode(line)
    case Some(e) =>
      assert Read(c, q, w, f, n) == Delivered(f, line, rest, e, q);
      DeliverKeeps(c, q, w, f, line, rest, e);
    case None =>
      ReadsLine(f.buffer);
      MalformedKeeps(c, q, w, f, f.offset - Min(n, |rest|));
  }

  lemma ReadKeeps(c: Codec, q: Query, w: World, f: Follower, n: nat)
    requires Present(w, f) && Past(c, q, w, f) && f.pc.Reading?
    ensures Present(w, Read(c, q, w, f, n)) && Past(c, q, w, Read(c, q, w, f, n))
  {
    match ReadRecord(f.buffer)
    case TooLarge => FailKeeps(c, q, w, f);
    case AtEof(_) =>
      if !f.source.Spent? && f.offset < |w.files[f.current]| {
        FillKeeps(c, q, w, f, n);
      } else {
        EndOfFileKeeps(c, q, w, f);
      }
    case Line(line, rest) => LineKeeps(c, q, w, f, line, rest, n);
  }

  lemma FailKeeps(c: Codec, q: Query, w: World, f: Follower)
    requires Present(w, f) && Past(c, q, w, f)
    ensures Present(w, f.(pc := Failed(RecordError))) && Past(c, q, w, f.(pc := Failed(RecordError)))
  {
    SameDeliveryKeeps(c, q, w, f, f.(pc := Failed(RecordError)));
  }

  // ---------- At the end of a file ----------

  /** The next line can only be unreadable where there is one. */
  lemma UnreadableMisses(c: Codec, w: World, v: Visit)
    requires Unreadable(c, w, v)
    ensures Missed(w, v)
  {
    var data := w.files[v.age][v.delivered..];
    ReadsLine(data);
    var line := ReadRecord(data).line;
    assert data[|line| - 1] == '\n';
  }

  /** A boundary noticed at the end of what could be read: lines are missed exactly if they were completed since. */
  lemma EndMisses(c: Codec, w: World, f: Follower, l: Leaving)
    requires FollowerOk(w, f) && Sound(w, f) && ReadRecord(f.buffer).AtEof?
    ensures Missed(w, Here(f, l)) <==> CompletedLater(w, Here(f, l))
    ensures f.offset == |w.files[f.current]| ==> !Missed(w, Here(f, l))
  {
    var data, d := w.files[f.current], f.offset - |f.buffer|;
    SlicesJoin(data, d, f.offset, |data|);
    AtEofNoNewline(f.buffer);
    HasNewline(f.buffer, data[f.offset..]);
  }

  lemma EndMissExact(c: Codec, w: World, f: Follower, l: Leaving)
    requires FollowerOk(w, f) && Sound(w, f) && ReadRecord(f.buffer).AtEof?
    requires l.Held? ==> f.offset == |w.files[f.current]|
    ensures MissExact(c, w, Here(f, l))
  {
    EndMisses(c, w, f, l);
    if Unreadable(c, w, Here(f, l)) {
      UnreadableMisses(c, w, Here(f, l));
    }
  }

  /** Nothing is out of place at the end of the active file: on with the deadline or a nap. */
  lemma NapPresent(w: World, f: Follower, expired: bool)
    requires Present(w, f) && f.pc.AtEnd? && w.active == Some(f.current)
    ensures !Inspect(w, f, f.offset)
    ensures Present(w, AfterEnd(w, f, expired)) && SameDelivery(f, AfterEnd(w, f, expired))
    ensures !AfterEnd(w, f, expired).pc.Boundary? && AfterEnd(w, f, expired).pc != Returned(true)
  {
    InspectExact(w, f, f.offset);
    ActiveIsNewest(w);
    AnchoredSound(w, f);
    CheckpointSound(w, Anchored(w, f), AfterEnd(w, f, expired));
  }

  lemma CheckpointSound(w: World, f: Follower, f': Follower)
    requires FollowerOk(w, f) && Sound(w, f)
    requires f' == f.(pc := f'.pc, source := f'.source, checkpoint := f'.checkpoint) && FollowerOk(w, f')
    requires f'.checkpoint == f.checkpoint || f'.checkpoint == CheckpointAt(w.files[f.current], f.offset)
    ensures Sound(w, f')
  {
  }

  lemma AfterEndKeeps(c: Codec, q: Query, w: World, f: Follower, expired: bool)
    requires Present(w, f) && Past(c, q, w, f) && f.pc.AtEnd?
    ensures Present(w, AfterEnd(w, f, expired)) && Past(c, q, w, AfterEnd(w, f, expired))
  {
    if w.active != Some(f.current) {
      EndMissExact(c, w, f, LeavingOf(w, f));
      LeavesAtBoundary(c, q, w, f);
    } else {
      NapPresent(w, f, expired);
      SameDeliveryKeeps(c, q, w, f, AfterEnd(w, f, expired));
    }
  }

  lemma AfterSleepKeeps(c: Codec, q: Query, w: World, f: Follower)
    requires Present(w, f) && Past(c, q, w, f) && f.pc.Sleeping?
    ensures Present(w, AfterSleep(w, f)) && Past(c, q, w, AfterSleep(w, f))
  {
    InspectExact(w, f, f.offset);
    if w.active != Some(f.current) {
      EndMissExact(c, w, f, LeavingOf(w, f));
      LeavesAtBoundary(c, q, w, f);
    } else {
      AnchoredSound(w, f);
      SameDeliveryKeeps(c, q, w, f, AfterSleep(w, f));
    }
  }

  // ---------- On to the next generation ----------

  lemma EnterPresent(w: World, f: Follower, age: nat, queued: seq<nat>, leaving: Leaving)
    requires WorldOk(w) && |f.buffer| <= f.offset && FollowerOk(w, Enter(w, f, age, queued, leaving))
    ensures Present(w, Enter(w, f, age, queued, leaving))
  {
  }

  lemma EnterPast(c: Codec, q: Query, w: World, f: Follower, age: nat, queued: seq<nat>, leaving: Leaving)
    requires Past(c, q, w, f) && FollowerOk(w, Enter(w, f, age, queued, leaving))
    requires MissExact(c, w, Here(f, leaving)) && Follows(Here(f, leaving), age) && !leaving.Again?
    ensures Past(c, q, w, Enter(w, f, age, queued, leaving))
  {
    var f' := Enter(w, f, age, queued, leaving);
    EnterOrdered(c, q, w, f, f', Here(f, leaving));
    EnterInOrder(f, f', Here(f, leaving));
  }

  lemma EnterOrdered(c: Codec, q: Query, w: World, f: Follower, f': Follower, v: Visit)
    requires FollowerOk(w, f) && FollowerOk(w, f') && Ordered(c, q, w, f)
    requires v == Here(f, v.leaving) && f'.left == f.left + [v] && f'.emitted == f.emitted
    requires f'.lines == [] && f'.offset == 0
    ensures Ordered(c, q, w, f')
  {
    assert f'.left[..|f'.left| - 1] == f.left;
    assert w.files[f'.current][..0] == "";
    assert EventsOfAll(c, q, f'.left) == EventsOfAll(c, q, f.left) + EventsIn(c, q, f.lines);
  }

  lemma EnterInOrder(f: Follower, f': Follower, v: Visit)
    requires InOrder(f) && f'.left == f.left + [v] && v.age == f.current && Follows(v, f'.current) && !v.leaving.Again?
    ensures InOrder(f')
  {
    forall i | 0 <= i < |f'.left| - 1
      ensures Follows(f'.left[i], f'.left[i + 1].age)
    {
      assert f'.left[i] == f.left[i];
      if i + 1 < |f.left| {
        assert f'.left[i + 1] == f.left[i + 1];
      }
    }
  }

  lemma CrossKeeps(c: Codec, q: Query, w: World, f: Follower)
    requires Present(w, f) && Past(c, q, w, f) && f.pc.Boundary?
    ensures Present(w, Cross(w, f)) && Past(c, q, w, Cross(w, f))
  {
    CrossArrives(w, f);
    var f' := Cross(w, f);
    if f'.pc.Reading? {
      CrossEnters(c, q, w, f);
    } else {
      CrossStays(c, q, w, f, f');
    }
  }

  lemma CrossStays(c: Codec, q: Query, w: World, f: Follower, f': Follower)
    requires Present(w, f) && Past(c, q, w, f) && f.pc.Boundary? && FollowerOk(w, f')
    requires f' == f.(pc := f'.pc) && (f'.pc == Returned(true) || f'.pc == Failed(GapError))
    ensures Present(w, f') && Past(c, q, w, f')
  {
    assert Here(f', LeavingOf(w, f')) == Here(f, LeavingOf(w, f));
    SameDeliveryKeeps(c, q, w, f, f');
  }

  lemma CrossEnters(c: Codec, q: Query, w: World, f: Follower)
    requires Present(w, f) && Past(c, q, w, f) && f.pc.Boundary? && Cross(w, f).pc.Reading?
    requires FollowerOk(w, Cross(w, f)) && Cross(w, f).current == f.current + 1
    ensures Present(w, Cross(w, f)) && Past(c, q, w, Cross(w, f))
  {
    var next := if f.queued == [] then Successors(w, f.current).value else f.queued;
    EnterPresent(w, f, next[0], next[1..], LeavingOf(w, f));
    EnterPast(c, q, w, f, next[0], next[1..], LeavingOf(w, f));
  }

  lemma LeavingAside(c: Codec, w: World, f: Follower, l: Leaving)
    requires FollowerOk(w, f) && MissExact(c, w, Here(f, l))
    ensures MissExact(c, w, Here(f, Last))
  {
    var v, v' := Here(f, l), Here(f, Last);
    assert Missed(w, v) == Missed(w, v') && Unreadable(c, w, v) == Unreadable(c, w, v');
  }

  lemma ReattachKeeps(c: Codec, q: Query, w: World, f: Follower, expired: bool)
    requires Present(w, f) && Past(c, q, w, f) && f.pc == Returned(true)
    ensures Present(w, Reattach(w, f, expired)) && Past(c, q, w, Reattach(w, f, expired))
  {
    if w.active.Some? {
      ActiveIsNewest(w);
      LeavingAside(c, w, f, LeavingOf(w, f));
      EnterPresent(w, f, w.active.value, [], Last);
      EnterPast(c, q, w, f, w.active.value, [], Last);
    } else if expired {
      SameDeliveryKeeps(c, q, w, f, f.(pc := Returned(false)));
    }
  }

  lemma StepKeepsInv(c: Codec, q: Query, s: Sys, m: Move)
    requires Inv(c, q, s) && (m.Writer? ==> Spares(s.world, s.follower, m.move))
    ensures Inv(c, q, Step(c, q, s, m))
  {
    match m
    case Writer(move) => WriterKeepsInv(c, q, s, move);
    case Follow(expired, n) =>
      match s.follower.pc
      case Reading => ReadKeeps(c, q, s.world, s.follower, n);
      case AtEnd => AfterEndKeeps(c, q, s.world, s.follower, expired);
      case Sleeping => AfterSleepKeeps(c, q, s.world, s.follower);
      case Boundary(_) => CrossKeeps(c, q, s.world, s.follower);
      case Returned(true) => ReattachKeeps(c, q, s.world, s.follower, expired);
      case _ =>
  }

  lemma {:induction false} RunKeepsInv(c: Codec, q: Query, s: Sys, moves: seq<Move>)
    requires Inv(c, q, s) && Gentle(c, q, s, moves)
    ensures Inv(c, q, Run(c, q, s, moves))
    decreases |moves|
  {
    if moves != [] {
      StepKeepsInv(c, q, s, moves[0]);
      RunKeepsInv(c, q, Step(c, q, s, moves[0]), moves[1..]);
    }
  }

  lemma AttachHolds(c: Codec, q: Query, w: World, age: nat)
    requires WorldOk(w) && age < |w.files|
    ensures Inv(c, q, Sys(w, Attach(w, age)))
  {
    AttachOrdered(c, q, w, age);
  }

  lemma AttachOrdered(c: Codec, q: Query, w: World, age: nat)
    requires WorldOk(w) && age < |w.files|
    ensures FollowerOk(w, Attach(w, age)) && Ordered(c, q, w, Attach(w, age))
  {
    assert w.files[age][..0] == "";
    assert EventsOfAll(c, q, []) == [] && EventsIn(c, q, []) == [];
  }

  // ---------- Every interleaving that spares what was read ----------

  /**
   However a writer and a follower interleave, as long as no repair takes away
   bytes the follower had read: the generations are visited one age after
   another, none twice, save that a follower without any successor in sight
   goes on with whatever becomes active; and the events emitted are those of
   the delivered part of each, in order and once.
   */
  lemma FollowsInOrder(c: Codec, q: Query, w: World, age: nat, moves: seq<Move>)
    requires WorldOk(w) && age < |w.files| && Gentle(c, q, Sys(w, Attach(w, age)), moves)
    ensures var s := Run(c, q, Sys(w, Attach(w, age)), moves);
            var f := s.follower;
            && |f.buffer| <= f.offset
            && (forall i | 0 <= i < |f.left| - 1 :: Follows(f.left[i], f.left[i + 1].age))
            && (f.left != [] ==> Follows(f.left[|f.left| - 1], f.current))
            && (forall v | v in f.left :: v.age < f.current && !v.leaving.Again?)
            && f.emitted == EventsOfAll(c, q, f.left + [Here(f, Last)])
            && (forall v | v in f.left + [Here(f, Last)] :: DeliveredWhole(c, s.world, v))
  {
    AttachHolds(c, q, w, age);
    RunKeepsInv(c, q, Sys(w, Attach(w, age)), moves);
    var f := Run(c, q, Sys(w, Attach(w, age)), moves).follower;
    assert (f.left + [Here(f, Last)])[..|f.left|] == f.left;
  }

  /**
   In such a run, exactly when a generation is left with a complete line not
   delivered: when the next line could not be decoded, or when a line was
   completed behind the point up to which the follower had read. A generation
   whose successor was held already can only be left because of a bad line.
   */
  lemma MissesExactly(c: Codec, q: Query, w: World, age: nat, moves: seq<Move>)
    requires WorldOk(w) && age < |w.files| && Gentle(c, q, Sys(w, Attach(w, age)), moves)
    ensures var s := Run(c, q, Sys(w, Attach(w, age)), moves);
            forall v | v in s.follower.left ::
              && (Missed(s.world, v) <==> Unreadable(c, s.world, v) || CompletedLater(s.world, v))
              && (v.leaving.Held? && Missed(s.world, v) ==> Unreadable(c, s.world, v))
  {
    AttachHolds(c, q, w, age);
    RunKeepsInv(c, q, Sys(w, Attach(w, age)), moves);
  }

  /** What was delivered of a generation is what a reader of that much of the file sees, without error. */
  lemma DeliveredIsRead(c: Codec, q: Query, w: World, v: Visit)
    requires DeliveredWhole(c, w, v)
    ensures Stream(c, q, w.files[v.age][..v.delivered]) == Streamed(EventsIn(c, q, v.lines), None)
  {
    TextStreams(c, q, v.lines);
  }

  /** And if no line was missed, that is all of the file up to its last newline. */
  lemma NotMissedIsAll(c: Codec, q: Query, w: World, v: Visit)
    requires DeliveredWhole(c, w, v)
    ensures Missed(w, v) <==> w.files[v.age][..v.delivered] != Whole(w.files[v.age])
    ensures !Missed(w, v) ==> Stream(c, q, Whole(w.files[v.age])) == Streamed(EventsIn(c, q, v.lines), None)
  {
    var data, d := w.files[v.age], v.delivered;
    TextStreams(c, q, v.lines);
    assert d > 0 ==> data[..d][d - 1] == data[d - 1];
    if Missed(w, v) {
      var k :| d <= k < |data| && data[k] == '\n';
      NoneAfter(data, 0, |data|);
      assert |Whole(data)| > k;
    } else {
      assert forall k | d <= k < |data| :: data[d..][k - d] == data[k];
      LastNewlineIs(data, 0, d - 1);
    }
  }

  /** A gap is reported exactly when the generation left has itself been rotated away. */
  lemma GapExactly(w: World, f: Follower)
    requires WorldOk(w) && FollowerOk(w, f) && f.pc.Boundary?
    ensures Cross(w, f).pc == Failed(GapError) <==> f.queued == [] && f.current + |Generations(w)| < |w.files|
  {
    if w.active == Some(f.current) {
      SuccessorOfActive(w, f.current);
      ActiveIsNewest(w);
      return;
    }
    SuccessorsConsecutive(w, f.current);
    var gens := Generations(w);
    var i := f.current + |gens| - |w.files|;
    if i >= 0 {
      assert gens[i] == f.current;
    }
    assert f.current in gens ==> i >= 0;
  }

  /**
   A terminated record that does not decode ends the attachment with an error
   only while its file is the active one. Once the file was rotated away the
   record, and all behind it, is passed over in silence.
   */
  lemma MalformedExactly(c: Codec, q: Query, w: World, f: Follower, n: nat)
    requires FollowerOk(w, f) && Sound(w, f) && f.pc.Reading?
    requires ReadRecord(f.buffer).Line? && c.decode(ReadRecord(f.buffer).line).None?
    ensures var pc := Read(c, q, w, f, n).pc;
            && (pc == Boundary(false) <==> w.active != Some(f.current))
            && (pc == Failed(RecordError) <==> w.active == Some(f.current))
  {
    ReadsLine(f.buffer);
    InspectExact(w, f, f.offset - Min(n, |ReadRecord(f.buffer).rest|));
  }

  // ---------- Every interleaving at all ----------

  /** Where a step looks whether a boundary has come, and how far it takes the file to be read. */
  function InspectsAt(c: Codec, f: Follower, n: nat): Option<nat>
    requires |f.buffer| <= f.offset
  {
    match f.pc
    case AtEnd => Some(f.offset)
    case Sleeping => Some(f.offset)
    case Reading =>
      (match ReadRecord(f.buffer)
       case Line(line, rest) =>
         ReadsLine(f.buffer);
         if c.decode(line).None? then Some(f.offset - Min(n, |rest|)) else None
       case _ => None)
    case _ => None
  }

  /**
   A step stands at a boundary with the path still naming the file exactly if an
   inspection found the file changed.
   */
  lemma ChangeExactly(c: Codec, q: Query, w: World, f: Follower, expired: bool, n: nat)
    requires WorldOk(w) && FollowerOk(w, f) && !f.pc.Boundary?
    ensures var at, pc := InspectsAt(c, f, n), FollowerStep(c, q, w, f, expired, n).pc;
            && (pc == Boundary(true) <==> at.Some? && w.active == Some(f.current) && Changed(w, f, at.value))
            && (pc == Boundary(false) <==> at.Some? && w.active != Some(f.current))
  {
    if ReadRecord(f.buffer).Line? {
      ReadsLine(f.buffer);
    }
  }

  /**
   Whatever the writer does, a generation is entered once more exactly from a
   boundary where an inspection had found the file changed, if the path still
   names it when the successor is looked up.
   */
  lemma EntersAgainExactly(c: Codec, q: Query, s: Sys, moves: seq<Move>)
    requires WorldOk(s.world) && FollowerOk(s.world, s.follower) && Run(c, q, s, moves).follower.pc.Boundary?
    ensures var s' := Run(c, q, s, moves);
            && |s'.follower.buffer| <= s'.follower.offset
            && var f' := Cross(s'.world, s'.follower);
            && (f'.pc.Reading? && f'.current == s'.follower.current
                <==> s'.follower.pc.changed && s'.world.active == Some(s'.follower.current))
            && (f'.pc.Reading? && f'.current == s'.follower.current ==> f'.left[|f'.left| - 1].leaving == Again)
  {
    RunKeepsOk(c, q, s, moves);
    var s' := Run(c, q, s, moves);
    CrossArrives(s'.world, s'.follower);
    if s'.world.active == Some(s'.follower.current) {
      SuccessorOfActive(s'.world, s'.follower.current);
    }
  }

  ghost predicate Ages(f: Follower) {
    && (forall i | 0 <= i < |f.left| - 1 :: Follows(f.left[i], f.left[i + 1].age))
    && (f.left != [] ==> Follows(f.left[|f.left| - 1], f.current))
  }

  lemma EnterAges(f: Follower, f': Follower, v: Visit)
    requires Ages(f) && f'.left == f.left + [v] && v.age == f.current && Follows(v, f'.current)
    ensures Ages(f')
  {
    forall i | 0 <= i < |f'.left| - 1
      ensures Follows(f'.left[i], f'.left[i + 1].age)
    {
      assert f'.left[i] == f.left[i];
      if i + 1 < |f.left| {
        assert f'.left[i + 1] == f.left[i + 1];
      }
    }
  }

  lemma CrossKeepsAges(w: World, f: Follower)
    requires WorldOk(w) && FollowerOk(w, f) && f.pc.Boundary? && Ages(f)
    ensures Ages(Cross(w, f))
  {
    if Cross(w, f).pc.Reading? {
      CrossLeaves(w, f);
      EnterAges(f, Cross(w, f), Here(f, LeavingOf(w, f)));
    } else {
      CrossArrives(w, f);
    }
  }

  lemma ReattachKeepsAges(w: World, f: Follower, expired: bool)
    requires WorldOk(w) && FollowerOk(w, f) && f.pc == Returned(true) && Ages(f)
    ensures Ages(Reattach(w, f, expired))
  {
    if w.active.Some? {
      ActiveIsNewest(w);
      EnterAges(f, Reattach(w, f, expired), Here(f, Last));
    }
  }

  lemma StepKeepsAges(c: Codec, q: Query, s: Sys, m: Move)
    requires WorldOk(s.world) && FollowerOk(s.world, s.follower) && Ages(s.follower)
    ensures Ages(Step(c, q, s, m).follower)
  {
    if m.Follow? {
      match s.follower.pc
      case Boundary(_) => CrossKeepsAges(s.world, s.follower);
      case Returned(true) => ReattachKeepsAges(s.world, s.follower, m.expired);
      case _ =>
    }
  }

  lemma CrossLeaves(w: World, f: Follower)
    requires WorldOk(w) && FollowerOk(w, f) && f.pc.Boundary? && Cross(w, f).pc.Reading?
    ensures Cross(w, f).left == f.left + [Here(f, LeavingOf(w, f))]
    ensures Follows(Here(f, LeavingOf(w, f)), Cross(w, f).current)
  {
    CrossArrives(w, f);
    ActiveIsNewest(w);
  }

  /** In every run the ages visited follow each other by the way each generation was left. */
  lemma {:induction false} EveryRunAges(c: Codec, q: Query, s: Sys, moves: seq<Move>)
    requires WorldOk(s.world) && FollowerOk(s.world, s.follower) && Ages(s.follower)
    ensures Ages(Run(c, q, s, moves).follower)
    decreases |moves|
  {
    if moves != [] {
      StepKeepsAges(c, q, s, moves[0]);
      StepKeepsOk(c, q, s, moves[0]);
      EveryRunAges(c, q, Step(c, q, s, moves[0]), moves[1..]);
    }
  }

  /** A follower that waited skips a generation exactly if more than one was created in the meantime. */
  lemma SkipsExactly(c: Codec, q: Query, s: Sys, moves: seq<Move>)
    requires WorldOk(s.world) && FollowerOk(s.world, s.follower) && s.follower.pc == Returned(true)
    requires s.follower.current == |s.world.files| - 1
    requires forall i | 0 <= i < |moves| :: moves[i].Writer?
    requires Run(c, q, s, moves).world.active.Some?
    ensures var s' := Run(c, q, s, moves);
            && s'.follower == s.follower
            && Reattach(s'.world, s'.follower, false).current == s.follower.current + |s'.world.files| - |s.world.files|
  {
    WriterRunKeeps(c, q, s, moves);
    RunKeepsOk(c, q, s, moves);
    ActiveIsNewest(Run(c, q, s, moves).world);
  }

  lemma {:induction false} WriterRunKeeps(c: Codec, q: Query, s: Sys, moves: seq<Move>)
    requires WorldOk(s.world) && FollowerOk(s.world, s.follower)
    requires forall i | 0 <= i < |moves| :: moves[i].Writer?
    ensures Run(c, q, s, moves).follower == s.follower
    decreases |moves|
  {
    if moves != [] {
      StepKeepsOk(c, q, s, moves[0]);
      assert forall i | 0 <= i < |moves[1..]| :: moves[1..][i] == moves[i + 1];
      WriterRunKeeps(c, q, Step(c, q, s, moves[0]), moves[1..]);
    }
  }

  // ---------- A follower that does not hear any more ----------

  /** Its reader is exhausted in the middle of a line, and its file is the active one. */
  ghost predicate Deaf(s: Sys) {
    && s.world.active == Some(s.follower.current)
    && s.follower.source.Spent? && ReadRecord(s.follower.buffer).AtEof?
    && (s.follower.pc.Reading? || s.follower.pc.AtEnd? || s.follower.pc.Sleeping?)
  }

  /** Steps of a writer that only appends and of a follower whose deadline has not come. */
  predicate OnlyAppends(m: Move) {
    match m
    case Writer(move) => move.Grow?
    case Follow(expired, _) => !expired
  }

  lemma DeafStep(c: Codec, q: Query, s: Sys, m: Move)
    requires Inv(c, q, s) && Deaf(s) && OnlyAppends(m)
    ensures var s' := Step(c, q, s, m);
            Inv(c, q, s') && Deaf(s') && s'.follower.emitted == s.follower.emitted
            && s'.follower.offset == s.follower.offset && s'.follower.current == s.follower.current
  {
    StepKeepsInv(c, q, s, m);
    if m.Follow? && !s.follower.pc.Reading? {
      InspectExact(s.world, s.follower, s.follower.offset);
    }
  }

  /** A follower that never naps on an unterminated end keeps reading the file itself. */
  predicate NapsTorn(f: Follower, m: Move) {
    m.Follow? && f.pc.AtEnd? && f.buffer != ""
  }

  ghost predicate NeverNapsTorn(c: Codec, q: Query, s: Sys, moves: seq<Move>)
    decreases |moves|
  {
    moves == [] || !WorldOk(s.world) || !FollowerOk(s.world, s.follower) ||
    (!NapsTorn(s.follower, moves[0]) && NeverNapsTorn(c, q, Step(c, q, s, moves[0]), moves[1..]))
  }

  lemma {:induction false} HearsWithoutTornNaps(c: Codec, q: Query, s: Sys, moves: seq<Move>)
    requires s.follower.source.Direct? && NeverNapsTorn(c, q, s, moves)
    ensures Run(c, q, s, moves).follower.source.Direct?
    decreases |moves|
  {
    if moves != [] && WorldOk(s.world) && FollowerOk(s.world, s.follower) {
      HearsWithoutTornNaps(c, q, Step(c, q, s, moves[0]), moves[1..]);
    }
  }

  /** However much is appended to the active file, and however often it looks, such a follower delivers nothing. */
  lemma {:induction false} StaysDeaf(c: Codec, q: Query, s: Sys, moves: seq<Move>)
    requires Inv(c, q, s) && Deaf(s) && forall i | 0 <= i < |moves| :: OnlyAppends(moves[i])
    ensures var s' := Run(c, q, s, moves);
            Inv(c, q, s') && Deaf(s') && s'.follower.emitted == s.follower.emitted
            && s'.follower.offset == s.follower.offset && s'.follower.current == s.follower.current
    decreases |moves|
  {
    if moves != [] {
      DeafStep(c, q, s, moves[0]);
      assert forall i | 0 <= i < |moves[1..]| :: moves[1..][i] == moves[i + 1];
      StaysDeaf(c, q, Step(c, q, s, moves[0]), moves[1..]);
    }
  }

  // ---------- Lines and their events ----------

  lemma EventsExtend(c: Codec, q: Query, lines: seq<Bytes>, line: Bytes, e: Event)
    requires c.decode(line) == Some(e)
    ensures EventsIn(c, q, lines + [line]) == EventsIn(c, q, lines) + Selected(e, q)
  {
    assert (lines + [line])[..|lines|] == lines;
  }

  lemma Assoc<T>(a: seq<T>, b: seq<T>, d: seq<T>)
    ensures a + b + d == a + (b + d)
  {
  }

  /** The events of a delivered part are those of a plain reading of that part. */
  lemma {:induction false} TextStreams(c: Codec, q: Query, lines: seq<Bytes>)
    requires forall line | line in lines :: Readable(c, line)
    ensures EndsWhole(Text(lines)) && Stream(c, q, Text(lines)) == Streamed(EventsIn(c, q, lines), None)
    decreases |lines|
  {
    if lines == [] {
      assert Stream(c, q, "") == Streamed([], None);
    } else {
      var init, last := lines[..|lines| - 1], lines[|lines| - 1];
      assert last in lines && Readable(c, last);
      TextStreams(c, q, init);
      TextStreamsMore(c, q, Text(init), last);
    }
  }

  lemma TextStreamsMore(c: Codec, q: Query, text: Bytes, line: Bytes)
    requires EndsWhole(text) && Stream(c, q, text).error.None? && Readable(c, line)
    ensures EndsWhole(text + line)
    ensures Stream(c, q, text + line) == Streamed(Stream(c, q, text).emitted + StreamLine(c, q, line).emitted, None)
  {
    LastOfConcat(text, line);
    StreamOneLine(c, q, line);
    StreamSplit(c, q, text, line);
  }

  lemma LastOfConcat(text: Bytes, line: Bytes)
    requires EndsWhole(line) && (line != "" || EndsWhole(text))
    ensures EndsWhole(text + line)
  {
    if line == "" {
      assert text + line == text;
    } else {
      assert (text + line)[|text + line| - 1] == line[|line| - 1];
    }
  }

  lemma StreamOneLine(c: Codec, q: Query, line: Bytes)
    requires ReadRecord(line) == Line(line, "")
    ensures Stream(c, q, line) == StreamLine(c, q, line) && line != ""
  {
    assert Stream(c, q, "") == Streamed([], None);
    ThenNothing(StreamLine(c, q, line));
  }

}
