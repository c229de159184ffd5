/**
 That a follower gets on: it drains what can be read, notices after a nap that
 its file was rewritten, and returns for good exactly at its deadline.
 */
module EventFollowReturns {
  import opened Wrappers
  import opened EventCodec
  import opened EventStream
  import opened EventFollow
  import opened EventFollowOrder

  // ---------- The deadline ----------

  /** The path still names the file, which is not shorter than what was read and reads as remembered. */
  predicate Unchanged(w: World, f: Follower)
    requires f.current < |w.files|
  {
    var data := w.files[f.current];
    && w.active == Some(f.current) && f.offset <= |data| && f.anchor <= data[..Min(4096, |data|)]
    && (f.checkpoint.data == "" || (f.checkpoint.offset <= |data|
                                    && f.checkpoint.data <= data[f.checkpoint.offset..]))
  }

  /** The deadline has passed where a follower looks at it: at the end of an unchanged file, or waiting for one. */
  predicate DeadlineMet(s: Sys, m: Move) {
    && m.Follow? && m.expired && s.follower.current < |s.world.files|
    && ((s.follower.pc.AtEnd? && Unchanged(s.world, s.follower))
        || (s.follower.pc == Returned(true) && s.world.active.None?))
  }

  /** A step ends a follower for good exactly there. */
  lemma ReturnsExactly(c: Codec, q: Query, s: Sys, m: Move)
    requires WorldOk(s.world) && FollowerOk(s.world, s.follower)
    ensures Step(c, q, s, m).follower.pc == Returned(false) <==> s.follower.pc == Returned(false) || DeadlineMet(s, m)
  {
    var w, f := s.world, s.follower;
    assert Take(w.files[f.current], ANCHOR_LIMIT) == w.files[f.current][..Min(4096, |w.files[f.current]|)];
    if m.Follow? && f.pc.Boundary? {
      CrossArrives(w, f);
    }
  }

  /** Somewhere along the run the deadline is met. */
  ghost predicate MeetsDeadline(c: Codec, q: Query, s: Sys, moves: seq<Move>)
    decreases |moves|
  {
    moves != [] && WorldOk(s.world) && FollowerOk(s.world, s.follower)
    && (DeadlineMet(s, moves[0]) || MeetsDeadline(c, q, Step(c, q, s, moves[0]), moves[1..]))
  }

  /** Over a run: a follower has returned for good if and only if the deadline was met on the way. */
  lemma {:induction false} RunReturnsExactly(c: Codec, q: Query, s: Sys, moves: seq<Move>)
    requires WorldOk(s.world) && FollowerOk(s.world, s.follower) && s.follower.pc != Returned(false)
    ensures Run(c, q, s, moves).follower.pc == Returned(false) <==> MeetsDeadline(c, q, s, moves)
    decreases |moves|
  {
    if moves != [] {
      var s' := Step(c, q, s, moves[0]);
      StepKeepsOk(c, q, s, moves[0]);
      ReturnsExactly(c, q, s, moves[0]);
      if s'.follower.pc == Returned(false) {
        StaysReturned(c, q, s', moves[1..]);
      } else {
        RunReturnsExactly(c, q, s', moves[1..]);
      }
    }
  }

  lemma {:induction false} StaysReturned(c: Codec, q: Query, s: Sys, moves: seq<Move>)
    requires WorldOk(s.world) && FollowerOk(s.world, s.follower) && s.follower.pc == Returned(false)
    ensures Run(c, q, s, moves).follower == s.follower
    decreases |moves|
  {
    if moves != [] {
      StepKeepsOk(c, q, s, moves[0]);
      StaysReturned(c, q, Step(c, q, s, moves[0]), moves[1..]);
    }
  }

  /**
   What a follower that meets its deadline at the end of a file leaves undelivered:
   a complete line exactly if one was completed since it read up to there.
   */
  lemma DeadlineMisses(c: Codec, q: Query, w: World, age: nat, moves: seq<Move>, n: nat)
    requires WorldOk(w) && age < |w.files| && Gentle(c, q, Sys(w, Attach(w, age)), moves)
    requires Run(c, q, Sys(w, Attach(w, age)), moves).follower.pc.AtEnd?
    requires DeadlineMet(Run(c, q, Sys(w, Attach(w, age)), moves), Follow(true, n))
    ensures var s := Run(c, q, Sys(w, Attach(w, age)), moves);
            && WorldOk(s.world) && FollowerOk(s.world, s.follower)
            && var f := Step(c, q, s, Follow(true, n)).follower;
            && f.pc == Returned(false) && f.emitted == s.follower.emitted && |f.buffer| <= f.offset
            && (Missed(s.world, Here(f, Last)) <==> '\n' in s.world.files[f.current][f.offset..])
            && (f.offset == |s.world.files[f.current]| ==>
                  f.emitted == EventsOfAll(c, q, f.left) + Stream(c, q, Whole(s.world.files[f.current])).emitted)
  {
    AttachHolds(c, q, w, age);
    RunKeepsInv(c, q, Sys(w, Attach(w, age)), moves);
    var s := Run(c, q, Sys(w, Attach(w, age)), moves);
    var f := Step(c, q, s, Follow(true, n)).follower;
    ReturnsExactly(c, q, s, Follow(true, n));
    NapPresent(s.world, s.follower, true);
    EndMisses(c, s.world, s.follower, Last);
    EndMisses(c, s.world, f, Last);
    NotMissedIsAll(c, q, s.world, Here(s.follower, Last));
  }

  // ---------- A file rewritten during a nap ----------

  /** Up to 4096 bytes behind an offset. */
  function Behind(data: Bytes, offset: nat): Bytes
    requires offset <= |data|
  {
    data[if offset <= 4096 then 0 else offset - 4096..offset]
  }

  /**
   After a nap at the end of an unchanged file, the follower reads on in the file
   at the path if and only if that still is the same file, at least as long as
   what was read, with the same bytes behind that point and at its start.
   */
  lemma NapNoticesExactly(w: World, f: Follower, w': World)
    requires f.current < |w.files| && f.current < |w'.files| && Unchanged(w, f)
    ensures var data, data' := w.files[f.current], w'.files[f.current];
            var nap := AfterEnd(w, f, false);
            && nap.pc.Sleeping? && nap.current == f.current && nap.offset == f.offset
            && nap.buffer == f.buffer && nap.emitted == f.emitted
            && (AfterSleep(w', nap).pc.Reading? || AfterSleep(w', nap).pc.Boundary?)
            && (AfterSleep(w', nap).pc.Reading? <==>
                && w'.active == Some(f.current) && f.offset <= |data'|
                && Behind(data', f.offset) == Behind(data, f.offset)
                && Remembered(data, f) <= data'[..Min(4096, |data'|)])
  {
    NapRemembers(w, f);
    NapWakes(w', AfterEnd(w, f, false), Behind(w.files[f.current], f.offset));
  }

  /** The start of the file as the follower knows it, which may be from only now on. */
  function Remembered(data: Bytes, f: Follower): Bytes {
    if f.anchor == "" then data[..Min(4096, |data|)] else f.anchor
  }

  lemma NapRemembers(w: World, f: Follower)
    requires f.current < |w.files| && Unchanged(w, f)
    ensures var data, nap := w.files[f.current], AfterEnd(w, f, false);
            && nap.pc.Sleeping? && nap.current == f.current && nap.offset == f.offset
            && nap.buffer == f.buffer && nap.emitted == f.emitted
            && nap.anchor == Remembered(data, f)
            && nap.checkpoint == Checkpoint(if f.offset <= 4096 then 0 else f.offset - 4096, Behind(data, f.offset))
  {
    var data := w.files[f.current];
    assert Take(data, ANCHOR_LIMIT) == data[..Min(4096, |data|)];
  }

  lemma NapWakes(w: World, nap: Follower, behind: Bytes)
    requires nap.current < |w.files| && nap.checkpoint.data == behind && |behind| == Min(4096, nap.offset)
    requires nap.checkpoint.offset == nap.offset - |behind|
    ensures var data := w.files[nap.current];
            && (AfterSleep(w, nap).pc.Reading? || AfterSleep(w, nap).pc.Boundary?)
            && (AfterSleep(w, nap).pc.Reading? <==>
                && w.active == Some(nap.current) && nap.offset <= |data|
                && Behind(data, nap.offset) == behind && nap.anchor <= data[..Min(4096, |data|)])
  {
    var data, from := w.files[nap.current], nap.checkpoint.offset;
    assert Take(data, ANCHOR_LIMIT) == data[..Min(4096, |data|)];
    if nap.offset <= |data| {
      assert data[from..][..|behind|] == data[from..nap.offset] == Behind(data, nap.offset);
    }
  }

  /**
   A generation is entered at its start, with up to 4096 bytes of it remembered
   and nothing else. The generations held behind it are the other ones held
   before, or all that the lookup found up to the newest.
   */
  lemma EntersFresh(w: World, f: Follower)
    requires WorldOk(w) && FollowerOk(w, f) && f.pc.Boundary? && Cross(w, f).pc.Reading?
    ensures var f' := Cross(w, f);
            && f'.current < |w.files| && f'.anchor == w.files[f'.current][..Min(4096, |w.files[f'.current]|)]
            && f'.offset == 0 && f'.buffer == "" && f'.source.Direct? && f'.checkpoint.data == ""
            && f'.emitted == f.emitted
            && (f.queued != [] ==> [f'.current] + f'.queued == f.queued)
            && (f.queued == [] ==> f'.current + |f'.queued| == |w.files| - 1)
  {
    CrossArrives(w, f);
    ActiveIsNewest(w);
    if f.queued == [] {
      if w.active == Some(f.current) {
        SuccessorOfActive(w, f.current);
      } else {
        SuccessorsConsecutive(w, f.current);
      }
    }
  }

  /** A record over the limit ends a follower with an error, whatever its file has become. */
  lemma LongRecordFails(c: Codec, q: Query, w: World, f: Follower, n: nat)
    requires WorldOk(w) && FollowerOk(w, f) && f.pc.Reading?
    requires |f.buffer| > 0x10_0000 && '\n' !in f.buffer[..0x10_0001]
    ensures FollowerStep(c, q, w, f, false, n) == f.(pc := Failed(RecordError))
  {
    assert forall k | 0 <= k < 0x10_0001 :: f.buffer[k] == f.buffer[..0x10_0001][k];
  }

  // ---------- Draining a file ----------

  /** A record starts here. */
  predicate LineStart(data: Bytes, at: nat)
    requires at <= |data|
  {
    at == 0 || data[at - 1] == '\n'
  }

  ghost predicate ReadableAt(c: Codec, data: Bytes, at: nat)
    requires at <= |data|
  {
    var r := ReadRecord(data[at..]);
    !r.TooLarge? && (r.Line? ==> c.decode(r.line).Some?)
  }

  /** No record is too long, and every complete one decodes. */
  ghost predicate AllReadable(c: Codec, data: Bytes) {
    forall at | 0 <= at <= |data| && LineStart(data, at) :: ReadableAt(c, data, at)
  }

  /** Steps left until the end of the file, at most. */
  function Work(w: World, f: Follower): int
    requires f.current < |w.files|
  {
    2 * (|w.files[f.current]| - f.offset) + |f.buffer| + 1
  }

  /** The buffer is what stands in the file before the position, from the start of a record. */
  ghost predicate Buffered(w: World, f: Follower) {
    && f.current < |w.files| && |f.buffer| <= f.offset <= |w.files[f.current]|
    && f.buffer == w.files[f.current][f.offset - |f.buffer|..f.offset]
    && LineStart(w.files[f.current], f.offset - |f.buffer|)
  }

  /** A buffer over the limit is so with whatever follows it. */
  lemma TooLargePrefix(a: Bytes, b: Bytes)
    requires ReadRecord(a).TooLarge?
    ensures ReadRecord(a + b).TooLarge?
  {
    NoneBefore(a, 0);
    var i := FirstNewline(a + b);
    if i < |a| {
      assert a[i] == (a + b)[i] == '\n';
    }
  }

  /** What a part of a file reads as, the file reads as from there. */
  lemma PartReads(data: Bytes, from: nat, to: nat)
    requires from <= to <= |data|
    ensures ReadRecord(data[from..to]).TooLarge? ==> ReadRecord(data[from..]).TooLarge?
    ensures ReadRecord(data[from..to]).Line? ==>
              && ReadRecord(data[from..]).Line?
              && ReadRecord(data[from..]).line == ReadRecord(data[from..to]).line
  {
    var a, b := data[from..to], data[to..];
    SlicesJoin(data, from, to, |data|);
    if ReadRecord(a).TooLarge? {
      TooLargePrefix(a, b);
    } else if ReadRecord(a).Line? {
      ReadPrefix(a, b);
    }
  }

  /** A line at the front of a part: it ends in a newline, and the others follow it. */
  lemma PartSplits(data: Bytes, from: nat, to: nat, line: Bytes, rest: Bytes)
    requires from <= to <= |data| && ReadRecord(data[from..to]) == Line(line, rest)
    ensures 0 < |line| && from + |line| + |rest| == to
    ensures rest == data[to - |rest|..to] && LineStart(data, to - |rest|)
  {
    var a := data[from..to];
    ReadsLine(a);
    assert a[|line|..] == rest;
    assert line[|line| - 1] == a[|line| - 1] == data[from + |line| - 1];
  }

  lemma BufferReads(c: Codec, data: Bytes, from: nat, to: nat)
    requires from <= to <= |data| && LineStart(data, from) && AllReadable(c, data)
    ensures !ReadRecord(data[from..to]).TooLarge?
    ensures ReadRecord(data[from..to]).Line? ==> c.decode(ReadRecord(data[from..to]).line).Some?
  {
    PartReads(data, from, to);
    assert ReadableAt(c, data, from);
  }

  /** A line taken out of the buffer. */
  lemma TakesLine(w: World, f: Follower, line: Bytes, rest: Bytes)
    requires Buffered(w, f) && ReadRecord(f.buffer) == Line(line, rest)
    ensures |rest| < |f.buffer| && Buffered(w, f.(buffer := rest))
  {
    PartSplits(w.files[f.current], f.offset - |f.buffer|, f.offset, line, rest);
  }

  lemma FillBuffered(w: World, f: Follower, n: nat)
    requires Buffered(w, f) && f.offset < |w.files[f.current]|
    ensures Buffered(w, Fill(w, f, n)) && Work(w, Fill(w, f, n)) < Work(w, f)
  {
    SlicesJoin(w.files[f.current], f.offset - |f.buffer|, f.offset, Fill(w, f, n).offset);
  }

  /** One step towards the end of the file. */
  lemma ReadAdvances(c: Codec, q: Query, w: World, f: Follower, n: nat)
    requires Buffered(w, f) && AllReadable(c, w.files[f.current]) && f.pc.Reading? && !f.source.Spent?
    ensures var f' := Read(c, q, w, f, n);
            && f'.current == f.current && f'.left == f.left
            && if f'.pc.AtEnd? then f'.offset == |w.files[f.current]|
               else f'.pc.Reading? && !f'.source.Spent? && Buffered(w, f') && Work(w, f') < Work(w, f)
  {
    BufferReads(c, w.files[f.current], f.offset - |f.buffer|, f.offset);
    match ReadRecord(f.buffer)
    case AtEof(_) =>
      if f.offset < |w.files[f.current]| { FillBuffered(w, f, n); }
    case Line(line, rest) => TakesLine(w, f, line, rest);
  }

  /** A follower that can drain the file it reads. */
  ghost predicate Draining(c: Codec, q: Query, s: Sys) {
    && Inv(c, q, s) && Buffered(s.world, s.follower) && AllReadable(c, s.world.files[s.follower.current])
    && s.follower.pc.Reading? && !s.follower.source.Spent?
  }

  /** The state after one step of reading. */
  function ReadOn(c: Codec, q: Query, s: Sys, n: nat): Sys
    requires WorldOk(s.world) && FollowerOk(s.world, s.follower)
  {
    s.(follower := Read(c, q, s.world, s.follower, n))
  }

  lemma DrainStep(c: Codec, q: Query, s: Sys, n: nat)
    requires Draining(c, q, s)
    ensures var s1 := ReadOn(c, q, s, n);
            && s1.follower.current == s.follower.current && s1.follower.left == s.follower.left
            && if s1.follower.pc.AtEnd? then Drained(c, q, s, s1)
               else Draining(c, q, s1) && Work(s.world, s1.follower) < Work(s.world, s.follower)
  {
    ReadKeeps(c, q, s.world, s.follower, n);
    ReadAdvances(c, q, s.world, s.follower, n);
    if ReadOn(c, q, s, n).follower.pc.AtEnd? {
      DrainedAll(c, q, ReadOn(c, q, s, n));
    }
  }

  ghost predicate OnlyFollows(moves: seq<Move>) {
    forall i | 0 <= i < |moves| :: moves[i].Follow?
  }

  /** Everything up to the last newline has been emitted once the end of the file is reached. */
  lemma DrainedAll(c: Codec, q: Query, s: Sys)
    requires Inv(c, q, s) && s.follower.pc.AtEnd? && s.follower.offset == |s.world.files[s.follower.current]|
    ensures s.follower.emitted == EventsOfAll(c, q, s.follower.left)
                                + Stream(c, q, Whole(s.world.files[s.follower.current])).emitted
  {
    EndMisses(c, s.world, s.follower, Last);
    NotMissedIsAll(c, q, s.world, Here(s.follower, Last));
  }

  ghost predicate Drained(c: Codec, q: Query, s: Sys, s': Sys) {
    && s'.world == s.world && s'.follower.pc.AtEnd? && s'.follower.current == s.follower.current < |s.world.files|
    && s'.follower.offset == |s.world.files[s.follower.current]|
    && s'.follower.emitted == EventsOfAll(c, q, s.follower.left)
                              + Stream(c, q, Whole(s.world.files[s.follower.current])).emitted
  }

  /** Somewhere along the run from `s` the file that `origin` reads has been drained. */
  ghost predicate GetsDrained(c: Codec, q: Query, origin: Sys, s: Sys, moves: seq<Move>)
    decreases |moves|
  {
    Drained(c, q, origin, s) ||
    (moves != [] && WorldOk(s.world) && FollowerOk(s.world, s.follower)
     && GetsDrained(c, q, origin, Step(c, q, s, moves[0]), moves[1..]))
  }

  predicate SameFile(s: Sys, s': Sys) {
    s'.world == s.world && s'.follower.current == s.follower.current && s'.follower.left == s.follower.left
  }

  lemma DrainsOn(c: Codec, q: Query, origin: Sys, s: Sys, moves: seq<Move>)
    requires Draining(c, q, s) && SameFile(origin, s) && moves != [] && moves[0].Follow?
    requires var s1 := ReadOn(c, q, s, moves[0].n);
             s1.follower.pc.AtEnd? || GetsDrained(c, q, origin, s1, moves[1..])
    ensures GetsDrained(c, q, origin, s, moves)
  {
    DrainStep(c, q, s, moves[0].n);
    assert Step(c, q, s, moves[0]) == ReadOn(c, q, s, moves[0].n);
  }

  lemma {:induction false} DrainsFrom(c: Codec, q: Query, origin: Sys, s: Sys, moves: seq<Move>)
    requires Draining(c, q, s) && SameFile(origin, s)
    requires OnlyFollows(moves) && Work(s.world, s.follower) <= |moves|
    ensures GetsDrained(c, q, origin, s, moves)
    decreases |moves|
  {
    DrainStep(c, q, s, moves[0].n);
    if !ReadOn(c, q, s, moves[0].n).follower.pc.AtEnd? {
      OnlyFollowsTail(moves);
      DrainsFrom(c, q, origin, ReadOn(c, q, s, moves[0].n), moves[1..]);
    }
    DrainsOn(c, q, origin, s, moves);
  }

  /**
   A follower left alone with a file whose complete lines can all be read gets to
   its end, whatever the system hands out at a time, and by then has emitted the
   events of every complete line.
   */
  lemma Drains(c: Codec, q: Query, s: Sys, moves: seq<Move>)
    requires Draining(c, q, s) && OnlyFollows(moves) && Work(s.world, s.follower) <= |moves|
    ensures GetsDrained(c, q, s, s, moves)
  {
    DrainsFrom(c, q, s, s, moves);
  }

  lemma OnlyFollowsTail(moves: seq<Move>)
    requires OnlyFollows(moves) && moves != []
    ensures OnlyFollows(moves[1..])
  {
    assert forall i | 0 <= i < |moves[1..]| :: moves[1..][i] == moves[i + 1];
  }
}
