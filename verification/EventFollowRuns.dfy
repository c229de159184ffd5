/**
 Concrete runs of a follower in which something is lost, repeated or made up.
 When each of these can happen at all is proved in `EventFollowOrder`.
 */
module EventFollowRuns {
  import opened Wrappers
  import opened EventCodec
  import opened EventStream
  import opened EventFollow
  import opened EventFollowOrder

  ghost predicate Ok(s: Sys) {
    WorldOk(s.world) && FollowerOk(s.world, s.follower)
  }

  lemma RunOne(c: Codec, q: Query, s: Sys, m: Move, rest: seq<Move>) returns (s': Sys)
    requires Ok(s)
    ensures s' == Step(c, q, s, m) && Ok(s')
    ensures Run(c, q, s, [m] + rest) == Run(c, q, s', rest)
  {
    StepKeepsOk(c, q, s, m);
    s' := Step(c, q, s, m);
    assert ([m] + rest)[1..] == rest;
  }

  const LOOK := Follow(false, 0)

  /** A step of the follower that takes in all the file has, if it reads. */
  function Gulp(data: Bytes): Move {
    Follow(false, |data|)
  }

  function One(data: Bytes): World {
    World([data], None, None, Some(0))
  }

  lemma OneOk(data: Bytes)
    ensures WorldOk(One(data)) && Ok(Sys(One(data), Attach(One(data), 0)))
  {
    var w := One(data);
    assert Generations(w) == [0];
    assert |w.files| == 1 && w.files[0] == data;
    assert WorldOk(w);
  }

  /** A follower that has read all of a one-file log up to an unterminated end. */
  function AtFirstEnd(f: Follower, emitted: seq<Event>, buffer: Bytes, offset: nat): Follower {
    f.(pc := AtEnd, emitted := emitted, buffer := buffer, offset := offset)
  }

  // ---------- A line missed ----------

  /**
   A record appended after the follower met the end of the file is not delivered
   when the rotation behind it is noticed before the next read.
   */
  lemma FollowerMayMiss(c: Codec, q: Query, e: Event, record: Bytes)
    requires Lawful(c) && IsRecord(c, record) && c.decode(record) == Some(e) && Matches(e, q)
    ensures var line := record + "\n";
            var moves := [LOOK, Writer(Grow(line)), Writer(Rotate), Writer(Create), LOOK, LOOK];
            var s := Run(c, q, Sys(One(""), Attach(One(""), 0)), moves);
            && s.follower.current == 1 && s.follower.emitted == [] && s.world.files == [line, ""]
            && Stream(c, q, line).emitted == [e]
  {
    var line := record + "\n";
    OneOk("");
    var s0 := Sys(One(""), Attach(One(""), 0));
    var s1 := RunOne(c, q, s0, LOOK, [Writer(Grow(line)), Writer(Rotate), Writer(Create), LOOK, LOOK]);
    assert ReadRecord("") == AtEof("");
    assert s1 == Sys(One(""), s0.follower.(pc := AtEnd));
    var s2 := RunOne(c, q, s1, Writer(Grow(line)), [Writer(Rotate), Writer(Create), LOOK, LOOK]);
    assert "" + line == line;
    assert s2 == Sys(One(line), s1.follower);
    var s3 := RunOne(c, q, s2, Writer(Rotate), [Writer(Create), LOOK, LOOK]);
    var s4 := RunOne(c, q, s3, Writer(Create), [LOOK, LOOK]);
    assert [line] + [""] == [line, ""];
    assert s4 == Sys(World([line, ""], None, Some(0), Some(1)), s1.follower);
    MissedAtBoundary(c, q, s4, line);
    LineStream(c, q, e, record);
  }

  /** So is one appended before the follower meets its deadline there. */
  lemma DeadlineMayMiss(c: Codec, q: Query, e: Event, record: Bytes)
    requires Lawful(c) && IsRecord(c, record) && c.decode(record) == Some(e) && Matches(e, q)
    ensures var line := record + "\n";
            var moves := [LOOK, Writer(Grow(line)), Follow(true, 0)];
            var s := Run(c, q, Sys(One(""), Attach(One(""), 0)), moves);
            && s.follower.pc == Returned(false) && s.follower.emitted == [] && s.world.files == [line]
            && Stream(c, q, line).emitted == [e]
  {
    var line := record + "\n";
    OneOk("");
    var s0 := Sys(One(""), Attach(One(""), 0));
    var s1 := RunOne(c, q, s0, LOOK, [Writer(Grow(line)), Follow(true, 0)]);
    assert ReadRecord("") == AtEof("");
    assert s1 == Sys(One(""), s0.follower.(pc := AtEnd));
    var s2 := RunOne(c, q, s1, Writer(Grow(line)), [Follow(true, 0)]);
    assert "" + line == line;
    assert s2 == Sys(One(line), s1.follower);
    MissedAtDeadline(c, q, s2, line);
    LineStream(c, q, e, record);
  }

  lemma MissedAtDeadline(c: Codec, q: Query, s2: Sys, line: Bytes)
    requires Ok(s2) && s2.world == One(line) && s2.follower == Attach(One(""), 0).(pc := AtEnd)
    ensures var s := Run(c, q, s2, [Follow(true, 0)]);
            s.follower.pc == Returned(false) && s.follower.emitted == [] && s.world == s2.world
  {
    assert [Follow(true, 0)] + [] == [Follow(true, 0)];
    var s3 := RunOne(c, q, s2, Follow(true, 0), []);
    assert Run(c, q, s3, []) == s3;
    assert !Inspect(s2.world, s2.follower, 0);
  }

  lemma MissedAtBoundary(c: Codec, q: Query, s4: Sys, line: Bytes)
    requires Ok(s4) && s4.world == World([line, ""], None, Some(0), Some(1))
    requires s4.follower == Attach(One(""), 0).(pc := AtEnd)
    ensures var s := Run(c, q, s4, [LOOK, LOOK]);
            s.follower.current == 1 && s.follower.emitted == [] && s.world == s4.world
  {
    var s5 := RunOne(c, q, s4, LOOK, [LOOK]);
    assert s5.follower == s4.follower.(pc := Boundary(false));
    assert Generations(s5.world) == [0, 1];
    SuccessorsConsecutive(s5.world, 0);
    var s6 := RunOne(c, q, s5, LOOK, []);
    assert Run(c, q, s6, []) == s6;
  }

  lemma LineStream(c: Codec, q: Query, e: Event, record: Bytes)
    requires Lawful(c) && IsRecord(c, record) && c.decode(record) == Some(e) && Matches(e, q)
    ensures Stream(c, q, record + "\n").emitted == [e]
  {
    RecordFacts(c, record);
    StreamTerminated(c, q, record);
    StreamWholeTail(c, q, record);
  }

  // ---------- Pieces of runs ----------

  lemma {:induction false} RunConcat(c: Codec, q: Query, s: Sys, a: seq<Move>, b: seq<Move>)
    ensures Run(c, q, s, a + b) == Run(c, q, Run(c, q, s, a), b)
    decreases |a|
  {
    if a == [] {
      assert a + b == b;
    } else {
      assert (a + b)[0] == a[0] && (a + b)[1..] == a[1..] + b;
      if Ok(s) {
        RunConcat(c, q, Step(c, q, s, a[0]), a[1..], b);
      }
    }
  }

  lemma RunTwo(c: Codec, q: Query, s: Sys, m: Move, n: Move)
    requires Ok(s)
    ensures Ok(Step(c, q, s, m)) && Run(c, q, s, [m, n]) == Step(c, q, Step(c, q, s, m), n)
    ensures Ok(Run(c, q, s, [m, n]))
  {
    var s1 := RunOne(c, q, s, m, [n]);
    var s2 := RunOne(c, q, s1, n, []);
    assert Run(c, q, s2, []) == s2;
  }

  lemma WholeOfTorn(whole: Bytes, torn: Bytes)
    requires EndsWhole(whole) && '\n' !in torn
    ensures Whole(whole + torn) == whole
  {
    var data := whole + torn;
    assert forall k | |whole| <= k < |data| :: data[k] == torn[k - |whole|];
    assert whole != "" ==> data[|whole| - 1] == '\n';
    LastNewlineIs(data, 0, |whole| - 1);
  }

  lemma TornIsAtEof(torn: Bytes)
    requires '\n' !in torn && |torn| <= MAX_EVENT_RECORD_BYTES
    ensures ReadRecord(torn) == AtEof(torn)
  {
    FirstNewlineIs(torn, |torn|);
  }

  /** A follower at the start of a one-file log. */
  ghost predicate AtStart(data: Bytes, f: Follower) {
    && f.pc.Reading? && f.current == 0 && f.buffer == "" && f.offset == 0 && f.source.Direct? && f.queued == []
        && f.lines == []
    && f.anchor == Take(data, ANCHOR_LIMIT) && f.checkpoint == Checkpoint(0, "")
  }

  lemma Gulps(c: Codec, q: Query, data: Bytes, f: Follower)
    requires data != "" && AtStart(data, f) && Ok(Sys(One(data), f))
    ensures Step(c, q, Sys(One(data), f), Gulp(data)) == Sys(One(data), f.(buffer := data, offset := |data|))
  {
    assert ReadRecord("") == AtEof("");
    assert "" + data[0..|data|] == data;
  }

  /** It delivers the one line there is, and then holds the torn end. */
  function AfterLine(f: Follower, e: Event, line: Bytes, torn: Bytes): Follower {
    f.(lines := [line], buffer := torn, offset := |line + torn|, emitted := f.emitted + [e])
  }

  lemma DeliversLine(c: Codec, q: Query, e: Event, record: Bytes, torn: Bytes, f: Follower)
    requires Lawful(c) && IsRecord(c, record) && c.decode(record) == Some(e) && Matches(e, q)
    requires var data := record + "\n" + torn; AtStart(data, f) && Ok(Sys(One(data), f))
    ensures var data := record + "\n" + torn;
            && Run(c, q, Sys(One(data), f), [Gulp(data), LOOK]) == Sys(One(data), AfterLine(f, e, record + "\n", torn))
            && Ok(Sys(One(data), AfterLine(f, e, record + "\n", torn)))
  {
    var data := record + "\n" + torn;
    RecordFacts(c, record);
    ReadLine(record, torn);
    Gulps(c, q, data, f);
    RunTwo(c, q, Sys(One(data), f), Gulp(data), LOOK);
    assert f.lines + [record + "\n"] == [record + "\n"];
  }

  function Napping(f: Follower, data: Bytes): Follower {
    f.(pc := Sleeping, source := UntilEof, checkpoint := CheckpointAt(data, |data|))
  }

  /** With a torn end in hand the follower meets the end of the file and naps. */
  lemma NapsOnTorn(c: Codec, q: Query, data: Bytes, torn: Bytes, f: Follower)
    requires '\n' !in torn && 0 < |torn| <= MAX_EVENT_RECORD_BYTES && data != ""
    requires Ok(Sys(One(data), f)) && f.pc.Reading? && f.current == 0 && f.source.Direct? && f.queued == []
    requires f.buffer == torn && f.offset == |data| && f.anchor == Take(data, ANCHOR_LIMIT)
        && f.checkpoint == Checkpoint(0, "")
    ensures Run(c, q, Sys(One(data), f), [LOOK, LOOK]) == Sys(One(data), Napping(f, data))
    ensures Ok(Sys(One(data), Napping(f, data)))
  {
    TornIsAtEof(torn);
    RunTwo(c, q, Sys(One(data), f), LOOK, LOOK);
    assert Step(c, q, Sys(One(data), f), LOOK) == Sys(One(data), f.(pc := AtEnd));
    assert f.anchor != "";
  }

  // ---------- An event delivered twice ----------

  /** The next append cuts the torn end off, which the follower notices after its nap. */
  lemma NoticesRepair(c: Codec, q: Query, line: Bytes, torn: Bytes, f: Follower)
    requires EndsWhole(line) && '\n' !in torn && torn != "" && Ok(Sys(One(line + torn), f))
    requires f.pc.Sleeping? && f.current == 0 && f.queued == [] && f.offset == |line + torn|
    ensures var s := Run(c, q, Sys(One(line + torn), f), [Writer(Repair)] + [LOOK, LOOK]);
            Ok(s) && s.world == One(line) && AtStart(line, s.follower) && s.follower.emitted == f.emitted
  {
    WholeOfTorn(line, torn);
    var s1 := RunOne(c, q, Sys(One(line + torn), f), Writer(Repair), [LOOK, LOOK]);
    assert s1 == Sys(One(line), f);
    RunTwo(c, q, s1, LOOK, LOOK);
    assert Step(c, q, s1, LOOK) == Sys(One(line), f.(pc := Boundary(true)));
    SuccessorOfActive(One(line), 0);
  }

  /** A line and a torn end are read, the torn end is cut off, and the line is delivered again. */
  lemma FollowerMayRepeat(c: Codec, q: Query, e: Event, record: Bytes, torn: Bytes)
    requires Lawful(c) && IsRecord(c, record) && c.decode(record) == Some(e) && Matches(e, q)
    requires '\n' !in torn && 0 < |torn| <= MAX_EVENT_RECORD_BYTES
    ensures var line := record + "\n";
            var w := One(line + torn);
            var moves :=
                [Gulp(line + torn), LOOK] + ([LOOK, LOOK] + (([Writer(Repair)] + [LOOK, LOOK]) + [Gulp(line), LOOK]));
            var s := Run(c, q, Sys(w, Attach(w, 0)), moves);
            s.world == One(line) && s.follower.emitted == [e, e]
  {
    var line := record + "\n";
    var data := line + torn;
    var a, b, d, z := [Gulp(data), LOOK], [LOOK, LOOK], [Writer(Repair)] + [LOOK, LOOK], [Gulp(line), LOOK];
    OneOk(data);
    var f0 := Attach(One(data), 0);
    DeliversLine(c, q, e, record, torn, f0);
    var f1 := AfterLine(f0, e, line, torn);
    NapsOnTorn(c, q, data, torn, f1);
    NoticesRepair(c, q, line, torn, Napping(f1, data));
    var s3 := Run(c, q, Sys(One(data), Napping(f1, data)), d);
    assert record + "\n" + "" == line;
    DeliversLine(c, q, e, record, "", s3.follower);
    RunConcat(c, q, Sys(One(data), f0), a, b + (d + z));
    RunConcat(c, q, Sys(One(data), f1), b, d + z);
    RunConcat(c, q, Sys(One(data), Napping(f1, data)), d, z);
    assert [] + [e] == [e] && [e] + [e] == [e, e];
  }

  // ---------- An event nobody wrote ----------

  /** The torn end in hand, followed by the end of another record. */
  function Glued(torn: Bytes, record: Bytes): Bytes
    requires |torn| <= |record|
  {
    torn + record[|torn|..]
  }

  /** The torn end is replaced by a longer record, of which the follower reads the end. */
  lemma ReadsGlued(c: Codec, q: Query, e: Event, torn: Bytes, record: Bytes, f: Follower)
    requires Lawful(c) && IsRecord(c, record) && '\n' !in torn && 0 < |torn| <= |record|
    requires c.decode(Glued(torn, record)) == Some(e) && Matches(e, q)
    requires Ok(Sys(One(record + "\n"), f)) && f.pc.Reading? && f.current == 0 && !f.source.Spent? && f.emitted == []
    requires f.buffer == torn && f.offset == |torn|
    ensures var line := record + "\n";
            var s := Run(c, q, Sys(One(line), f), [Gulp(line), LOOK]);
            s.world == One(line) && s.follower.emitted == [e]
  {
    var line, glued := record + "\n", Glued(torn, record);
    RecordFacts(c, record);
    TornIsAtEof(torn);
    assert line[|torn|..] == record[|torn|..] + "\n";
    assert torn + line[|torn|..] == glued + "\n";
    RunTwo(c, q, Sys(One(line), f), Gulp(line), LOOK);
    assert Step(c, q, Sys(One(line), f), Gulp(line)) == Sys(One(line), f.(buffer := glued + "\n", offset := |line|));
    assert '\n' !in glued;
    ReadLine(glued, "");
    assert glued + "\n" + "" == glued + "\n";
  }

  lemma TornReplaced(c: Codec, q: Query, torn: Bytes, line: Bytes, f: Follower)
    requires '\n' !in torn && Ok(Sys(One(torn), f))
    ensures Run(c, q, Sys(One(torn), f), [Writer(Repair), Writer(Grow(line))]) == Sys(One(line), f)
    ensures Ok(Sys(One(line), f))
  {
    WholeOfTorn("", torn);
    assert "" + torn == torn && "" + line == line;
    RunTwo(c, q, Sys(One(torn), f), Writer(Repair), Writer(Grow(line)));
    assert Step(c, q, Sys(One(torn), f), Writer(Repair)) == Sys(One(""), f);
  }

  /**
   The follower has read a torn end and looked at the file a last time. Before it
   reads on, the torn end is replaced by a longer record. If the two in one give
   an event, that is delivered, although it is nowhere in the log.
   */
  lemma FollowerMayGlue(c: Codec, q: Query, e: Event, torn: Bytes, record: Bytes)
    requires Lawful(c) && IsRecord(c, record) && '\n' !in torn && 0 < |torn| <= |record|
    requires c.decode(Glued(torn, record)) == Some(e) && Matches(e, q)
    ensures var w := One(torn);
            var line := record + "\n";
            var moves :=
                [Gulp(torn)] + ([LOOK, LOOK] + ([LOOK] + ([Writer(Repair), Writer(Grow(line))] + [Gulp(line), LOOK])));
            var s := Run(c, q, Sys(w, Attach(w, 0)), moves);
            s.world == One(line) && s.follower.emitted == [e]
  {
    OneOk(torn);
    var line, f0 := record + "\n", Attach(One(torn), 0);
    var b, d, z := [LOOK, LOOK], [Writer(Repair), Writer(Grow(line))], [Gulp(line), LOOK];
    RecordFacts(c, record);
    Gulps(c, q, torn, f0);
    var s1 := RunOne(c, q, Sys(One(torn), f0), Gulp(torn), b + ([LOOK] + (d + z)));
    var f1 := f0.(buffer := torn, offset := |torn|);
    NapsOnTorn(c, q, torn, torn, f1);
    RunConcat(c, q, s1, b, [LOOK] + (d + z));
    var s3 := RunOne(c, q, Sys(One(torn), Napping(f1, torn)), LOOK, d + z);
    var f3 := Napping(f1, torn).(pc := Reading);
    WakesUnchanged(torn, Napping(f1, torn));
    TornReplaced(c, q, torn, line, f3);
    RunConcat(c, q, s3, d, z);
    ReadsGlued(c, q, e, torn, record, f3);
  }

  lemma WakesUnchanged(data: Bytes, f: Follower)
    requires f.current == 0 && f.anchor != "" && f.anchor == Take(data, ANCHOR_LIMIT) && f.offset == |data|
    requires f.checkpoint == CheckpointAt(data, |data|)
    ensures AfterSleep(One(data), f) == f.(pc := Reading)
  {
  }

  // ---------- A follower gone deaf ----------

  /** After the nap the torn end is still all there is, and the reader is exhausted. */
  lemma Deafens(c: Codec, q: Query, torn: Bytes, f: Follower)
    requires '\n' !in torn && 0 < |torn| <= MAX_EVENT_RECORD_BYTES && Ok(Sys(One(torn), f))
    requires f.pc.Sleeping? && f.current == 0 && f.source.UntilEof? && f.buffer == torn && f.offset == |torn|
    requires f.anchor != "" && f.anchor == Take(torn, ANCHOR_LIMIT) && f.checkpoint == CheckpointAt(torn, |torn|)
    ensures Run(c, q, Sys(One(torn), f), [LOOK, LOOK]) == Sys(One(torn), f.(pc := AtEnd, source := Spent))
  {
    TornIsAtEof(torn);
    WakesUnchanged(torn, f);
    RunTwo(c, q, Sys(One(torn), f), LOOK, LOOK);
  }

  lemma {:induction false} FollowsAreGentle(c: Codec, q: Query, s: Sys, a: seq<Move>)
    requires forall i | 0 <= i < |a| :: a[i].Follow?
    ensures Gentle(c, q, s, a)
    decreases |a|
  {
    if a != [] && Ok(s) {
      assert forall i | 0 <= i < |a[1..]| :: a[1..][i] == a[i + 1];
      FollowsAreGentle(c, q, Step(c, q, s, a[0]), a[1..]);
    }
  }

  function DeafFollower(torn: Bytes): Follower {
    Napping(Attach(One(torn), 0).(buffer := torn, offset := |torn|), torn).(pc := AtEnd, source := Spent)
  }

  function ToDeafness(torn: Bytes): seq<Move> {
    [Gulp(torn)] + ([LOOK, LOOK] + [LOOK, LOOK])
  }

  lemma DeafRun(c: Codec, q: Query, torn: Bytes)
    requires '\n' !in torn && 0 < |torn| <= MAX_EVENT_RECORD_BYTES
    ensures Run(c, q, Sys(One(torn), Attach(One(torn), 0)), ToDeafness(torn)) == Sys(One(torn), DeafFollower(torn))
  {
    OneOk(torn);
    var f0, b := Attach(One(torn), 0), [LOOK, LOOK];
    Gulps(c, q, torn, f0);
    var s1 := RunOne(c, q, Sys(One(torn), f0), Gulp(torn), b + b);
    var f1 := f0.(buffer := torn, offset := |torn|);
    NapsOnTorn(c, q, torn, torn, f1);
    Deafens(c, q, torn, Napping(f1, torn));
    RunConcat(c, q, s1, b, b);
  }

  lemma DeafHolds(c: Codec, q: Query, torn: Bytes)
    requires '\n' !in torn && 0 < |torn| <= MAX_EVENT_RECORD_BYTES
    ensures Inv(c, q, Sys(One(torn), DeafFollower(torn))) && Deaf(Sys(One(torn), DeafFollower(torn)))
  {
    var s0 := Sys(One(torn), Attach(One(torn), 0));
    OneOk(torn);
    TornIsAtEof(torn);
    DeafRun(c, q, torn);
    AttachHolds(c, q, One(torn), 0);
    FollowsAreGentle(c, q, s0, ToDeafness(torn));
    RunKeepsInv(c, q, s0, ToDeafness(torn));
  }

  /** The torn end is still there after the nap; from then on nothing appended is delivered. */
  lemma FollowerGoesDeaf(c: Codec, q: Query, torn: Bytes, moves: seq<Move>)
    requires '\n' !in torn && 0 < |torn| <= MAX_EVENT_RECORD_BYTES
    requires forall i | 0 <= i < |moves| :: OnlyAppends(moves[i])
    ensures var s := Run(c, q, Sys(One(torn), Attach(One(torn), 0)), ToDeafness(torn) + moves);
            s.follower.emitted == [] && s.follower.offset == |torn| && s.world.active == Some(0)
  {
    var s := Sys(One(torn), DeafFollower(torn));
    DeafRun(c, q, torn);
    DeafHolds(c, q, torn);
    RunConcat(c, q, Sys(One(torn), Attach(One(torn), 0)), ToDeafness(torn), moves);
    StaysDeaf(c, q, s, moves);
  }

  // ---------- A generation skipped ----------

  /** Rotated away with nothing behind it, the one generation makes the follower wait. */
  lemma Waits(c: Codec, q: Query, w: World)
    requires w == World([""], None, Some(0), None)
    ensures var f := Attach(w, 0);
            Ok(Sys(w, f)) && Run(c, q, Sys(w, f), [LOOK] + [LOOK, LOOK]) == Sys(w, f.(pc := Returned(true)))
            && Ok(Sys(w, f.(pc := Returned(true))))
  {
    var f := Attach(w, 0);
    assert Generations(w) == [0];
    assert ReadRecord("") == AtEof("");
    var s1 := RunOne(c, q, Sys(w, f), LOOK, [LOOK, LOOK]);
    assert s1 == Sys(w, f.(pc := AtEnd));
    RunTwo(c, q, s1, LOOK, LOOK);
    SuccessorsConsecutive(w, 0);
  }

  /** While it waits, the next generation comes and goes. */
  lemma FollowerMaySkip(c: Codec, q: Query, line: Bytes)
    ensures var w := World([""], None, Some(0), None);
            var come := [Writer(Create), Writer(Grow(line))];
            var gone := [Writer(Shift), Writer(Rotate), Writer(Create), LOOK];
            var s := Run(c, q, Sys(w, Attach(w, 0)), ([LOOK] + [LOOK, LOOK]) + (come + gone));
            && s.world.files == ["", line, ""]
            && s.follower.pc == Reading && s.follower.current == 2 && s.follower.emitted == []
  {
    var w := World([""], None, Some(0), None);
    var come := [Writer(Create), Writer(Grow(line))];
    var gone := [Writer(Shift), Writer(Rotate), Writer(Create), LOOK];
    Waits(c, q, w);
    var s0 := Sys(w, Attach(w, 0).(pc := Returned(true)));
    RunConcat(c, q, Sys(w, Attach(w, 0)), [LOOK] + [LOOK, LOOK], come + gone);
    RunConcat(c, q, s0, come, gone);
    RunTwo(c, q, s0, Writer(Create), Writer(Grow(line)));
    assert [""] + [""] == ["", ""] && "" + line == line && ["", ""][1 := line] == ["", line];
    SkipsFrom(c, q, Run(c, q, s0, come), line);
  }

  lemma SkipsFrom(c: Codec, q: Query, s: Sys, line: Bytes)
    requires Ok(s) && s.world == World(["", line], None, Some(0), Some(1))
    requires s.follower.pc == Returned(true) && s.follower.emitted == []
    ensures var s' := Run(c, q, s, [Writer(Shift), Writer(Rotate), Writer(Create), LOOK]);
            && s'.world.files == ["", line, ""]
            && s'.follower.pc == Reading && s'.follower.current == 2 && s'.follower.emitted == []
  {
    var s1 := RunOne(c, q, s, Writer(Shift), [Writer(Rotate), Writer(Create), LOOK]);
    var s2 := RunOne(c, q, s1, Writer(Rotate), [Writer(Create), LOOK]);
    var s3 := RunOne(c, q, s2, Writer(Create), [LOOK]);
    assert ["", line] + [""] == ["", line, ""];
    var s4 := RunOne(c, q, s3, LOOK, []);
    assert Run(c, q, s4, []) == s4;
  }

  // ---------- A bad record passed over ----------

  /** A retained file that starts with such a record: the follower moves on and reports nothing. */
  lemma MalformedPassedOver(c: Codec, q: Query, bad: Bytes)
    requires Lawful(c) && '\n' !in bad && |bad| <= MAX_EVENT_RECORD_BYTES && c.decode(bad + "\n").None?
    ensures var w := World([bad + "\n", ""], None, Some(0), Some(1));
            var s := Run(c, q, Sys(w, Attach(w, 0)), [Gulp(bad + "\n")] + [LOOK, LOOK]);
            s.follower.pc == Reading && s.follower.current == 1 && s.follower.emitted == []
  {
    var line := bad + "\n";
    var w := World([line, ""], None, Some(0), Some(1));
    assert Generations(w) == [0, 1];
    var f := Attach(w, 0);
    assert ReadRecord("") == AtEof("") && "" + line[0..|line|] == line;
    var s1 := RunOne(c, q, Sys(w, f), Gulp(line), [LOOK, LOOK]);
    assert s1 == Sys(w, f.(buffer := line, offset := |line|));
    PassesOver(c, q, s1, bad);
  }

  lemma PassesOver(c: Codec, q: Query, s1: Sys, bad: Bytes)
    requires '\n' !in bad && |bad| <= MAX_EVENT_RECORD_BYTES && c.decode(bad + "\n").None?
    requires Ok(s1) && s1.world == World([bad + "\n", ""], None, Some(0), Some(1))
    requires s1.follower == Attach(s1.world, 0).(buffer := bad + "\n", offset := |bad + "\n"|)
    ensures var s := Run(c, q, s1, [LOOK, LOOK]);
            s.follower.pc == Reading && s.follower.current == 1 && s.follower.emitted == []
  {
    ReadLine(bad, "");
    assert bad + "\n" + "" == bad + "\n";
    assert [LOOK] + [LOOK] == [LOOK, LOOK] && [LOOK] + [] == [LOOK];
    var s2 := RunOne(c, q, s1, LOOK, [LOOK]);
    assert s2.follower == s1.follower.(pc := Boundary(false));
    assert Generations(s2.world) == [0, 1];
    SuccessorsConsecutive(s2.world, 0);
    var s3 := RunOne(c, q, s2, LOOK, []);
    assert Run(c, q, s3, []) == s3;
  }
}
