/**
 What one repair and one append do to any log, in sizes and slots, and how many
 generations of the log are kept.
 */
module EventLogLaws {
  import opened Wrappers
  import opened EventCodec
  import opened EventLog
  import opened EventLogSafety
  import opened EventStream

  // ---------- Repair ----------

  /** The unterminated end is longer than a record; at the very start of a file one byte more passes. */
  predicate Oversized(whole: Bytes, tail: Bytes) {
    |tail| > 0x10_0000 && !(whole == "" && |tail| == 0x10_0001)
  }

  /**
   What a repair does to any file: an unterminated end over the limit and a
   complete one of the wrong schema are refused, an incomplete one is cut off,
   and a whole record gets its newline.
   */
  lemma RepairExactly(c: Codec, whole: Bytes, tail: Bytes)
    requires EndsWhole(whole) && '\n' !in tail
    ensures Repaired(c, whole + tail)
         == if tail == "" then Ok(whole)
            else if Oversized(whole, tail) then Err(OversizedTail)
            else if !c.valid(tail) then Ok(whole)
            else if c.decode(tail).None? then Err(InvalidTail)
            else Ok(whole + tail + "\n")
  {
    var data := whole + tail;
    if tail == "" {
      assert data == whole;
    } else {
      assert data[|data| - 1] == tail[|tail| - 1];
      TailFound(whole, tail);
      assert data[|whole|..] == tail && data[..|whole|] == whole;
    }
  }

  lemma TailFound(whole: Bytes, tail: Bytes)
    requires EndsWhole(whole) && '\n' !in tail && tail != ""
    ensures TailStart(whole + tail) == if Oversized(whole, tail) then Err(OversizedTail) else Ok(|whole|)
  {
    var data := whole + tail;
    var start := if |data| < MAX_EVENT_RECORD_BYTES + 1 then 0 else |data| - (MAX_EVENT_RECORD_BYTES + 1);
    assert forall k | |whole| <= k < |data| :: data[k] == tail[k - |whole|];
    assert whole != "" ==> data[|whole| - 1] == '\n';
    LastNewlineIs(data, start, if |whole| > start then |whole| - 1 else start - 1);
  }

  // ---------- One append ----------

  /** The log once it is open: what the repair left, or a new file, the others moved on once that has 16 MiB. */
  function Opened(c: Codec, log: Log): Log {
    match log.active
    case None => log.(active := Some(Gen(log.next, "")), next := log.next + 1)
    case Some(g) =>
      match Repaired(c, g.data)
      case Err(_) => log
      case Ok(whole) =>
        if |whole| < 0x100_0000 then log.(active := Some(Gen(g.age, whole)))
        else Log(if log.retained.Some? then log.retained else log.older, Some(Gen(g.age, whole)),
                 Some(Gen(log.next, "")), log.next + 1)
  }

  lemma OpenEffect(c: Codec, log: Log, open: seq<Effect>)
    requires OpenPlan(c, log) == Ok(open)
    ensures ApplyAll(log, open) == Opened(c, log) && Opened(c, log).active.Some?
  {
    if log.active.None? {
      ApplyOne(log, CreateActive);
    } else {
      var g, repair := log.active.value, RepairPlan(c, log.active.value.data).value;
      var whole := Repaired(c, g.data).value;
      RepairEffect(c, log);
      if |whole| >= MAX_EVENT_LOG_BYTES {
        ApplyAllConcat(log, repair, RotatePlan(log) + [CreateActive]);
        assert repair + (RotatePlan(log) + [CreateActive]) == open;
        RotateEffect(log.(active := Some(Gen(g.age, whole))));
      }
    }
  }

  /** An append that is not stopped adds its line to the open file and changes nothing else. */
  lemma AppendEffect(c: Codec, log: Log, event: Event, plan: seq<Effect>)
    requires AppendPlan(c, log, event) == Ok(plan)
    ensures c.encode(event).Some? && (log.active.Some? ==> Repaired(c, log.active.value.data).Ok?)
    ensures var open, line := Opened(c, log), c.encode(event).value + "\n";
            && open.active.Some?
            && ApplyAll(log, plan)
               == open.(active := Some(Gen(open.active.value.age, open.active.value.data + line)))
  {
    var line, open := c.encode(event).value + "\n", OpenPlan(c, log).value;
    OpenEffect(c, log, open);
    ApplyAllConcat(log, open, Writes(line));
    WritesLine(Opened(c, log), line);
  }

  lemma RepairEffect(c: Codec, log: Log)
    requires log.active.Some? && RepairPlan(c, log.active.value.data).Ok?
    ensures ApplyAll(log, RepairPlan(c, log.active.value.data).value)
         == log.(active := Some(Gen(log.active.value.age, Repaired(c, log.active.value.data).value)))
  {
    var repair := RepairPlan(c, log.active.value.data).value;
    if repair != [] {
      assert repair == [repair[0]];
      ApplyOne(log, repair[0]);
    }
  }

  lemma RotateEffect(log: Log)
    requires log.active.Some?
    ensures ApplyAll(log, RotatePlan(log) + [CreateActive])
         == Log(if log.retained.Some? then log.retained else log.older, log.active, Some(Gen(log.next, "")),
                log.next + 1)
  {
    var shifted := if log.retained.Some? then ApplyEffect(log, ShiftRetained) else log;
    var last := [RotateActive] + [CreateActive];
    if log.retained.Some? {
      assert RotatePlan(log) + [CreateActive] == [ShiftRetained] + last;
      ApplyAllConcat(log, [ShiftRetained], last);
      ApplyOne(log, ShiftRetained);
    } else {
      assert RotatePlan(log) + [CreateActive] == last;
    }
    ApplyAllConcat(shifted, [RotateActive], [CreateActive]);
    ApplyOne(shifted, RotateActive);
    ApplyOne(ApplyEffect(shifted, RotateActive), CreateActive);
  }

  lemma WritesLine(log: Log, line: Bytes)
    requires log.active.Some?
    ensures ApplyAll(log, Writes(line)) == log.(active := Some(Gen(log.active.value.age, log.active.value.data + line)))
  {
    WritesAppend(log, line, |line|);
    assert Writes(line)[..|line|] == Writes(line) && line[..|line|] == line;
  }

  // ---------- How much is kept ----------

  /** Every attempt of a run gets to its end. */
  ghost predicate Unstopped(c: Codec, h: History, attempts: seq<Attempt>)
    decreases |attempts|
  {
    attempts == [] ||
    (AppendPlan(c, h.log, attempts[0].event).Ok?
     && attempts[0].budget >= |AppendPlan(c, h.log, attempts[0].event).value|
     && Unstopped(c, Step(c, h, attempts[0]), attempts[1..]))
  }

  /** All of the newest three generations there ever were. */
  predicate NewestThree(log: Log) {
    && (log.active.Some? <==> log.next >= 1) && (log.retained.Some? <==> log.next >= 2)
    && (log.older.Some? <==> log.next >= 3)
  }

  lemma {:induction false} RetainsThree(c: Codec, h: History, attempts: seq<Attempt>)
    requires NewestThree(h.log) && Unstopped(c, h, attempts)
    ensures NewestThree(Run(c, h, attempts).log)
    decreases |attempts|
  {
    if attempts != [] {
      var plan := AppendPlan(c, h.log, attempts[0].event).value;
      assert plan[..|plan|] == plan;
      AppendEffect(c, h.log, attempts[0].event, plan);
      RetainsThree(c, Step(c, h, attempts[0]), attempts[1..]);
    }
  }

  /** Where an effect may occur: nothing is renamed over a generation but the oldest of three. */
  predicate Orderly(log: Log, effects: seq<Effect>)
    decreases |effects|
  {
    effects == [] ||
    ((match effects[0]
      case ShiftRetained => log.active.Some?
      case RotateActive => log.retained.None?
      case CreateActive => log.active.None?
      case _ => true)
     && Orderly(ApplyEffect(log, effects[0]), effects[1..]))
  }

  lemma {:induction false} OrderlyConcat(log: Log, a: seq<Effect>, b: seq<Effect>)
    requires Orderly(log, a) && Orderly(ApplyAll(log, a), b)
    ensures Orderly(log, a + b)
    decreases |a|
  {
    if a == [] {
      assert a + b == b;
    } else {
      assert (a + b)[1..] == a[1..] + b;
      OrderlyConcat(ApplyEffect(log, a[0]), a[1..], b);
    }
  }

  lemma {:induction false} WritesOrderly(log: Log, line: Bytes)
    ensures Orderly(log, Writes(line))
    decreases |line|
  {
    if line != "" {
      assert Writes(line)[0] == WriteByte(line[0]) && Writes(line)[1..] == Writes(line[1..]);
      WritesOrderly(ApplyEffect(log, WriteByte(line[0])), line[1..]);
    }
  }

  lemma RotationOrderly(log: Log)
    requires log.active.Some?
    ensures Orderly(log, RotatePlan(log) + [CreateActive])
  {
    var shifted := if log.retained.Some? then ApplyEffect(log, ShiftRetained) else log;
    var last := [RotateActive, CreateActive];
    assert last[1..] == [CreateActive] && [CreateActive][1..] == [];
    assert Orderly(ApplyEffect(ApplyEffect(shifted, RotateActive), CreateActive), []);
    assert Orderly(ApplyEffect(shifted, RotateActive), [CreateActive]);
    assert Orderly(shifted, last);
    if log.retained.Some? {
      assert RotatePlan(log) + [CreateActive] == [ShiftRetained] + last;
      assert ([ShiftRetained] + last)[1..] == last;
    } else {
      assert RotatePlan(log) + [CreateActive] == last;
    }
  }

  lemma AppendOrderly(c: Codec, log: Log, event: Event, plan: seq<Effect>)
    requires AppendPlan(c, log, event) == Ok(plan)
    ensures Orderly(log, plan)
  {
    var open, line := OpenPlan(c, log).value, c.encode(event).value + "\n";
    if log.active.None? {
      assert [CreateActive][1..] == [] && Orderly(ApplyEffect(log, CreateActive), []);
    } else {
      var repair := RepairPlan(c, log.active.value.data).value;
      assert repair != [] ==> repair[1..] == [] && Orderly(ApplyEffect(log, repair[0]), []);
      if open != repair {
        RepairEffect(c, log);
        var repaired := ApplyAll(log, repair);
        assert RotatePlan(repaired) == RotatePlan(log);
        RotationOrderly(repaired);
        OrderlyConcat(log, repair, RotatePlan(log) + [CreateActive]);
        assert repair + (RotatePlan(log) + [CreateActive]) == open;
      }
    }
    WritesOrderly(ApplyAll(log, open), line);
    OrderlyConcat(log, open, Writes(line));
  }

  /** How many of the newest generations are there at least, whatever was cut off. */
  predicate NewestTwo(log: Log) {
    |Present(log)| >= EventLog.Min(2, log.next)
  }

  lemma {:induction false} OrderlyKeepsTwo(log: Log, effects: seq<Effect>, k: nat)
    requires NewestTwo(log) && Orderly(log, effects) && k <= |effects|
    ensures NewestTwo(ApplyAll(log, effects[..k]))
    decreases k
  {
    if k > 0 {
      assert effects[..k][1..] == effects[1..][..k - 1];
      OrderlyKeepsTwo(ApplyEffect(log, effects[0]), effects[1..], k - 1);
    }
  }

  /** In every history, however its appends are cut off, the newest two generations are on disk. */
  lemma {:induction false} RetainsTwo(c: Codec, h: History, attempts: seq<Attempt>)
    requires NewestTwo(h.log)
    ensures NewestTwo(Run(c, h, attempts).log)
    decreases |attempts|
  {
    if attempts != [] {
      if AppendPlan(c, h.log, attempts[0].event).Ok? {
        var plan := AppendPlan(c, h.log, attempts[0].event).value;
        AppendOrderly(c, h.log, attempts[0].event, plan);
        OrderlyKeepsTwo(h.log, plan, EventLog.Min(attempts[0].budget, |plan|));
      }
      RetainsTwo(c, Step(c, h, attempts[0]), attempts[1..]);
    }
  }

  /**
   Retention: histories without a stopped append have the newest three
   generations on disk, and others at least the newest two.
   */
  lemma RetentionDepth(c: Codec, attempts: seq<Attempt>)
    requires Lawful(c)
    ensures var log := Run(c, START, attempts).log;
            && Consecutive(log)
            && |Present(log)| >= EventLog.Min(2, log.next)
            && (Unstopped(c, START, attempts) ==> |Present(log)| == EventLog.Min(3, log.next))
  {
    EveryHistory(c, attempts);
    RetainsTwo(c, START, attempts);
    if Unstopped(c, START, attempts) {
      RetainsThree(c, START, attempts);
    }
  }
}
