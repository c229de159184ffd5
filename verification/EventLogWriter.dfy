/**
 The appending process of the event log (`internal/events/eventlog_linux.go` and
 `appendEventUnlocked`), which may be stopped before any of its effects: `budget`
 counts the effects it still gets to perform. An I/O error is such a stop too.
 */
module EventLogWriter {
  import opened Wrappers
  import opened EventCodec
  import opened EventLog
  import Safety = EventLogSafety

  datatype Outcome = Done | Stopped | Failed(error: AppendError)

  /** The log and the remaining budget after as much of a plan as the budget allows. */
  ghost predicate Performed(before: Log, given: nat, plan: seq<Effect>, after: Log, left: nat) {
    && after == ApplyAll(before, plan[..Min(given, |plan|)])
    && left == given - Min(given, |plan|)
  }

  function Verdict(given: nat, plan: seq<Effect>): Outcome {
    if |plan| <= given then Done else Stopped
  }

  lemma PerformedThen(v0: Log, b0: nat, first: seq<Effect>, v1: Log, b1: nat, second: seq<Effect>, v2: Log, b2: nat)
    requires Performed(v0, b0, first, v1, b1)
    requires if |first| <= b0 then Performed(v1, b1, second, v2, b2) else v2 == v1 && b2 == b1
    ensures Performed(v0, b0, first + second, v2, b2)
  {
    var plan := first + second;
    if |first| <= b0 {
      Safety.PrefixOfConcat(v0, first, second, Min(b0, |plan|));
      assert first[..|first|] == first;
    } else {
      assert plan[..b0] == first[..b0];
    }
  }

  lemma PerformedOne(v: Log, given: nat, e: Effect, after: Log, left: nat)
    requires if given > 0 then after == ApplyEffect(v, e) && left == given - 1 else after == v && left == 0
    ensures Performed(v, given, [e], after, left)
  {
    ApplyOne(v, e);
    assert [e][..1] == [e];
  }

  lemma PerformedNone(v: Log, given: nat)
    ensures Performed(v, given, [], v, given)
  {
  }

  /** What a call of the repair comes to: refused without effect, or its plan as far as the budget goes. */
  ghost predicate RepairedBy(c: Codec, before: Log, given: nat, after: Log, left: nat, outcome: Outcome)
    requires before.active.Some?
  {
    match RepairPlan(c, before.active.value.data)
    case Err(e) => after == before && left == given && outcome == Failed(e)
    case Ok(plan) =>
      && Performed(before, given, plan, after, left) && outcome == Verdict(given, plan)
      && (outcome.Done? ==> after.active.Some? && Repaired(c, before.active.value.data) == Ok(after.active.value.data))
  }

  /** What the end of a file calls for. */
  datatype Repair = Clean | Terminate | Cut(size: nat) | Refused(error: AppendError)

  function PlanOf(repair: Repair): Result<seq<Effect>, AppendError> {
    match repair
    case Clean => Ok([])
    case Terminate => Ok([WriteByte('\n')])
    case Cut(size) => Ok([Truncate(size)])
    case Refused(error) => Err(error)
  }

  method InspectTail(c: Codec, data: Bytes) returns (repair: Repair)
    ensures RepairPlan(c, data) == PlanOf(repair)
    ensures repair.Cut? ==> repair.size <= |data|
  {
    if |data| == 0 || data[|data| - 1] == '\n' {
      return Clean;
    }
    var start := if |data| < MAX_EVENT_RECORD_BYTES + 1 then 0 else |data| - (MAX_EVENT_RECORD_BYTES + 1);
    var lastNewline := LastNewlineFrom(data, start);
    if lastNewline < start && start > 0 {
      return Refused(OversizedTail);
    }
    var tailStart := lastNewline + 1;
    if !c.valid(data[tailStart..]) {
      return Cut(tailStart);
    }
    if c.decode(data[tailStart..]).None? {
      return Refused(InvalidTail);
    }
    return Terminate;
  }

  class Writer {
    var older: Option<Gen>
    var retained: Option<Gen>
    var active: Option<Gen>
    var next: nat
    var budget: nat

    ghost function Value(): Log
      reads this
    {
      Log(older, retained, active, next)
    }

    constructor (log: Log, effects: nat)
      ensures Value() == log && budget == effects
    {
      older, retained, active, next, budget := log.older, log.retained, log.active, log.next, effects;
    }

    /** Takes one effect out of the budget. */
    method Proceed() returns (ok: bool)
      modifies this`budget
      ensures ok == (old(budget) > 0) && budget == old(budget) - if ok then 1 else 0
    {
      ok := budget > 0;
      if ok {
        budget := budget - 1;
      }
    }

    method WriteByteAtEnd(b: char) returns (outcome: Outcome)
      requires active.Some?
      modifies this`active, this`budget
      ensures active.Some?
      ensures Performed(old(Value()), old(budget), [WriteByte(b)], Value(), budget)
      ensures outcome == Verdict(old(budget), [WriteByte(b)])
    {
      var ok := Proceed();
      if ok {
        active := Some(active.value.(data := active.value.data + [b]));
      }
      PerformedOne(old(Value()), old(budget), WriteByte(b), Value(), budget);
      return if ok then Done else Stopped;
    }

    method TruncateActive(size: nat) returns (outcome: Outcome)
      requires active.Some? && size <= |active.value.data|
      modifies this`active, this`budget
      ensures active.Some?
      ensures Performed(old(Value()), old(budget), [Truncate(size)], Value(), budget)
      ensures outcome == Verdict(old(budget), [Truncate(size)])
    {
      var ok := Proceed();
      if ok {
        active := Some(active.value.(data := active.value.data[..size]));
      }
      PerformedOne(old(Value()), old(budget), Truncate(size), Value(), budget);
      return if ok then Done else Stopped;
    }

    method RepairTail(c: Codec) returns (outcome: Outcome)
      requires active.Some?
      modifies this`active, this`budget
      ensures active.Some?
      ensures RepairedBy(c, old(Value()), old(budget), Value(), budget, outcome)
    {
      ghost var v0, b0 := Value(), budget;
      var repair := InspectTail(c, active.value.data);
      match repair
      case Refused(error) =>
        return Failed(error);
      case Clean =>
        return Done;
      case Terminate =>
        outcome := WriteByteAtEnd('\n');
        OneDone(v0, b0, WriteByte('\n'), Value(), budget);
      case Cut(size) =>
        outcome := TruncateActive(size);
        OneDone(v0, b0, Truncate(size), Value(), budget);
    }

    /** `.1` becomes `.2`, if there is a `.1`. */
    method RotateRetained() returns (outcome: Outcome)
      modifies this`older, this`retained, this`budget
      ensures var plan := if old(retained).Some? then [ShiftRetained] else [];
              && Performed(old(Value()), old(budget), plan, Value(), budget)
              && outcome == Verdict(old(budget), plan)
    {
      PerformedNone(Value(), budget);
      if retained.None? {
        return Done;
      }
      var ok := Proceed();
      if ok {
        older, retained := retained, None;
      }
      PerformedOne(old(Value()), old(budget), ShiftRetained, Value(), budget);
      return if ok then Done else Stopped;
    }

    method RenameActive() returns (outcome: Outcome)
      requires active.Some?
      modifies this`active, this`retained, this`budget
      ensures Performed(old(Value()), old(budget), [RotateActive], Value(), budget)
      ensures outcome == Verdict(old(budget), [RotateActive]) && (outcome == Done ==> active.None?)
    {
      var ok := Proceed();
      if ok {
        retained, active := active, None;
      }
      PerformedOne(old(Value()), old(budget), RotateActive, Value(), budget);
      return if ok then Done else Stopped;
    }

    /** Both renames, the retained one first so that no generation is overwritten. */
    method Rotate() returns (outcome: Outcome)
      requires active.Some?
      modifies this
      ensures Performed(old(Value()), old(budget), RotatePlan(old(Value())), Value(), budget)
      ensures outcome == Verdict(old(budget), RotatePlan(old(Value()))) && (outcome == Done ==> active.None?)
    {
      ghost var v0, b0 := Value(), budget;
      ghost var first := if retained.Some? then [ShiftRetained] else [];
      outcome := RotateRetained();
      ghost var v1, b1 := Value(), budget;
      if outcome == Done {
        outcome := RenameActive();
      }
      PerformedThen(v0, b0, first, v1, b1, [RotateActive], Value(), budget);
    }

    method CreateIfMissing() returns (outcome: Outcome)
      modifies this`active, this`next, this`budget
      ensures var plan := if old(active).Some? then [] else [CreateActive];
              && Performed(old(Value()), old(budget), plan, Value(), budget)
              && outcome == Verdict(old(budget), plan)
      ensures outcome == Done ==> active.Some?
    {
      PerformedNone(Value(), budget);
      if active.Some? {
        return Done;
      }
      var ok := Proceed();
      if ok {
        active, next := Some(Gen(next, "")), next + 1;
      }
      PerformedOne(old(Value()), old(budget), CreateActive, Value(), budget);
      return if ok then Done else Stopped;
    }

    /** An absent active file is left for the open that follows. */
    method RotateIfNeeded(c: Codec) returns (outcome: Outcome)
      modifies this
      ensures match RotateIfNeededPlan(c, old(Value()))
              case Err(e) => Value() == old(Value()) && budget == old(budget) && outcome == Failed(e)
              case Ok(plan) => Performed(old(Value()), old(budget), plan, Value(), budget)
                               && outcome == Verdict(old(budget), plan)
      ensures outcome == Done ==> (active.None? <==> CreatePlan(c, old(Value())) != [])
    {
      PerformedNone(Value(), budget);
      if active.None? {
        return Done;
      }
      ghost var v0, b0 := Value(), budget;
      ghost var repair := RepairPlan(c, active.value.data);
      outcome := RepairTail(c);
      ghost var v1, b1 := Value(), budget;
      if outcome == Done && |active.value.data| >= MAX_EVENT_LOG_BYTES {
        outcome := Rotate();
      }
      if repair.Ok? && |Repaired(c, v0.active.value.data).value| >= MAX_EVENT_LOG_BYTES {
        PerformedThen(v0, b0, repair.value, v1, b1, RotatePlan(v0), Value(), budget);
      }
    }

    method OpenForAppend(c: Codec) returns (outcome: Outcome)
      modifies this
      ensures match OpenPlan(c, old(Value()))
              case Err(e) => Value() == old(Value()) && budget == old(budget) && outcome == Failed(e)
              case Ok(plan) => Performed(old(Value()), old(budget), plan, Value(), budget)
                               && outcome == Verdict(old(budget), plan)
      ensures outcome == Done ==> active.Some?
    {
      ghost var v0, b0 := Value(), budget;
      outcome := RotateIfNeeded(c);
      ghost var v1, b1 := Value(), budget;
      if outcome == Done {
        outcome := CreateIfMissing();
      }
      OpenIsRotateThenCreate(c, v0);
      if OpenPlan(c, v0).Ok? {
        PerformedThen(v0, b0, RotateIfNeededPlan(c, v0).value, v1, b1, CreatePlan(c, v0), Value(), budget);
      }
    }

    method WriteAll(b: Bytes) returns (outcome: Outcome)
      requires active.Some?
      modifies this
      ensures Performed(old(Value()), old(budget), Writes(b), Value(), budget)
      ensures outcome == Verdict(old(budget), Writes(b))
    {
      ghost var v0, b0 := Value(), budget;
      var i := 0;
      assert b[..0] == "";
      while i < |b|
        invariant 0 <= i <= |b| && active.Some?
        invariant i <= b0 && Performed(v0, b0, Writes(b[..i]), Value(), budget)
      {
        ghost var v1, b1 := Value(), budget;
        outcome := WriteByteAtEnd(b[i]);
        PerformedThen(v0, b0, Writes(b[..i]), v1, b1, [WriteByte(b[i])], Value(), budget);
        WritesSnoc(b[..i], b[i]);
        assert b[..i] + [b[i]] == b[..i + 1];
        if outcome != Done {
          WritesPrefix(b, i + 1);
          assert Writes(b[..i + 1])[..b0] == Writes(b)[..b0];
          return;
        }
        i := i + 1;
      }
      assert b[..|b|] == b;
      return Done;
    }

    /** Appends one event, up to where the process is stopped. */
    method Append(c: Codec, event: Event) returns (outcome: Outcome)
      modifies this
      ensures match AppendPlan(c, old(Value()), event)
              case Err(e) => Value() == old(Value()) && outcome == Failed(e)
              case Ok(plan) => Performed(old(Value()), old(budget), plan, Value(), budget)
                               && outcome == Verdict(old(budget), plan)
    {
      var encoded := c.encode(event);
      if encoded.None? {
        return Failed(InvalidEvent);
      }
      var record := encoded.value;
      if |record| > MAX_EVENT_RECORD_BYTES {
        return Failed(RecordTooLarge);
      }
      ghost var v0, b0 := Value(), budget;
      outcome := OpenForAppend(c);
      ghost var v1, b1 := Value(), budget;
      if outcome == Done {
        outcome := WriteAll(record + "\n");
      }
      if OpenPlan(c, v0).Ok? {
        PerformedThen(v0, b0, OpenPlan(c, v0).value, v1, b1, Writes(record + "\n"), Value(), budget);
      }
    }
  }

  /** The repair and the renames, without the creation that follows them. */
  function RotateIfNeededPlan(c: Codec, log: Log): Result<seq<Effect>, AppendError> {
    if log.active.None? then Ok([])
    else
      match RepairPlan(c, log.active.value.data)
      case Err(e) => Err(e)
      case Ok(repair) =>
        if |Repaired(c, log.active.value.data).value| < MAX_EVENT_LOG_BYTES then Ok(repair)
        else Ok(repair + RotatePlan(log))
  }

  /** Whether the active file has to be created after that. */
  function CreatePlan(c: Codec, log: Log): seq<Effect> {
    if log.active.Some? && Repaired(c, log.active.value.data).Ok?
       && |Repaired(c, log.active.value.data).value| < MAX_EVENT_LOG_BYTES then []
    else [CreateActive]
  }

  lemma OpenIsRotateThenCreate(c: Codec, log: Log)
    ensures OpenPlan(c, log).Ok? == RotateIfNeededPlan(c, log).Ok?
    ensures OpenPlan(c, log).Err? ==> OpenPlan(c, log).error == RotateIfNeededPlan(c, log).error
    ensures OpenPlan(c, log).Ok? ==> OpenPlan(c, log).value == RotateIfNeededPlan(c, log).value + CreatePlan(c, log)
  {
  }

  lemma OneDone(v: Log, given: nat, e: Effect, after: Log, left: nat)
    requires Performed(v, given, [e], after, left)
    ensures given > 0 ==> after == ApplyEffect(v, e)
  {
    ApplyOne(v, e);
    assert [e][..1] == [e];
  }

  lemma {:induction false} WritesAt(b: Bytes, i: nat)
    requires i < |b|
    ensures Writes(b)[i] == WriteByte(b[i])
    decreases |b|
  {
    if i > 0 {
      WritesAt(b[1..], i - 1);
    }
  }

  lemma WritesPrefix(b: Bytes, n: nat)
    requires n <= |b|
    ensures Writes(b[..n]) == Writes(b)[..n]
  {
    var w := Writes(b[..n]);
    forall i | 0 <= i < n
      ensures w[i] == Writes(b)[i]
    {
      WritesAt(b[..n], i);
      WritesAt(b, i);
    }
  }

  lemma WritesSnoc(b: Bytes, x: char)
    ensures Writes(b + [x]) == Writes(b) + [WriteByte(x)]
  {
    var longer := b + [x];
    assert longer[..|b|] == b;
    WritesPrefix(longer, |b|);
    WritesAt(longer, |b|);
  }
}
