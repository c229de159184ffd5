/**
 The event log on disk (`internal/events/eventlog_linux.go`): an active file
 and two retained generations, changed by one durable effect after another. A
 process may stop between any two effects, hence also in the middle of a record.
 Appends are serialised by the writer lock, so a history of the log is a
 sequence of attempts, each cut off after some number of its effects.
 */
module EventLog {
  import opened Wrappers
  import opened EventCodec

  const MAX_EVENT_LOG_BYTES: nat := 0x100_0000

  /** One file of the log; `age` counts the active files ever created before it. */
  datatype Gen = Gen(age: nat, data: Bytes)

  /** The slots `.2`, `.1` and the active path; `next` is the age of the next new file. */
  datatype Log = Log(older: Option<Gen>, retained: Option<Gen>, active: Option<Gen>, next: nat)

  const EMPTY := Log(None, None, None, 0)

  datatype Effect =
    | Truncate(size: nat)
    | WriteByte(b: char)
    | ShiftRetained
    | RotateActive
    | CreateActive

  datatype AppendError = InvalidEvent | RecordTooLarge | OversizedTail | InvalidTail

  function Edit(data: Bytes, e: Effect): Bytes {
    match e
    case Truncate(n) => if n <= |data| then data[..n] else data
    case WriteByte(b) => data + [b]
    case _ => data
  }

  /** What one system call does; a rename replaces whatever its target held. */
  function ApplyEffect(log: Log, e: Effect): Log {
    match e
    case ShiftRetained =>
      if log.retained.Some? then log.(older := log.retained, retained := None) else log
    case RotateActive =>
      if log.active.Some? then log.(retained := log.active, active := None) else log
    case CreateActive =>
      if log.active.Some? then log else log.(active := Some(Gen(log.next, "")), next := log.next + 1)
    case _ =>
      if log.active.Some? then
        var g := log.active.value;
        log.(active := Some(g.(data := Edit(g.data, e))))
      else log
  }

  function ApplyAll(log: Log, effects: seq<Effect>): Log
    decreases |effects|
  {
    if effects == [] then log else ApplyAll(ApplyEffect(log, effects[0]), effects[1..])
  }

  // ---------- Repair and append ----------

  /** Where the unterminated record starts, seen through a window of one byte more than a record may hold. */
  function TailStart(data: Bytes): (r: Result<nat, AppendError>)
    ensures r.Ok? ==> r.value <= |data| && (r.value == 0 || data[r.value - 1] == '\n')
  {
    var start := if |data| < MAX_EVENT_RECORD_BYTES + 1 then 0 else |data| - (MAX_EVENT_RECORD_BYTES + 1);
    var last := LastNewlineFrom(data, start);
    if last < start && start > 0 then Err(OversizedTail) else Ok(last + 1)
  }

  function RepairPlan(c: Codec, data: Bytes): Result<seq<Effect>, AppendError> {
    if |data| == 0 || data[|data| - 1] == '\n' then Ok([])
    else
      match TailStart(data)
      case Err(e) => Err(e)
      case Ok(start) =>
        var tail := data[start..];
        if !c.valid(tail) then Ok([Truncate(start)])
        else if c.decode(tail).None? then Err(InvalidTail)
        else Ok([WriteByte('\n')])
  }

  function Repaired(c: Codec, data: Bytes): Result<Bytes, AppendError> {
    match RepairPlan(c, data)
    case Err(e) => Err(e)
    case Ok(plan) => Ok(if plan == [] then data else Edit(data, plan[0]))
  }

  function RotatePlan(log: Log): seq<Effect> {
    (if log.retained.Some? then [ShiftRetained] else []) + [RotateActive]
  }

  function Writes(b: Bytes): (w: seq<Effect>)
    ensures |w| == |b|
    decreases |b|
  {
    if b == "" then [] else [WriteByte(b[0])] + Writes(b[1..])
  }

  /** Everything an append does up to the first byte of the record. */
  function OpenPlan(c: Codec, log: Log): Result<seq<Effect>, AppendError> {
    if log.active.None? then Ok([CreateActive])
    else
      match RepairPlan(c, log.active.value.data)
      case Err(e) => Err(e)
      case Ok(repair) =>
        if |Repaired(c, log.active.value.data).value| < MAX_EVENT_LOG_BYTES then Ok(repair)
        else Ok(repair + RotatePlan(log) + [CreateActive])
  }

  /** The effects of appending an event, in order. What cannot be encoded is refused before the log is opened. */
  function AppendPlan(c: Codec, log: Log, event: Event): Result<seq<Effect>, AppendError> {
    match c.encode(event)
    case None => Err(InvalidEvent)
    case Some(record) =>
      if |record| > MAX_EVENT_RECORD_BYTES then Err(RecordTooLarge)
      else
        match OpenPlan(c, log)
        case Err(e) => Err(e)
        case Ok(open) => Ok(open + Writes(record + "\n"))
  }

  function Min(a: nat, b: nat): nat {
    if a < b then a else b
  }

  /** An attempt to append an event that is stopped after `budget` effects. */
  datatype Attempt = Attempt(event: Event, budget: nat)

  /** The log, and every record that was ever written out whole. */
  datatype History = History(log: Log, committed: seq<Bytes>)

  /** A record is committed by its last byte; only its newline may still be missing. */
  function Step(c: Codec, h: History, a: Attempt): History {
    match AppendPlan(c, h.log, a.event)
    case Err(_) => h
    case Ok(plan) =>
      History(ApplyAll(h.log, plan[..Min(a.budget, |plan|)]),
              if a.budget + 1 >= |plan| then h.committed + [c.encode(a.event).value] else h.committed)
  }

  function Run(c: Codec, h: History, attempts: seq<Attempt>): History
    decreases |attempts|
  {
    if attempts == [] then h else Run(c, Step(c, h, attempts[0]), attempts[1..])
  }

  // ---------- Repair of any file ----------

  lemma {:induction false} ApplyAllConcat(log: Log, a: seq<Effect>, b: seq<Effect>)
    ensures ApplyAll(log, a + b) == ApplyAll(ApplyAll(log, a), b)
    decreases |a|
  {
    if a == [] {
      assert a + b == b;
    } else {
      assert (a + b)[1..] == a[1..] + b;
      ApplyAllConcat(ApplyEffect(log, a[0]), a[1..], b);
    }
  }

  lemma ApplyOne(log: Log, e: Effect)
    ensures ApplyAll(log, [e]) == ApplyEffect(log, e)
  {
  }

  /** A file that could be repaired needs no second repair. */
  lemma RepairIdempotent(c: Codec, data: Bytes)
    requires Repaired(c, data).Ok?
    ensures RepairPlan(c, Repaired(c, data).value) == Ok([])
  {
  }

  lemma TailStartOfTorn(whole: Bytes, tail: Bytes)
    requires '\n' !in tail && |tail| <= MAX_EVENT_RECORD_BYTES
    requires whole == "" || whole[|whole| - 1] == '\n'
    ensures TailStart(whole + tail) == Ok(|whole|)
  {
    var data := whole + tail;
    var start := if |data| < MAX_EVENT_RECORD_BYTES + 1 then 0 else |data| - (MAX_EVENT_RECORD_BYTES + 1);
    assert forall k :: |whole| <= k < |data| ==> data[k] == tail[k - |whole|];
    assert whole != "" ==> data[|whole| - 1] == whole[|whole| - 1];
    LastNewlineIs(data, start, |whole| - 1);
  }

  /** Where the repair looks for the torn record, and finds it. */
  lemma RepairOfTorn(c: Codec, whole: Bytes, tail: Bytes)
    requires Lawful(c) && Torn(c, tail) && tail != ""
    requires whole == "" || whole[|whole| - 1] == '\n'
    ensures RepairPlan(c, whole + tail)
            == Ok(if IsRecord(c, tail) then [WriteByte('\n')] else [Truncate(|whole|)])
  {
    TornFacts(c, tail);
    if IsRecord(c, tail) {
      RecordFacts(c, tail);
    }
    TailStartOfTorn(whole, tail);
    var data := whole + tail;
    assert data[|data| - 1] == tail[|tail| - 1];
    assert data[|whole|..] == tail;
  }

  lemma RepairedTorn(c: Codec, whole: Bytes, tail: Bytes)
    requires Lawful(c) && Torn(c, tail) && tail != ""
    requires whole == "" || whole[|whole| - 1] == '\n'
    ensures Repaired(c, whole + tail)
            == Ok(if IsRecord(c, tail) then whole + tail + "\n" else whole)
  {
    RepairOfTorn(c, whole, tail);
    assert (whole + tail)[..|whole|] == whole;
  }

  /** Cutting a record short of its newline leaves a torn tail, whole exactly at full length. */
  lemma CutRecord(c: Codec, record: Bytes, n: nat)
    requires Lawful(c) && IsRecord(c, record) && n <= |record|
    ensures (record + "\n")[..n] == record[..n]
    ensures Torn(c, record[..n])
    ensures IsRecord(c, record[..n]) <==> n == |record|
  {
    assert record[..n] <= record;
    TornFacts(c, record[..n]);
    RecordFacts(c, record);
    if n < |record| {
      var e :| c.encode(e) == Some(record);
      assert record[..n] < c.encode(e).value;
    } else {
      assert record[..n] == record;
    }
  }

  /**
   An append stopped at any byte is undone or completed by the next repair: the
   log is the old one unless all of the record got there, newline or not.
   */
  lemma AppendAtomic(c: Codec, data: Bytes, record: Bytes, n: nat)
    requires Lawful(c) && IsRecord(c, record)
    requires data == "" || data[|data| - 1] == '\n'
    requires n <= |record| + 1
    ensures Repaired(c, data + (record + "\n")[..n]) == Ok(if n < |record| then data else data + record + "\n")
  {
    if n == |record| + 1 {
      assert (record + "\n")[..n] == record + "\n";
      assert data + (record + "\n") == data + record + "\n";
    } else {
      CutRecord(c, record, n);
      AppendCut(c, data, record, n);
    }
  }

  lemma AppendCut(c: Codec, data: Bytes, record: Bytes, n: nat)
    requires Lawful(c) && IsRecord(c, record)
    requires data == "" || data[|data| - 1] == '\n'
    requires n <= |record|
    ensures Repaired(c, data + record[..n]) == Ok(if n < |record| then data else data + record + "\n")
  {
    CutRecord(c, record, n);
    RecordFacts(c, record);
    if n == 0 {
      assert data + record[..n] == data;
    } else {
      RepairedTorn(c, data, record[..n]);
      assert record[..|record|] == record;
    }
  }
}
