/**
 What every history of the event log keeps, however its appends are cut off.
 The proof carries a shadow of the log made of records instead of bytes.
 */
module EventLogSafety {
  import opened Wrappers
  import opened EventCodec
  import opened EventLog

  /** The records in each slot, and what a cut-off write left after the last newline. */
  datatype Shadow = Shadow(older: seq<Bytes>, retained: seq<Bytes>, active: seq<Bytes>, tail: Bytes)

  function Slot(o: Option<Gen>): seq<Gen> {
    if o.Some? then [o.value] else []
  }

  /** The generations on disk, oldest first. */
  function Present(log: Log): seq<Gen> {
    Slot(log.older) + Slot(log.retained) + Slot(log.active)
  }

  /** No generation is missing between two that are present, nor after the newest. */
  ghost predicate Consecutive(log: Log) {
    forall i | 0 <= i < |Present(log)| :: Present(log)[i].age == log.next - |Present(log)| + i
  }

  ghost predicate SlotHolds(o: Option<Gen>, records: seq<Bytes>) {
    if o.None? then records == []
    else
      && o.value.data == Lines(records)
      && MAX_EVENT_LOG_BYTES <= |o.value.data| <= MAX_EVENT_LOG_BYTES + MAX_EVENT_RECORD_BYTES
  }

  ghost predicate ActiveHolds(c: Codec, o: Option<Gen>, records: seq<Bytes>, tail: Bytes) {
    if o.None? then records == [] && tail == ""
    else
      && o.value.data == Lines(records) + tail
      && |o.value.data| <= MAX_EVENT_LOG_BYTES + MAX_EVENT_RECORD_BYTES
      && (tail != "" ==> Torn(c, tail) && |Lines(records)| < MAX_EVENT_LOG_BYTES)
  }

  ghost function Records(c: Codec, sh: Shadow): seq<Bytes> {
    sh.older + sh.retained + sh.active + if IsRecord(c, sh.tail) then [sh.tail] else []
  }

  ghost predicate Suffix<T>(a: seq<T>, b: seq<T>) {
    |a| <= |b| && b[|b| - |a|..] == a
  }

  ghost predicate Holds(c: Codec, log: Log, sh: Shadow, committed: seq<Bytes>) {
    && Consecutive(log)
    && SlotHolds(log.older, sh.older)
    && SlotHolds(log.retained, sh.retained)
    && ActiveHolds(c, log.active, sh.active, sh.tail)
    && Suffix(Records(c, sh), committed)
  }

  ghost predicate Inv(c: Codec, log: Log, committed: seq<Bytes>) {
    exists sh :: Holds(c, log, sh, committed)
  }

  /** The state in which the first byte of a record is written. */
  ghost predicate Ready(c: Codec, log: Log, committed: seq<Bytes>) {
    exists sh :: Holds(c, log, sh, committed) && sh.tail == "" && log.active.Some?
                 && |Lines(sh.active)| < MAX_EVENT_LOG_BYTES
  }

  // ---------- One effect at a time ----------

  lemma SuffixTail<T>(a: seq<T>, b: seq<T>, s: seq<T>)
    requires Suffix(a + b, s)
    ensures Suffix(b, s)
  {
    assert s[|s| - |a + b|..][|a|..] == b;
  }

  lemma SuffixAppend<T>(a: seq<T>, s: seq<T>, x: T)
    requires Suffix(a, s)
    ensures Suffix(a + [x], s + [x])
  {
    assert (s + [x])[|s| - |a|..] == s[|s| - |a|..] + [x];
  }

  lemma NotRecord(c: Codec)
    requires Lawful(c)
    ensures !IsRecord(c, "")
  {
    if IsRecord(c, "") {
      RecordFacts(c, "");
    }
  }

  lemma TruncateHolds(c: Codec, log: Log, sh: Shadow, committed: seq<Bytes>)
    requires Lawful(c) && Holds(c, log, sh, committed)
    requires log.active.Some? && !IsRecord(c, sh.tail)
    ensures Holds(c, ApplyEffect(log, Truncate(|Lines(sh.active)|)), sh.(tail := ""), committed)
  {
    NotRecord(c);
    var data := log.active.value.data;
    assert data[..|Lines(sh.active)|] == Lines(sh.active);
    AgesKept(log, ApplyEffect(log, Truncate(|Lines(sh.active)|)));
  }

  /** Changing the active bytes leaves the ages alone. */
  lemma AgesKept(log: Log, log': Log)
    requires Consecutive(log)
    requires log'.older == log.older && log'.retained == log.retained && log'.next == log.next
    requires log.active.Some? && log'.active.Some? && log'.active.value.age == log.active.value.age
    ensures Consecutive(log')
  {
    forall i | 0 <= i < |Present(log')|
      ensures Present(log')[i].age == log'.next - |Present(log')| + i
    {
      assert Present(log)[i].age == Present(log')[i].age;
    }
  }

  lemma SalvageHolds(c: Codec, log: Log, sh: Shadow, committed: seq<Bytes>)
    requires Lawful(c) && Holds(c, log, sh, committed)
    requires log.active.Some? && IsRecord(c, sh.tail)
    ensures Holds(c, ApplyEffect(log, WriteByte('\n')), sh.(active := sh.active + [sh.tail], tail := ""), committed)
  {
    var log' := ApplyEffect(log, WriteByte('\n'));
    SalvagedActive(c, log.active.value, sh.active, sh.tail);
    SalvagedRecords(c, sh);
    AgesKept(log, log');
  }

  lemma SalvagedActive(c: Codec, g: Gen, records: seq<Bytes>, tail: Bytes)
    requires Lawful(c) && ActiveHolds(c, Some(g), records, tail) && IsRecord(c, tail)
    ensures ActiveHolds(c, Some(g.(data := g.data + ['\n'])), records + [tail], "")
  {
    RecordFacts(c, tail);
    TornFacts(c, tail);
    LinesAppend(records, tail);
  }

  lemma SalvagedRecords(c: Codec, sh: Shadow)
    requires Lawful(c) && IsRecord(c, sh.tail)
    ensures Records(c, sh.(active := sh.active + [sh.tail], tail := "")) == Records(c, sh)
  {
    NotRecord(c);
  }

  lemma ShiftHolds(c: Codec, log: Log, sh: Shadow, committed: seq<Bytes>)
    requires Holds(c, log, sh, committed) && log.retained.Some?
    ensures Holds(c, ApplyEffect(log, ShiftRetained), sh.(older := sh.retained, retained := []), committed)
  {
    var log', sh' := ApplyEffect(log, ShiftRetained), sh.(older := sh.retained, retained := []);
    assert Records(c, sh) == sh.older + Records(c, sh');
    SuffixTail(sh.older, Records(c, sh'), committed);
    assert Present(log) == Slot(log.older) + Present(log');
    forall i | 0 <= i < |Present(log')|
      ensures Present(log')[i].age == log'.next - |Present(log')| + i
    {
      assert Present(log')[i] == Present(log)[i + |Slot(log.older)|];
    }
  }

  lemma RotateHolds(c: Codec, log: Log, sh: Shadow, committed: seq<Bytes>)
    requires Lawful(c) && Holds(c, log, sh, committed)
    requires log.active.Some? && log.retained.None? && sh.tail == ""
    requires MAX_EVENT_LOG_BYTES <= |log.active.value.data|
    ensures Holds(c, ApplyEffect(log, RotateActive), sh.(retained := sh.active, active := []), committed)
  {
    var log', sh' := ApplyEffect(log, RotateActive), sh.(retained := sh.active, active := []);
    NotRecord(c);
    assert Records(c, sh) == Records(c, sh');
    assert Present(log) == Present(log');
    assert log.active.value.data == Lines(sh.active);
  }

  lemma CreateHolds(c: Codec, log: Log, sh: Shadow, committed: seq<Bytes>)
    requires Holds(c, log, sh, committed) && log.active.None?
    ensures Ready(c, ApplyEffect(log, CreateActive), committed)
  {
    var log' := ApplyEffect(log, CreateActive);
    assert Present(log') == Present(log) + [Gen(log.next, "")];
    forall i | 0 <= i < |Present(log')|
      ensures Present(log')[i].age == log'.next - |Present(log')| + i
    {
      if i < |Present(log)| {
        assert Present(log)[i].age == log.next - |Present(log)| + i;
      }
    }
    assert Holds(c, log', sh, committed);
  }

  // ---------- Opening the log for an append ----------

  lemma TakeOfConcat<T>(a: seq<T>, b: seq<T>, k: nat)
    requires k <= |a| + |b|
    ensures (a + b)[..k] == if k <= |a| then a[..k] else a + b[..k - |a|]
  {
  }

  lemma PrefixOfConcat(log: Log, a: seq<Effect>, b: seq<Effect>, k: nat)
    requires k <= |a| + |b|
    ensures k <= |a| ==> ApplyAll(log, (a + b)[..k]) == ApplyAll(log, a[..k])
    ensures k >= |a| ==> ApplyAll(log, (a + b)[..k]) == ApplyAll(ApplyAll(log, a), b[..k - |a|])
  {
    TakeOfConcat(a, b, k);
    if k >= |a| {
      ApplyAllConcat(log, a, b[..k - |a|]);
      assert a + b[..k - |a|] == (a + b)[..k];
    }
  }

  /** What the repair at the start of an append finds. */
  lemma RepairCases(c: Codec, log: Log, sh: Shadow, committed: seq<Bytes>)
    requires Lawful(c) && Holds(c, log, sh, committed) && log.active.Some?
    ensures RepairPlan(c, log.active.value.data)
            == Ok(if sh.tail == "" then []
                  else if IsRecord(c, sh.tail) then [WriteByte('\n')]
                  else [Truncate(|Lines(sh.active)|)])
  {
    LinesEnd(sh.active);
    if sh.tail == "" {
      assert log.active.value.data == Lines(sh.active);
    } else {
      RepairOfTorn(c, Lines(sh.active), sh.tail);
    }
  }

  lemma RepairKeeps(c: Codec, log: Log, sh: Shadow, committed: seq<Bytes>) returns (sh': Shadow)
    requires Lawful(c) && Holds(c, log, sh, committed) && log.active.Some?
    requires RepairPlan(c, log.active.value.data).Ok?
    ensures var log' := ApplyAll(log, RepairPlan(c, log.active.value.data).value);
            && Holds(c, log', sh', committed) && sh'.tail == ""
            && log' == log.(active := Some(Gen(log.active.value.age, Repaired(c, log.active.value.data).value)))
  {
    RepairCases(c, log, sh, committed);
    if sh.tail == "" {
      sh' := sh;
    } else if !IsRecord(c, sh.tail) {
      TruncateHolds(c, log, sh, committed);
      ApplyOne(log, Truncate(|Lines(sh.active)|));
      sh' := sh.(tail := "");
    } else {
      SalvageHolds(c, log, sh, committed);
      ApplyOne(log, WriteByte('\n'));
      sh' := sh.(active := sh.active + [sh.tail], tail := "");
    }
  }

  lemma RotateKeeps(c: Codec, log: Log, sh: Shadow, committed: seq<Bytes>, k: nat)
    requires Lawful(c) && Holds(c, log, sh, committed)
    requires log.active.Some? && sh.tail == "" && MAX_EVENT_LOG_BYTES <= |log.active.value.data|
    requires k <= |RotatePlan(log) + [CreateActive]|
    ensures Inv(c, ApplyAll(log, (RotatePlan(log) + [CreateActive])[..k]), committed)
    ensures k == |RotatePlan(log) + [CreateActive]| ==>
              Ready(c, ApplyAll(log, RotatePlan(log) + [CreateActive]), committed)
    decreases |Slot(log.retained)|
  {
    var plan := RotatePlan(log) + [CreateActive];
    if log.retained.Some? {
      if k == 0 {
        assert ApplyAll(log, plan[..k]) == log;
      } else {
        ShiftHolds(c, log, sh, committed);
        var log1 := ApplyEffect(log, ShiftRetained);
        assert plan == [ShiftRetained, RotateActive, CreateActive];
        assert plan[1..] == RotatePlan(log1) + [CreateActive];
        assert plan[..k][1..] == plan[1..][..k - 1];
        RotateKeeps(c, log1, sh.(older := sh.retained, retained := []), committed, k - 1);
      }
    } else {
      RotateHolds(c, log, sh, committed);
      var log1, sh1 := ApplyEffect(log, RotateActive), sh.(retained := sh.active, active := []);
      CreateHolds(c, log1, sh1, committed);
      assert plan == [RotateActive, CreateActive];
      if k == 0 {
        assert ApplyAll(log, plan[..k]) == log;
      } else if k == 1 {
        assert plan[..k] == [RotateActive];
        ApplyOne(log, RotateActive);
      } else {
        assert plan[..k] == plan;
        assert plan[1..] == [CreateActive];
        ApplyOne(log1, CreateActive);
      }
    }
  }

  lemma ReadyIsInv(c: Codec, log: Log, committed: seq<Bytes>)
    requires Ready(c, log, committed)
    ensures Inv(c, log, committed)
  {
  }

  lemma OpenKeeps(c: Codec, log: Log, committed: seq<Bytes>, open: seq<Effect>, k: nat)
    requires Lawful(c) && Inv(c, log, committed)
    requires OpenPlan(c, log) == Ok(open) && k <= |open|
    ensures Inv(c, ApplyAll(log, open[..k]), committed)
    ensures k == |open| ==> Ready(c, ApplyAll(log, open), committed)
  {
    var sh :| Holds(c, log, sh, committed);
    if log.active.None? {
      CreateHolds(c, log, sh, committed);
      ApplyOne(log, CreateActive);
      assert k == 0 ==> open[..k] == [];
      assert k == 1 ==> open[..k] == open;
    } else {
      OpenExisting(c, log, sh, committed, open, k);
    }
  }

  lemma OpenExisting(c: Codec, log: Log, sh: Shadow, committed: seq<Bytes>, open: seq<Effect>, k: nat)
    requires Lawful(c) && Holds(c, log, sh, committed) && log.active.Some?
    requires OpenPlan(c, log) == Ok(open) && k <= |open|
    ensures Inv(c, ApplyAll(log, open[..k]), committed)
    ensures k == |open| ==> Ready(c, ApplyAll(log, open), committed)
  {
    var repair := RepairPlan(c, log.active.value.data).value;
    var sh1 := RepairKeeps(c, log, sh, committed);
    var log1 := ApplyAll(log, repair);
    RepairIsShort(c, log.active.value.data);
    if |log1.active.value.data| < MAX_EVENT_LOG_BYTES {
      assert open == repair;
      OpenWithout(c, log, sh, committed, repair, k);
    } else {
      assert open == repair + RotatePlan(log1) + [CreateActive];
      assert open == repair + (RotatePlan(log1) + [CreateActive]);
      if k < |repair| {
        assert open[..k] == [];
      } else {
        OpenRotating(c, log, sh1, committed, repair, k);
      }
      OpenRotated(c, log, sh1, committed, repair);
    }
  }

  lemma RepairIsShort(c: Codec, data: Bytes)
    ensures RepairPlan(c, data).Ok? ==> |RepairPlan(c, data).value| <= 1
  {
  }

  lemma OpenWithout(c: Codec, log: Log, sh: Shadow, committed: seq<Bytes>, repair: seq<Effect>, k: nat)
    requires Holds(c, log, sh, committed) && k <= |repair| <= 1
    requires Ready(c, ApplyAll(log, repair), committed)
    ensures Inv(c, ApplyAll(log, repair[..k]), committed)
  {
    if k == |repair| {
      assert repair[..k] == repair;
      ReadyIsInv(c, ApplyAll(log, repair), committed);
    } else {
      assert repair[..k] == [];
    }
  }

  lemma OpenRotating(c: Codec, log: Log, sh1: Shadow, committed: seq<Bytes>, repair: seq<Effect>, k: nat)
    requires Lawful(c)
    requires var log1 := ApplyAll(log, repair);
             && Holds(c, log1, sh1, committed) && sh1.tail == ""
             && log1.active.Some? && MAX_EVENT_LOG_BYTES <= |log1.active.value.data|
             && |repair| <= k <= |repair| + |RotatePlan(log1) + [CreateActive]|
    ensures Inv(c, ApplyAll(log, (repair + (RotatePlan(ApplyAll(log, repair)) + [CreateActive]))[..k]), committed)
  {
    var log1 := ApplyAll(log, repair);
    var rotate := RotatePlan(log1) + [CreateActive];
    RotateKeeps(c, log1, sh1, committed, k - |repair|);
    PrefixOfConcat(log, repair, rotate, k);
  }

  lemma OpenRotated(c: Codec, log: Log, sh1: Shadow, committed: seq<Bytes>, repair: seq<Effect>)
    requires Lawful(c)
    requires var log1 := ApplyAll(log, repair);
             && Holds(c, log1, sh1, committed) && sh1.tail == ""
             && log1.active.Some? && MAX_EVENT_LOG_BYTES <= |log1.active.value.data|
    ensures Ready(c, ApplyAll(log, repair + (RotatePlan(ApplyAll(log, repair)) + [CreateActive])), committed)
  {
    var log1 := ApplyAll(log, repair);
    var rotate := RotatePlan(log1) + [CreateActive];
    RotateKeeps(c, log1, sh1, committed, |rotate|);
    ApplyAllConcat(log, repair, rotate);
  }

  // ---------- Writing a record ----------

  lemma {:induction false} WritesAppend(log: Log, b: Bytes, n: nat)
    requires log.active.Some? && n <= |b|
    ensures var g := log.active.value;
            ApplyAll(log, Writes(b)[..n]) == log.(active := Some(g.(data := g.data + b[..n])))
    decreases |b|
  {
    var g := log.active.value;
    if n == 0 {
      assert g.data + b[..n] == g.data;
    } else {
      var log1 := ApplyEffect(log, WriteByte(b[0]));
      assert Writes(b)[..n][1..] == Writes(b[1..])[..n - 1];
      WritesAppend(log1, b[1..], n - 1);
      assert g.data + [b[0]] + b[1..][..n - 1] == g.data + b[..n];
    }
  }

  lemma WriteKeeps(c: Codec, log: Log, committed: seq<Bytes>, record: Bytes, n: nat)
    requires Lawful(c) && Ready(c, log, committed)
    requires IsRecord(c, record) && n <= |record| + 1
    ensures Inv(c, ApplyAll(log, Writes(record + "\n")[..n]),
                if n >= |record| then committed + [record] else committed)
  {
    var sh :| Holds(c, log, sh, committed) && sh.tail == "" && |Lines(sh.active)| < MAX_EVENT_LOG_BYTES;
    WritesAppend(log, record + "\n", n);
    var log' := ApplyAll(log, Writes(record + "\n")[..n]);
    AgesKept(log, log');
    if n <= |record| {
      CutRecord(c, record, n);
      WriteCut(c, sh, committed, record, n);
      CutHolds(c, log, log', sh, record[..n]);
      assert Holds(c, log', sh.(tail := record[..n]), if n >= |record| then committed + [record] else committed);
    } else {
      assert (record + "\n")[..n] == record + "\n";
      WholeHolds(c, log, log', sh, committed, record);
    }
  }

  lemma CutHolds(c: Codec, log: Log, log': Log, sh: Shadow, cut: Bytes)
    requires ActiveHolds(c, log.active, sh.active, "") && log.active.Some?
    requires |Lines(sh.active)| < MAX_EVENT_LOG_BYTES
    requires Torn(c, cut) && |cut| <= MAX_EVENT_RECORD_BYTES
    requires log'.active == Some(log.active.value.(data := log.active.value.data + cut))
    ensures ActiveHolds(c, log'.active, sh.active, cut)
  {
    assert Lines(sh.active) + "" == Lines(sh.active);
  }

  lemma WholeHolds(c: Codec, log: Log, log': Log, sh: Shadow, committed: seq<Bytes>, record: Bytes)
    requires Lawful(c) && IsRecord(c, record)
    requires Holds(c, log, sh, committed) && sh.tail == "" && log.active.Some?
    requires |Lines(sh.active)| < MAX_EVENT_LOG_BYTES
    requires Consecutive(log')
    requires log' == log.(active := Some(log.active.value.(data := log.active.value.data + (record + "\n"))))
    ensures Inv(c, log', committed + [record])
  {
    NotRecord(c);
    var sh' := sh.(active := sh.active + [record]);
    LinesAppend(sh.active, record);
    assert Lines(sh.active) + (record + "\n") == Lines(sh'.active);
    assert Records(c, sh') == Records(c, sh) + [record];
    SuffixAppend(Records(c, sh), committed, record);
    assert Holds(c, log', sh', committed + [record]);
  }

  lemma WriteCut(c: Codec, sh: Shadow, committed: seq<Bytes>, record: Bytes, n: nat)
    requires Lawful(c) && IsRecord(c, record) && n <= |record|
    requires sh.tail == "" && Suffix(Records(c, sh), committed)
    ensures Suffix(Records(c, sh.(tail := record[..n])), if n >= |record| then committed + [record] else committed)
  {
    CutRecord(c, record, n);
    NotRecord(c);
    var sh' := sh.(tail := record[..n]);
    if n == |record| {
      assert record[..n] == record;
      assert Records(c, sh') == Records(c, sh) + [record];
      SuffixAppend(Records(c, sh), committed, record);
    } else {
      assert Records(c, sh') == Records(c, sh);
    }
  }

  // ---------- Every history ----------

  ghost predicate HistoryInv(c: Codec, h: History) {
    && Inv(c, h.log, h.committed)
    && (forall r | r in h.committed :: IsRecord(c, r))
  }

  lemma StepKeepsInv(c: Codec, h: History, a: Attempt)
    requires Lawful(c) && HistoryInv(c, h)
    ensures HistoryInv(c, Step(c, h, a))
  {
    if AppendPlan(c, h.log, a.event).Ok? {
      var record := c.encode(a.event).value;
      assert IsRecord(c, record);
      var plan := OpenPlan(c, h.log).value + Writes(record + "\n");
      StoppedAppendKeeps(c, h.log, h.committed, record, OpenPlan(c, h.log).value, Min(a.budget, |plan|));
    }
  }

  /** An append stopped after `k` effects, in its opening or in its writing part. */
  lemma StoppedAppendKeeps(c: Codec, log: Log, committed: seq<Bytes>, record: Bytes, open: seq<Effect>, k: nat)
    requires Lawful(c) && Inv(c, log, committed) && IsRecord(c, record)
    requires OpenPlan(c, log) == Ok(open) && k <= |open| + |record| + 1
    ensures Inv(c, ApplyAll(log, (open + Writes(record + "\n"))[..k]),
                if k >= |open| + |record| then committed + [record] else committed)
  {
    if k <= |open| {
      TakeOfConcat(open, Writes(record + "\n"), k);
      RecordFacts(c, record);
      OpenKeeps(c, log, committed, open, k);
    } else {
      StoppedWriteKeeps(c, log, committed, record, open, k);
    }
  }

  lemma OpenReadies(c: Codec, log: Log, committed: seq<Bytes>, open: seq<Effect>)
    requires Lawful(c) && Inv(c, log, committed) && OpenPlan(c, log) == Ok(open)
    ensures Ready(c, ApplyAll(log, open), committed)
  {
    OpenKeeps(c, log, committed, open, |open|);
  }

  lemma BeyondPrefix(log: Log, a: seq<Effect>, b: seq<Effect>, k: nat)
    requires |a| <= k <= |a| + |b|
    ensures ApplyAll(log, (a + b)[..k]) == ApplyAll(ApplyAll(log, a), b[..k - |a|])
  {
    PrefixOfConcat(log, a, b, k);
  }

  lemma StoppedWriteKeeps(c: Codec, log: Log, committed: seq<Bytes>, record: Bytes, open: seq<Effect>, k: nat)
    requires Lawful(c) && Inv(c, log, committed) && IsRecord(c, record)
    requires OpenPlan(c, log) == Ok(open) && |open| <= k <= |open| + |record| + 1
    ensures Inv(c, ApplyAll(log, (open + Writes(record + "\n"))[..k]),
                if k >= |open| + |record| then committed + [record] else committed)
  {
    OpenReadies(c, log, committed, open);
    WriteKeeps(c, ApplyAll(log, open), committed, record, k - |open|);
    BeyondPrefix(log, open, Writes(record + "\n"), k);
  }

  lemma {:induction false} RunKeepsInv(c: Codec, h: History, attempts: seq<Attempt>)
    requires Lawful(c) && HistoryInv(c, h)
    ensures HistoryInv(c, Run(c, h, attempts))
    decreases |attempts|
  {
    if attempts != [] {
      StepKeepsInv(c, h, attempts[0]);
      RunKeepsInv(c, Step(c, h, attempts[0]), attempts[1..]);
    }
  }

  const START := History(EMPTY, [])

  lemma StartHolds(c: Codec)
    requires Lawful(c)
    ensures HistoryInv(c, START)
  {
    NotRecord(c);
    assert Holds(c, EMPTY, Shadow([], [], [], ""), []);
  }

  // ---------- What a reader of the files can rely on ----------

  function Data(o: Option<Gen>): Bytes {
    if o.Some? then o.value.data else ""
  }

  /** The bytes of all generations, oldest first. */
  function Content(log: Log): Bytes {
    Data(log.older) + Data(log.retained) + Data(log.active)
  }

  /** The log is an end of the history, up to a cut-off record or a missing last newline. */
  ghost predicate EndOfHistory(c: Codec, content: Bytes, committed: seq<Bytes>) {
    exists k: nat, tail: Bytes :: k <= |committed| && EndsAt(c, content, committed[k..], tail)
  }

  ghost predicate EndsAt(c: Codec, content: Bytes, records: seq<Bytes>, tail: Bytes) {
    if IsRecord(c, tail) then content + "\n" == Lines(records)
    else content == Lines(records) + tail && (tail == "" || Torn(c, tail))
  }

  lemma ContentOfShadow(c: Codec, log: Log, sh: Shadow, committed: seq<Bytes>)
    requires Holds(c, log, sh, committed)
    ensures Content(log) == Lines(sh.older + sh.retained + sh.active) + sh.tail
  {
    LinesConcat(sh.older, sh.retained);
    LinesConcat(sh.older + sh.retained, sh.active);
    assert Data(log.older) == Lines(sh.older);
    assert Data(log.retained) == Lines(sh.retained);
    assert Data(log.active) == Lines(sh.active) + sh.tail;
    assert Content(log) == Lines(sh.older) + Lines(sh.retained) + Lines(sh.active) + sh.tail;
  }

  lemma InvEndsHistory(c: Codec, log: Log, committed: seq<Bytes>)
    requires Lawful(c) && Inv(c, log, committed)
    ensures EndOfHistory(c, Content(log), committed)
  {
    var sh :| Holds(c, log, sh, committed);
    ContentOfShadow(c, log, sh, committed);
    var whole := sh.older + sh.retained + sh.active;
    var k: nat := |committed| - |Records(c, sh)|;
    assert committed[k..] == Records(c, sh);
    if IsRecord(c, sh.tail) {
      LinesAppend(whole, sh.tail);
    } else {
      assert Records(c, sh) == whole;
    }
    assert EndsAt(c, Content(log), committed[k..], sh.tail);
  }

  lemma Reachable(c: Codec, attempts: seq<Attempt>)
    requires Lawful(c)
    ensures Inv(c, Run(c, START, attempts).log, Run(c, START, attempts).committed)
  {
    StartHolds(c);
    RunKeepsInv(c, START, attempts);
  }

  /** The repair never refuses a file the invariant describes. */
  lemma RepairAlwaysPossible(c: Codec, log: Log, committed: seq<Bytes>)
    requires Lawful(c) && Inv(c, log, committed) && log.active.Some?
    ensures RepairPlan(c, log.active.value.data).Ok?
  {
    var sh :| Holds(c, log, sh, committed);
    RepairCases(c, log, sh, committed);
  }

  ghost predicate EndsInNewline(o: Option<Gen>) {
    o.Some? ==> o.value.data != "" && o.value.data[|o.value.data| - 1] == '\n'
  }

  ghost predicate WithinLimit(o: Option<Gen>) {
    |Data(o)| <= MAX_EVENT_LOG_BYTES + MAX_EVENT_RECORD_BYTES
  }

  /** All slots at once. */
  ghost predicate Sound(c: Codec, h: History) {
    && Consecutive(h.log)
    && EndsInNewline(h.log.older) && EndsInNewline(h.log.retained)
    && WithinLimit(h.log.older) && WithinLimit(h.log.retained) && WithinLimit(h.log.active)
    && EndOfHistory(c, Content(h.log), h.committed)
  }

  /** The log after every history of appends, each stopped wherever it may be. */
  lemma EveryHistory(c: Codec, attempts: seq<Attempt>)
    requires Lawful(c)
    ensures Sound(c, Run(c, START, attempts))
  {
    StartHolds(c);
    RunKeepsInv(c, START, attempts);
    var h := Run(c, START, attempts);
    InvEndsHistory(c, h.log, h.committed);
    InvSlots(c, h.log, h.committed);
  }

  lemma InvSlots(c: Codec, log: Log, committed: seq<Bytes>)
    requires Inv(c, log, committed)
    ensures Consecutive(log) && EndsInNewline(log.older) && EndsInNewline(log.retained)
    ensures WithinLimit(log.older) && WithinLimit(log.retained) && WithinLimit(log.active)
  {
    var sh :| Holds(c, log, sh, committed);
    SlotEnds(log.older, sh.older);
    SlotEnds(log.retained, sh.retained);
  }

  lemma SlotEnds(o: Option<Gen>, records: seq<Bytes>)
    requires SlotHolds(o, records)
    ensures EndsInNewline(o) && WithinLimit(o)
  {
    LinesEnd(records);
  }

  /** When an append is refused; an error of the repair is not among the reasons. */
  ghost predicate RefusedOnly(c: Codec, log: Log, event: Event) {
    match AppendPlan(c, log, event)
    case Err(InvalidEvent) => c.encode(event).None?
    case Err(RecordTooLarge) => c.encode(event).Some? && |c.encode(event).value| > MAX_EVENT_RECORD_BYTES
    case Err(_) => false
    case Ok(_) => c.encode(event).Some? && |c.encode(event).value| <= MAX_EVENT_RECORD_BYTES
  }

  lemma AppendRefusedExactly(c: Codec, log: Log, event: Event)
    requires log.active.Some? ==> RepairPlan(c, log.active.value.data).Ok?
    ensures RefusedOnly(c, log, event)
  {
  }

  /**
   In every history an append is refused exactly for an event that cannot be
   encoded or a record over the limit. The repair in front of it never fails:
   neither an oversized nor an unreadable tail is ever found.
   */
  lemma EveryAppend(c: Codec, attempts: seq<Attempt>, event: Event)
    requires Lawful(c)
    ensures var log := Run(c, START, attempts).log;
            && RefusedOnly(c, log, event)
            && (log.active.Some? ==> RepairPlan(c, log.active.value.data).Ok?)
  {
    Reachable(c, attempts);
    var h := Run(c, START, attempts);
    if h.log.active.Some? {
      RepairAlwaysPossible(c, h.log, h.committed);
    }
    AppendRefusedExactly(c, h.log, event);
  }

  /** An append that is not stopped leaves its record, with its newline, at the end of the log. */
  lemma AppendCompletes(c: Codec, attempts: seq<Attempt>, event: Event, plan: seq<Effect>)
    requires Lawful(c)
    requires AppendPlan(c, Run(c, START, attempts).log, event) == Ok(plan)
    ensures var h := Run(c, START, attempts);
            var h' := Step(c, h, Attempt(event, |plan|));
            && h'.committed == h.committed + [c.encode(event).value]
            && h'.log.active.Some? && Suffix(c.encode(event).value + "\n", h'.log.active.value.data)
  {
    Reachable(c, attempts);
    var h := Run(c, START, attempts);
    WholeAppend(c, h, event, plan);
    PlanParts(c, h.log, event, plan);
    OpenedForWrite(c, h.log, h.committed);
    WrittenLast(c, h.log, OpenPlan(c, h.log).value, c.encode(event).value);
  }

  lemma WholeAppend(c: Codec, h: History, event: Event, plan: seq<Effect>)
    requires AppendPlan(c, h.log, event) == Ok(plan)
    ensures Step(c, h, Attempt(event, |plan|)) == History(ApplyAll(h.log, plan), h.committed + [c.encode(event).value])
  {
    assert plan[..|plan|] == plan;
  }

  lemma PlanParts(c: Codec, log: Log, event: Event, plan: seq<Effect>)
    requires AppendPlan(c, log, event) == Ok(plan)
    ensures OpenPlan(c, log).Ok? && plan == OpenPlan(c, log).value + Writes(c.encode(event).value + "\n")
  {
  }

  lemma OpenedForWrite(c: Codec, log: Log, committed: seq<Bytes>)
    requires Lawful(c) && Inv(c, log, committed) && OpenPlan(c, log).Ok?
    ensures ApplyAll(log, OpenPlan(c, log).value).active.Some?
  {
    OpenKeeps(c, log, committed, OpenPlan(c, log).value, |OpenPlan(c, log).value|);
  }

  lemma WrittenLast(c: Codec, log: Log, open: seq<Effect>, record: Bytes)
    requires ApplyAll(log, open).active.Some?
    ensures var log' := ApplyAll(log, open + Writes(record + "\n"));
            log'.active.Some? && Suffix(record + "\n", log'.active.value.data)
  {
    var line := record + "\n";
    ApplyAllConcat(log, open, Writes(line));
    WritesAppend(ApplyAll(log, open), line, |line|);
    assert Writes(line)[..|line|] == Writes(line);
    assert line[..|line|] == line;
  }
}
