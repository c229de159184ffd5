/**
 Staging of start and die events within one process
 (`internal/events/lifecycle_staging.go` and `Publish` in `events.go`): a start
 is announced first and written only once the payload runs; a die is written
 only against a start this process has committed.
 */
module LifecycleStaging {
  /** What an event says beside its kind and its container. */
  datatype Details = Details(image: string, message: string)

  datatype EventKind = StartEvent | DieEvent | OtherEvent

  datatype Record = Record(kind: EventKind, id: string, details: Details)

  /** An append may fail without a trace, or after its record became durable. */
  datatype AppendOutcome = Appended | AppendedButFailed | NotAppended

  datatype State = State(staged: map<string, Details>, committed: set<string>, log: seq<Record>)

  const INITIAL := State(map[], {}, [])

  datatype Op =
    | PublishStart(id: string, details: Details, storageOk: bool)
    | StageRuntimeStart(id: string, details: Details)
    | CancelPendingStart(id: string)
    | CommitPendingStart(outcome: AppendOutcome)
    | PublishDie(id: string, details: Details, outcome: AppendOutcome)
    | PublishOther(id: string, details: Details, outcome: AppendOutcome)

  function Append(log: seq<Record>, r: Record, outcome: AppendOutcome): seq<Record> {
    if outcome.NotAppended? then log else log + [r]
  }

  ghost function OnlyKey(m: map<string, Details>): (k: string)
    requires |m| == 1
    ensures m.Keys == {k}
  {
    var k :| k in m.Keys;
    assert m.Keys - {k} == {} by {
      assert |m.Keys - {k}| == 0;
    }
    k
  }

  /** The state after an operation, and whether it reports success. */
  ghost function Apply(s: State, op: Op): (State, bool) {
    match op
    case PublishStart(id, details, storageOk) =>
      if !storageOk || id == "" || id in s.committed || id in s.staged then (s, false)
      else (s.(staged := s.staged[id := details]), true)
    case StageRuntimeStart(id, details) =>
      if id == "" then (s, true)
      else if id in s.committed then (s, false)
      else if id in s.staged then (s, s.staged[id] == details)
      else (s.(staged := s.staged[id := details]), true)
    case CancelPendingStart(id) => (s.(staged := s.staged - {id}), true)
    case CommitPendingStart(outcome) =>
      if |s.staged| == 0 then (s, true)
      else if |s.staged| != 1 then (s, false)
      else
        var id := OnlyKey(s.staged);
        var log := Append(s.log, Record(StartEvent, id, s.staged[id]), outcome);
        if outcome.Appended? then (State(s.staged - {id}, s.committed + {id}, log), true)
        else (s.(log := log), false)
    case PublishDie(id, details, outcome) =>
      if id !in s.committed then (s.(staged := s.staged - {id}), true)
      else
        var log := Append(s.log, Record(DieEvent, id, details), outcome);
        (s.(committed := s.committed - {id}, log := log), outcome.Appended?)
    case PublishOther(id, details, outcome) =>
      (s.(log := Append(s.log, Record(OtherEvent, id, details), outcome)), outcome.Appended?)
  }

  ghost function Run(s: State, ops: seq<Op>): State
    decreases |ops|
  {
    if ops == [] then s else Run(Apply(s, ops[0]).0, ops[1..])
  }

  // ---------- What every run keeps ----------

  predicate Is(r: Record, kind: EventKind, id: string) {
    r.kind == kind && r.id == id
  }

  function Count(log: seq<Record>, kind: EventKind, id: string): nat {
    if log == [] then 0
    else Count(log[..|log| - 1], kind, id) + if Is(log[|log| - 1], kind, id) then 1 else 0
  }

  ghost predicate StartBetween(log: seq<Record>, id: string, i: int, j: int) {
    exists k :: i < k < j && 0 <= k < |log| && Is(log[k], StartEvent, id)
  }

  /** Between any two die records of a container there is a start record of it. */
  ghost predicate DiesSeparated(log: seq<Record>) {
    forall i, j | 0 <= i < j < |log| && log[i].kind == DieEvent && Is(log[j], DieEvent, log[i].id) ::
      StartBetween(log, log[i].id, i, j)
  }

  /** A committed start is more recent than any die of its container. */
  ghost predicate OpenStarts(s: State) {
    forall id, i | id in s.committed && 0 <= i < |s.log| && Is(s.log[i], DieEvent, id) ::
      StartBetween(s.log, id, i, |s.log|)
  }

  function Open(s: State, id: string): nat {
    if id in s.committed then 1 else 0
  }

  ghost predicate Balanced(s: State) {
    forall id :: Count(s.log, DieEvent, id) + Open(s, id) <= Count(s.log, StartEvent, id)
  }

  ghost predicate Inv(s: State) {
    && s.staged.Keys !! s.committed
    && "" !in s.staged
    && DiesSeparated(s.log) && OpenStarts(s) && Balanced(s)
  }

  lemma CountAppend(log: seq<Record>, r: Record, kind: EventKind, id: string)
    ensures Count(log + [r], kind, id) == Count(log, kind, id) + if Is(r, kind, id) then 1 else 0
  {
    assert (log + [r])[..|log|] == log;
  }

  lemma SeparatedAppend(s: State, r: Record)
    requires DiesSeparated(s.log) && OpenStarts(s)
    requires r.kind == DieEvent ==> r.id in s.committed
    ensures DiesSeparated(s.log + [r])
    ensures forall id, i | id in s.committed && 0 <= i < |s.log| && Is(s.log[i], DieEvent, id) ::
              StartBetween(s.log + [r], id, i, |s.log|)
  {
    var log' := s.log + [r];
    forall id, i, j | 0 <= i < j <= |s.log| && StartBetween(s.log, id, i, j)
      ensures StartBetween(log', id, i, j)
    {
      var k :| i < k < j && Is(s.log[k], StartEvent, id);
      assert Is(log'[k], StartEvent, id);
    }
    forall i, j | 0 <= i < j < |log'| && log'[i].kind == DieEvent && Is(log'[j], DieEvent, log'[i].id)
      ensures StartBetween(log', log'[i].id, i, j)
    {
      if j == |s.log| {
        assert Is(s.log[i], DieEvent, r.id);
        assert StartBetween(s.log, r.id, i, |s.log|);
      } else {
        assert StartBetween(s.log, s.log[i].id, i, j);
      }
    }
  }

  /** What one operation may do to the log and the committed set. */
  ghost predicate Effect(s: State, committed: set<string>, log: seq<Record>) {
    || (log == s.log && committed <= s.committed)
    || exists r: Record :: Logs(s, r, committed, log)
  }

  ghost predicate Logs(s: State, r: Record, committed: set<string>, log: seq<Record>) {
    && log == s.log + [r]
    && match r.kind
       case StartEvent => r.id !in s.committed && (committed == s.committed || committed == s.committed + {r.id})
       case DieEvent => r.id in s.committed && committed == s.committed - {r.id}
       case OtherEvent => committed == s.committed
  }

  lemma StepEffect(s: State, op: Op)
    requires s.staged.Keys !! s.committed && "" !in s.staged
    ensures var s' := Apply(s, op).0;
            s'.staged.Keys !! s'.committed && "" !in s'.staged && Effect(s, s'.committed, s'.log)
  {
    var s' := Apply(s, op).0;
    match op
    case CommitPendingStart(outcome) => CommitEffect(s, outcome);
    case PublishDie(id, details, outcome) =>
      assert id in s.committed && !outcome.NotAppended? ==>
          Logs(s, Record(DieEvent, id, details), s'.committed, s'.log);
    case PublishOther(id, details, outcome) =>
      assert !outcome.NotAppended? ==> Logs(s, Record(OtherEvent, id, details), s'.committed, s'.log);
    case _ =>
  }

  lemma CommitEffect(s: State, outcome: AppendOutcome)
    requires s.staged.Keys !! s.committed && "" !in s.staged
    ensures var s' := Apply(s, CommitPendingStart(outcome)).0;
            s'.staged.Keys !! s'.committed && "" !in s'.staged && Effect(s, s'.committed, s'.log)
  {
    if |s.staged| == 1 {
      var s' := Apply(s, CommitPendingStart(outcome)).0;
      var id := OnlyKey(s.staged);
      assert id in s.staged.Keys && id !in s.committed;
      if outcome.NotAppended? {
        assert s'.log == s.log;
      } else {
        assert Logs(s, Record(StartEvent, id, s.staged[id]), s'.committed, s'.log);
      }
    }
  }

  lemma LoggingKeepsBalance(s: State, r: Record, committed: set<string>, log: seq<Record>)
    requires Balanced(s) && Logs(s, r, committed, log)
    ensures Balanced(State(s.staged, committed, log))
  {
    var s' := State(s.staged, committed, log);
    forall id
      ensures Count(log, DieEvent, id) + Open(s', id) <= Count(log, StartEvent, id)
    {
      CountAppend(s.log, r, DieEvent, id);
      CountAppend(s.log, r, StartEvent, id);
      assert Count(s.log, DieEvent, id) + Open(s, id) <= Count(s.log, StartEvent, id);
    }
  }

  lemma LoggingKeepsOrder(s: State, r: Record, committed: set<string>, log: seq<Record>)
    requires DiesSeparated(s.log) && OpenStarts(s) && Logs(s, r, committed, log)
    ensures DiesSeparated(log) && OpenStarts(State(s.staged, committed, log))
  {
    SeparatedAppend(s, r);
    forall id, i | id in committed && 0 <= i < |log| && Is(log[i], DieEvent, id)
      ensures StartBetween(log, id, i, |log|)
    {
      assert log[|s.log|] == r;
      if id in s.committed && i < |s.log| {
        assert StartBetween(log, id, i, |s.log|);
      } else {
        assert Is(r, StartEvent, id) && i < |s.log|;
      }
    }
  }

  lemma StepKeepsInv(s: State, op: Op)
    requires Inv(s)
    ensures Inv(Apply(s, op).0)
  {
    StepEffect(s, op);
    var s' := Apply(s, op).0;
    if r: Record :| Logs(s, r, s'.committed, s'.log) {
      LoggingKeepsBalance(s, r, s'.committed, s'.log);
      LoggingKeepsOrder(s, r, s'.committed, s'.log);
      assert Balanced(State(s.staged, s'.committed, s'.log));
      assert OpenStarts(State(s.staged, s'.committed, s'.log));
    } else {
      assert s'.log == s.log && s'.committed <= s.committed;
      forall id
        ensures Count(s'.log, DieEvent, id) + Open(s', id) <= Count(s'.log, StartEvent, id)
      {
        assert Count(s.log, DieEvent, id) + Open(s, id) <= Count(s.log, StartEvent, id);
      }
    }
  }

  lemma {:induction false} RunKeepsInv(s: State, ops: seq<Op>)
    requires Inv(s)
    ensures Inv(Run(s, ops))
    decreases |ops|
  {
    if ops != [] {
      StepKeepsInv(s, ops[0]);
      RunKeepsInv(Apply(s, ops[0]).0, ops[1..]);
    }
  }

  /**
   In every run, however appends fail: no container is staged and committed at
   once, its dies never outnumber its starts, and two dies have a start between.
   */
  lemma EveryRun(ops: seq<Op>, id: string)
    ensures var s := Run(INITIAL, ops);
            && !(id in s.staged && id in s.committed)
            && Count(s.log, DieEvent, id) <= Count(s.log, StartEvent, id)
            && DiesSeparated(s.log)
  {
    RunKeepsInv(INITIAL, ops);
    var s := Run(INITIAL, ops);
    assert Count(s.log, DieEvent, id) + Open(s, id) <= Count(s.log, StartEvent, id);
  }

  // ---------- The life of one container ----------

  /** A container between its events, without the maps and the log. */
  datatype Phase = Idle | Staged(details: Details) | Committed

  function PhaseOf(s: State, id: string): Phase {
    if id in s.committed then Committed else if id in s.staged then Staged(s.staged[id]) else Idle
  }

  /** The next phase; `alone` says that no other container has a staged start. */
  function NextPhase(p: Phase, op: Op, id: string, alone: bool): Phase {
    match op
    case PublishStart(x, details, storageOk) => if x == id != "" && p.Idle? && storageOk then Staged(details) else p
    case StageRuntimeStart(x, details) => if x == id != "" && p.Idle? then Staged(details) else p
    case CancelPendingStart(x) => if x == id && p.Staged? then Idle else p
    case CommitPendingStart(outcome) => if p.Staged? && alone && outcome.Appended? then Committed else p
    case PublishDie(x, _, _) => if x == id then Idle else p
    case PublishOther(_, _, _) => p
  }

  /** Each container goes through its phases on its own; only a commit looks at the others. */
  lemma PhaseStep(s: State, op: Op, id: string)
    requires Inv(s)
    ensures PhaseOf(Apply(s, op).0, id) == NextPhase(PhaseOf(s, id), op, id, s.staged.Keys <= {id})
  {
    if op.CommitPendingStart? {
      StagedSize(s, id);
    }
  }

  lemma StagedSize(s: State, id: string)
    ensures id in s.staged ==> (|s.staged| == 1 <==> s.staged.Keys <= {id})
    ensures |s.staged| == 0 <==> s.staged == map[]
  {
    if |s.staged| == 1 {
      assert OnlyKey(s.staged) in s.staged.Keys;
    }
    if id in s.staged && s.staged.Keys <= {id} {
      assert s.staged.Keys == {id};
    }
  }

  /** A start is committed exactly by a successful append, and the log then ends with what was staged. */
  lemma CommitPublishes(s: State, id: string, outcome: AppendOutcome)
    requires Inv(s) && s.staged.Keys == {id}
    ensures var (s', ok) := Apply(s, CommitPendingStart(outcome));
            && (ok <==> outcome.Appended?)
            && (ok ==> s'.log == s.log + [Record(StartEvent, id, s.staged[id])]
                       && id in s'.committed && s'.staged == map[])
            && (!ok ==> s'.staged == s.staged && s'.committed == s.committed && s.log <= s'.log)
  {
    StagedSize(s, id);
    assert OnlyKey(s.staged) in s.staged.Keys;
  }

  /** With nothing staged a commit is a no-op, and with several it is refused. */
  lemma CommitNeedsOne(s: State, outcome: AppendOutcome)
    requires |s.staged| != 1
    ensures Apply(s, CommitPendingStart(outcome)) == (s, s.staged == map[])
  {
    StagedSize(s, "");
  }

  /** A die against a committed start closes it, and if it succeeds the log ends with it. */
  lemma DieCloses(s: State, id: string, details: Details, outcome: AppendOutcome)
    requires id in s.committed
    ensures var (s', ok) := Apply(s, PublishDie(id, details, outcome));
            && (ok <==> outcome.Appended?)
            && (ok ==> s'.log == s.log + [Record(DieEvent, id, details)])
            && s'.committed == s.committed - {id} && s'.staged == s.staged
  {
  }

  /** Any other event is logged as it comes, whatever is staged. */
  lemma OtherLogged(s: State, id: string, details: Details, outcome: AppendOutcome)
    ensures var (s', ok) := Apply(s, PublishOther(id, details, outcome));
            && (ok <==> outcome.Appended?)
            && (ok ==> s'.log == s.log + [Record(OtherEvent, id, details)])
            && s'.committed == s.committed && s'.staged == s.staged
  {
  }

  /** What is refused or fails keeps every staged start, and unless it is a die every committed one. */
  lemma FailureKeepsStaged(s: State, op: Op)
    requires !Apply(s, op).1
    ensures Apply(s, op).0.staged == s.staged
    ensures Apply(s, op).0.committed == s.committed || (op.PublishDie? && op.id in s.committed)
    ensures s.log <= Apply(s, op).0.log
  {
  }

  /** Staging succeeds for an idle container, and of a second attempt only if it stages the same. */
  lemma StagingSucceeds(s: State, id: string, details: Details, storageOk: bool)
    requires Inv(s)
    ensures Apply(s, PublishStart(id, details, storageOk)).1 <==> storageOk && id != "" && PhaseOf(s, id).Idle?
    ensures Apply(s, StageRuntimeStart(id, details)).1
        <==> id == "" || PhaseOf(s, id).Idle? || PhaseOf(s, id) == Staged(details)
  {
  }

  /** A start logged without being committed, or a committed one closed without a die record. */
  ghost predicate Loses(s: State, op: Op, id: string) {
    match op
    case CommitPendingStart(outcome) => outcome.AppendedButFailed? && s.staged.Keys == {id}
    case PublishDie(x, _, outcome) => x == id && id in s.committed && outcome.NotAppended?
    case _ => false
  }

  /** How many starts failing appends leave unmatched along a run. */
  ghost function Unmatched(s: State, ops: seq<Op>, id: string): nat
    decreases |ops|
  {
    if ops == [] then 0
    else (if Loses(s, ops[0], id) then 1 else 0) + Unmatched(Apply(s, ops[0]).0, ops[1..], id)
  }

  /** Starts on record that are neither open nor matched by a die. */
  function Excess(s: State, id: string): int {
    Count(s.log, StartEvent, id) - Count(s.log, DieEvent, id) - Open(s, id)
  }

  /** Every start on record is open, or matched by a die, or was left over by a failing append. */
  lemma {:induction false} StartsAccounted(s: State, ops: seq<Op>, id: string)
    requires Inv(s)
    ensures Excess(Run(s, ops), id) == Excess(s, id) + Unmatched(s, ops, id)
    decreases |ops|
  {
    if ops != [] {
      StepKeepsInv(s, ops[0]);
      StepAccounted(s, ops[0], id);
      StartsAccounted(Apply(s, ops[0]).0, ops[1..], id);
    }
  }

  lemma StepAccounted(s: State, op: Op, id: string)
    requires s.staged.Keys !! s.committed
    ensures Excess(Apply(s, op).0, id) == Excess(s, id) + if Loses(s, op, id) then 1 else 0
  {
    match op
    case CommitPendingStart(outcome) => CommitAccounted(s, outcome, id);
    case PublishDie(x, details, outcome) => AppendExcess(s.log, Record(DieEvent, x, details), id);
    case PublishOther(x, details, outcome) => AppendExcess(s.log, Record(OtherEvent, x, details), id);
    case _ =>
  }

  lemma CommitAccounted(s: State, outcome: AppendOutcome, id: string)
    requires s.staged.Keys !! s.committed
    ensures var op := CommitPendingStart(outcome);
            Excess(Apply(s, op).0, id) == Excess(s, id) + if Loses(s, op, id) then 1 else 0
  {
    StagedSize(s, id);
    if |s.staged| == 1 {
      var only := OnlyKey(s.staged);
      assert only in s.staged.Keys;
      AppendExcess(s.log, Record(StartEvent, only, s.staged[only]), id);
    }
  }

  lemma AppendExcess(log: seq<Record>, r: Record, id: string)
    ensures Count(log + [r], StartEvent, id) == Count(log, StartEvent, id) + if Is(r, StartEvent, id) then 1 else 0
    ensures Count(log + [r], DieEvent, id) == Count(log, DieEvent, id) + if Is(r, DieEvent, id) then 1 else 0
  {
    CountAppend(log, r, StartEvent, id);
    CountAppend(log, r, DieEvent, id);
  }

  /** With no failing append, the dies of a container and its open start are as many as its starts. */
  lemma EveryDieLogged(ops: seq<Op>, id: string)
    requires forall i | 0 <= i < |ops| :: NoFailure(ops[i])
    ensures var s := Run(INITIAL, ops);
            Count(s.log, DieEvent, id) + (if id in s.committed then 1 else 0) == Count(s.log, StartEvent, id)
  {
    StartsAccounted(INITIAL, ops, id);
    NothingUnmatched(INITIAL, ops, id);
  }

  ghost predicate NoFailure(op: Op) {
    op.CommitPendingStart? || op.PublishDie? || op.PublishOther? ==> op.outcome.Appended?
  }

  lemma {:induction false} NothingUnmatched(s: State, ops: seq<Op>, id: string)
    requires forall i | 0 <= i < |ops| :: NoFailure(ops[i])
    ensures Unmatched(s, ops, id) == 0
    decreases |ops|
  {
    if ops != [] {
      assert NoFailure(ops[0]);
      assert forall i | 0 <= i < |ops[1..]| :: ops[1..][i] == ops[i + 1];
      NothingUnmatched(Apply(s, ops[0]).0, ops[1..], id);
    }
  }

  // ---------- The program ----------

  /** The process-local maps, and the log the process appends to. */
  class Staging {
    var staged: map<string, Details>
    var committed: set<string>
    var log: seq<Record>

    ghost function Value(): State
      reads this
    {
      State(staged, committed, log)
    }

    constructor ()
      ensures Value() == INITIAL
    {
      staged, committed, log := map[], {}, [];
    }

    method AppendRecord(r: Record, outcome: AppendOutcome) returns (ok: bool)
      modifies this`log
      ensures log == Append(old(log), r, outcome) && ok == outcome.Appended?
    {
      if !outcome.NotAppended? {
        log := log + [r];
      }
      return outcome.Appended?;
    }

    method StageStartEvent(id: string, details: Details, storageOk: bool) returns (ok: bool)
      modifies this`staged
      ensures (Value(), ok) == Apply(old(Value()), PublishStart(id, details, storageOk))
    {
      if !storageOk || id == "" || id in committed || id in staged {
        return false;
      }
      staged := staged[id := details];
      return true;
    }

    method StageRuntime(id: string, details: Details) returns (ok: bool)
      modifies this`staged
      ensures (Value(), ok) == Apply(old(Value()), StageRuntimeStart(id, details))
    {
      if id == "" {
        return true;
      }
      if id in committed {
        return false;
      }
      if id in staged {
        return staged[id].image == details.image && staged[id].message == details.message;
      }
      staged := staged[id := details];
      return true;
    }

    method Cancel(id: string)
      modifies this`staged
      ensures (Value(), true) == Apply(old(Value()), CancelPendingStart(id))
    {
      staged := staged - {id};
    }

    method Commit(outcome: AppendOutcome) returns (ok: bool)
      modifies this
      ensures (Value(), ok) == Apply(old(Value()), CommitPendingStart(outcome))
    {
      if |staged| == 0 {
        return true;
      }
      if |staged| != 1 {
        return false;
      }
      ghost var only := OnlyKey(staged);
      var id :| id in staged;
      ok := AppendRecord(Record(StartEvent, id, staged[id]), outcome);
      if !ok {
        return false;
      }
      staged := staged - {id};
      committed := committed + {id};
    }

    /** The proof is used up whether or not the die record could be written. */
    method Die(id: string, details: Details, outcome: AppendOutcome) returns (ok: bool)
      modifies this
      ensures (Value(), ok) == Apply(old(Value()), PublishDie(id, details, outcome))
    {
      if id !in committed {
        staged := staged - {id};
        return true;
      }
      ok := AppendRecord(Record(DieEvent, id, details), outcome);
      committed := committed - {id};
    }

    method Other(id: string, details: Details, outcome: AppendOutcome) returns (ok: bool)
      modifies this`log
      ensures (Value(), ok) == Apply(old(Value()), PublishOther(id, details, outcome))
    {
      ok := AppendRecord(Record(OtherEvent, id, details), outcome);
    }
  }
}
