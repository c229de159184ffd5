/**
 The live resource update of `internal/cgroups/update_transaction_linux.go`: a
 read-and-save loop, a write loop, and a reverse rollback loop over the control
 files of one cgroup.
 */
module CgroupUpdate {
  import opened Decimals
  import opened WhiteSpace
  import opened Wrappers

  const CPU_PERIOD_USEC: nat := 100000
  const MAX_INT64: nat := 0x7fff_ffff_ffff_ffff

  datatype UpdateConfig = UpdateConfig(memoryMax: int, cpus: real, cpuWeight: int, pidsMax: int)

  datatype Update = Update(name: string, value: string)

  /** A write may fail, leaving any contents behind in the file. */
  datatype WriteOutcome = Written | WriteFailed(left: string)

  /** `failedRollbacks` lists the files whose rollback write failed as well. */
  datatype Error =
    | Invalid
    | ReadFailed(name: string)
    | EmptyValue(name: string)
    | UpdateFailed(index: nat, failedRollbacks: seq<string>)

  // ---------- The plan ----------

  predicate ValidConfig(cfg: UpdateConfig) {
    && cfg.memoryMax >= 0
    && 0 <= cfg.cpuWeight <= 10000
    && 0.0 <= cfg.cpus <= MAX_INT64 as real / CPU_PERIOD_USEC as real
    && cfg.pidsMax >= 0
  }

  function Quota(cpus: real): int {
    (cpus * CPU_PERIOD_USEC as real).Floor
  }

  method PlannedResourceUpdates(cfg: UpdateConfig) returns (plan: seq<Update>)
    requires ValidConfig(cfg)
    ensures plan == Plan(cfg)
  {
    plan := [];
    if cfg.memoryMax > 0 {
      plan := plan + [Update("memory.max", Decimal(cfg.memoryMax))];
    }
    if cfg.cpus > 0.0 {
      plan := plan + [Update("cpu.max", Decimal(Quota(cfg.cpus)) + " " + Decimal(CPU_PERIOD_USEC))];
    }
    if cfg.cpuWeight > 0 {
      plan := plan + [Update("cpu.weight", Decimal(cfg.cpuWeight))];
    }
    if cfg.pidsMax > 0 {
      plan := plan + [Update("pids.max", Decimal(cfg.pidsMax))];
    }
  }

  function When(c: bool, u: Update): seq<Update> {
    if c then [u] else []
  }

  function Plan(cfg: UpdateConfig): seq<Update>
    requires ValidConfig(cfg)
  {
    When(cfg.memoryMax > 0, Update("memory.max", Decimal(cfg.memoryMax)))
    + When(cfg.cpus > 0.0, Update("cpu.max", Decimal(Quota(cfg.cpus)) + " " + Decimal(CPU_PERIOD_USEC)))
    + When(cfg.cpuWeight > 0, Update("cpu.weight", Decimal(cfg.cpuWeight)))
    + When(cfg.pidsMax > 0, Update("pids.max", Decimal(cfg.pidsMax)))
  }

  predicate DistinctNames(plan: seq<Update>) {
    forall i, j | 0 <= i < j < |plan| :: plan[i].name != plan[j].name
  }

  lemma PlanDistinct(cfg: UpdateConfig)
    requires ValidConfig(cfg)
    ensures DistinctNames(Plan(cfg))
  {
    NamesDiffer();
    var memory := When(cfg.memoryMax > 0, Update("memory.max", Decimal(cfg.memoryMax)));
    var cpu := When(cfg.cpus > 0.0, Update("cpu.max", Decimal(Quota(cfg.cpus)) + " " + Decimal(CPU_PERIOD_USEC)));
    var weight := When(cfg.cpuWeight > 0, Update("cpu.weight", Decimal(cfg.cpuWeight)));
    var pids := When(cfg.pidsMax > 0, Update("pids.max", Decimal(cfg.pidsMax)));
    DistinctConcat(memory, cpu);
    DistinctConcat(memory + cpu, weight);
    DistinctConcat(memory + cpu + weight, pids);
  }

  lemma NamesDiffer()
    ensures "memory.max" != "cpu.max" && "memory.max" != "cpu.weight" && "memory.max" != "pids.max"
    ensures "cpu.max" != "cpu.weight" && "cpu.max" != "pids.max" && "cpu.weight" != "pids.max"
  {
    assert "memory.max"[0] != "cpu.max"[0] && "memory.max"[0] != "cpu.weight"[0] && "memory.max"[0] != "pids.max"[0];
    assert |"cpu.max"| != |"cpu.weight"| && "pids.max"[0] != "cpu.max"[0] && "pids.max"[0] != "cpu.weight"[0];
  }

  lemma DistinctConcat(a: seq<Update>, b: seq<Update>)
    requires DistinctNames(a) && |b| <= 1 && forall u, v | u in a && v in b :: u.name != v.name
    ensures DistinctNames(a + b)
  {
  }

  // ---------- File contents ----------

  /** How write number `t` turns out; the script ends in successes. */
  function OutcomeAt(script: seq<WriteOutcome>, t: nat): WriteOutcome {
    if t < |script| then script[t] else Written
  }

  /** The control files, with a script of how coming writes turn out. */
  class ControlFiles {
    var files: map<string, string>
    var unreadable: set<string>
    var script: seq<WriteOutcome>
    var writes: seq<Update>

    method ReadFile(name: string) returns (r: Option<string>)
      ensures r == if name in files && name !in unreadable then Some(files[name]) else None
    {
      return if name in files && name !in unreadable then Some(files[name]) else None;
    }

    method WriteFile(name: string, value: string) returns (ok: bool)
      modifies this`files, this`writes
      ensures var outcome := OutcomeAt(script, old(|writes|));
              && ok == outcome.Written?
              && files == old(files)[name := if ok then value else outcome.left]
      ensures writes == old(writes) + [Update(name, value)]
    {
      var outcome := OutcomeAt(script, |writes|);
      ok := outcome.Written?;
      files := files[name := if ok then value else outcome.left];
      writes := writes + [Update(name, value)];
    }
  }

  // ---------- Reading and saving ----------

  /** The trimmed current value of every planned file, or the first read's error. */
  ghost function Saved(files: map<string, string>, unreadable: set<string>,
                       plan: seq<Update>): Result<seq<string>, Error>
  {
    if plan == [] then Ok([])
    else
      var last := plan[|plan| - 1].name;
      match Saved(files, unreadable, plan[..|plan| - 1])
      case Err(e) => Err(e)
      case Ok(values) =>
        if last !in files || last in unreadable then Err(ReadFailed(last))
        else if Trim(files[last]) == "" then Err(EmptyValue(last))
        else Ok(values + [Trim(files[last])])
  }

  lemma {:induction false} SavedAt(files: map<string, string>, unreadable: set<string>, plan: seq<Update>, i: nat)
    requires Saved(files, unreadable, plan).Ok? && i < |plan|
    ensures |Saved(files, unreadable, plan).value| == |plan|
    ensures plan[i].name in files && Saved(files, unreadable, plan).value[i] == Trim(files[plan[i].name])
    decreases |plan|
  {
    var front := plan[..|plan| - 1];
    if front != [] {
      SavedAt(files, unreadable, front, if i < |front| then i else 0);
    }
  }

  /** A failed prefix makes the whole read-and-save loop fail the same way. */
  lemma {:induction false} SavedPrefix(files: map<string, string>, unreadable: set<string>, plan: seq<Update>, k: nat)
    requires k <= |plan| && Saved(files, unreadable, plan[..k]).Err?
    ensures Saved(files, unreadable, plan) == Saved(files, unreadable, plan[..k])
    decreases |plan|
  {
    if k < |plan| {
      var front := plan[..|plan| - 1];
      assert front[..k] == plan[..k];
      SavedPrefix(files, unreadable, front, k);
    } else {
      assert plan[..k] == plan;
    }
  }

  ghost predicate AllWritten(script: seq<WriteOutcome>, start: nat, end: nat) {
    forall t | start <= t < end :: OutcomeAt(script, t).Written?
  }

  predicate NamedIn(plan: seq<Update>, name: string) {
    exists i | 0 <= i < |plan| :: plan[i].name == name
  }

  ghost predicate SameAt(a: map<string, string>, b: map<string, string>, name: string) {
    (name in a <==> name in b) && (name in a ==> a[name] == b[name])
  }

  // ---------- The transaction ----------

  /** Every planned file holds its new value and no other file changed. */
  ghost predicate Committed(before: map<string, string>, now: map<string, string>, plan: seq<Update>) {
    && (forall i | 0 <= i < |plan| :: plan[i].name in now && now[plan[i].name] == plan[i].value)
    && Untouched(before, now, plan)
  }

  ghost predicate Untouched(before: map<string, string>, now: map<string, string>, plan: seq<Update>) {
    forall name | !NamedIn(plan, name) :: SameAt(before, now, name)
  }

  /** The outcome of the rollback write for file `j` after update `i` failed. */
  function RollbackOutcome(script: seq<WriteOutcome>, start: nat, i: nat, j: nat): WriteOutcome
    requires j <= i
  {
    OutcomeAt(script, start + 2 * i + 1 - j)
  }

  /** One file after its rollback write, and whether that write is reported. */
  ghost predicate Undone(files: map<string, string>, name: string, value: string, o: WriteOutcome, failed: seq<string>)
  {
    && name in files
    && files[name] == (if o.Written? then value else o.left)
    && (name in failed <==> o.WriteFailed?)
  }

  /** The rollback writes for files `down + 1 .. i` have been made. */
  ghost predicate UndoneDownTo(before: map<string, string>, files: map<string, string>, script: seq<WriteOutcome>,
                               plan: seq<Update>, saved: seq<string>, start: nat, i: nat, down: int,
                               failed: seq<string>)
    requires i < |plan| == |saved| && -1 <= down <= i
  {
    && (forall j | down < j <= i :: Undone(files, plan[j].name, saved[j], RollbackOutcome(script, start, i, j), failed))
    && (forall j | 0 <= j <= down :: plan[j].name !in failed)
    && (forall name | !NamedIn(plan[..i + 1], name) :: SameAt(before, files, name) && name !in failed)
  }

  lemma UndoneStep(before: map<string, string>, files: map<string, string>, script: seq<WriteOutcome>,
                   plan: seq<Update>, saved: seq<string>, start: nat, i: nat, down: nat, failed: seq<string>)
    requires i < |plan| == |saved| && down <= i && DistinctNames(plan)
    requires UndoneDownTo(before, files, script, plan, saved, start, i, down, failed)
    ensures var o, name := RollbackOutcome(script, start, i, down), plan[down].name;
            var files' := files[name := if o.Written? then saved[down] else o.left];
            var failed' := if o.Written? then failed else failed + [name];
            UndoneDownTo(before, files', script, plan, saved, start, i, down - 1, failed')
  {
    var o, name := RollbackOutcome(script, start, i, down), plan[down].name;
    var files' := files[name := if o.Written? then saved[down] else o.left];
    var failed' := if o.Written? then failed else failed + [name];
    assert plan[..i + 1][down].name == name;
    forall other | !NamedIn(plan[..i + 1], other)
      ensures SameAt(before, files', other) && other !in failed'
    {
      assert other != name;
      assert SameAt(before, files, other);
    }
    forall j | down <= j <= i
      ensures Undone(files', plan[j].name, saved[j], RollbackOutcome(script, start, i, j), failed')
    {
      if j > down {
        assert plan[j].name != name;
        assert Undone(files, plan[j].name, saved[j], RollbackOutcome(script, start, i, j), failed);
      }
    }
    forall j | 0 <= j <= down - 1
      ensures plan[j].name !in failed'
    {
      assert plan[j].name != name;
    }
  }

  /** Updates `0..i` were undone in reverse, as far as their rollback writes went. */
  ghost predicate RolledBack(before: map<string, string>, files: map<string, string>, script: seq<WriteOutcome>,
                             plan: seq<Update>, saved: seq<string>, start: nat, i: nat, failed: seq<string>)
    requires i < |plan| == |saved|
  {
    UndoneDownTo(before, files, script, plan, saved, start, i, -1, failed)
  }

  function Undo(plan: seq<Update>, saved: seq<string>, i: nat, down: int): seq<Update>
    requires i < |plan| == |saved| && -1 <= down <= i
    decreases i - down
  {
    if down == i then [] else Undo(plan, saved, i, down + 1) + [Update(plan[down + 1].name, saved[down + 1])]
  }

  /** Reads and trims the current value of every planned file. */
  method SaveCurrent(f: ControlFiles, plan: seq<Update>) returns (r: Result<seq<string>, Error>)
    ensures r == Saved(f.files, f.unreadable, plan)
    ensures r.Ok? ==> |r.value| == |plan|
  {
    var saved: seq<string> := [];
    var n := 0;
    while n < |plan|
      invariant 0 <= n <= |plan| && |saved| == n
      invariant Saved(f.files, f.unreadable, plan[..n]) == Ok(saved)
    {
      assert plan[..n + 1][..n] == plan[..n];
      var value := f.ReadFile(plan[n].name);
      if value.None? {
        SavedPrefix(f.files, f.unreadable, plan, n + 1);
        return Err(ReadFailed(plan[n].name));
      }
      var oldValue := Trim(value.value);
      if |oldValue| == 0 {
        SavedPrefix(f.files, f.unreadable, plan, n + 1);
        return Err(EmptyValue(plan[n].name));
      }
      saved := saved + [oldValue];
      n := n + 1;
    }
    assert plan[..n] == plan;
    return Ok(saved);
  }

  /**
   The update is a transaction. Nothing is written before every planned file has
   been read. If all writes succeed every planned file holds its new value. If
   write `i` fails, whatever it left behind, every file written so far gets a
   rollback write in reverse order, and later files are never touched.
   */
  method ApplyResourceUpdate(f: ControlFiles, cfg: UpdateConfig) returns (r: Result<(), Error>)
    modifies f`files, f`writes
    ensures !ValidConfig(cfg) ==> r == Err(Invalid) && f.files == old(f.files) && f.writes == old(f.writes)
    ensures ValidConfig(cfg) ==>
              var plan, saved := Plan(cfg), Saved(old(f.files), f.unreadable, Plan(cfg));
              if saved.Err? then
                r == Err(saved.error) && f.files == old(f.files) && f.writes == old(f.writes)
              else
                |saved.value| == |plan| && Transaction(old(f.files), old(f.writes), f, plan, saved.value, r)
  {
    if !ValidConfig(cfg) {
      return Err(Invalid);
    }
    var plan := PlannedResourceUpdates(cfg);
    PlanDistinct(cfg);
    var saved := SaveCurrent(f, plan);
    if saved.Err? {
      return Err(saved.error);
    }
    r := WriteAll(f, plan, saved.value);
  }

  /** Either all updates took effect, or the first failing one was rolled back. */
  ghost predicate Transaction(before: map<string, string>, log: seq<Update>, f: ControlFiles, plan: seq<Update>,
                              saved: seq<string>, r: Result<(), Error>)
    requires |saved| == |plan|
    reads f
  {
    var start := |log|;
    if AllWritten(f.script, start, start + |plan|) then
      r == Ok(()) && Committed(before, f.files, plan) && f.writes == log + plan
    else
      && r.Err? && r.error.UpdateFailed? && r.error.index < |plan|
      && AllWritten(f.script, start, start + r.error.index)
      && OutcomeAt(f.script, start + r.error.index).WriteFailed?
      && f.writes == log + plan[..r.error.index + 1] + Undo(plan, saved, r.error.index, -1)
      && RolledBack(before, f.files, f.script, plan, saved, start, r.error.index, r.error.failedRollbacks)
  }

  method WriteAll(f: ControlFiles, plan: seq<Update>, saved: seq<string>) returns (r: Result<(), Error>)
    requires |saved| == |plan| && DistinctNames(plan)
    modifies f`files, f`writes
    ensures Transaction(old(f.files), old(f.writes), f, plan, saved, r)
  {
    ghost var before, start, log := f.files, |f.writes|, f.writes;
    var i := 0;
    while i < |plan|
      invariant 0 <= i <= |plan|
      invariant f.writes == log + plan[..i]
      invariant AllWritten(f.script, start, start + i)
      invariant Committed(before, f.files, plan[..i])
    {
      var ok := WriteOne(f, plan, i, before, log);
      if !ok {
        var failed := RollBack(f, plan, saved, i, before, start);
        return Err(UpdateFailed(i, failed));
      }
      i := i + 1;
    }
    assert plan[..i] == plan;
    return Ok(());
  }

  method WriteOne(f: ControlFiles, plan: seq<Update>, i: nat, ghost before: map<string, string>, ghost log: seq<Update>)
    returns (ok: bool)
    requires i < |plan| && DistinctNames(plan)
    requires f.writes == log + plan[..i] && Committed(before, f.files, plan[..i])
    modifies f`files, f`writes
    ensures ok == OutcomeAt(f.script, |log| + i).Written?
    ensures f.writes == log + plan[..i + 1]
    ensures if ok then Committed(before, f.files, plan[..i + 1]) else Untouched(before, f.files, plan[..i + 1])
  {
    ghost var outcome := OutcomeAt(f.script, |f.writes|);
    WriteStep(before, f.files, plan, i, if outcome.Written? then plan[i].value else outcome.left);
    assert plan[..i + 1] == plan[..i] + [plan[i]];
    ok := f.WriteFile(plan[i].name, plan[i].value);
  }

  lemma NamedNext(plan: seq<Update>, i: nat, name: string)
    requires i < |plan|
    ensures NamedIn(plan[..i + 1], name) <==> NamedIn(plan[..i], name) || name == plan[i].name
  {
    if NamedIn(plan[..i], name) {
      var k :| 0 <= k < |plan[..i]| && plan[..i][k].name == name;
      assert plan[..i + 1][k].name == name;
    }
    if name == plan[i].name { assert plan[..i + 1][i].name == name; }
  }

  /** Writing update `i`, with any outcome, touches only its own file. */
  lemma WriteStep(before: map<string, string>, files: map<string, string>, plan: seq<Update>, i: nat, value: string)
    requires i < |plan| && DistinctNames(plan) && Committed(before, files, plan[..i])
    ensures Untouched(before, files[plan[i].name := value], plan[..i + 1])
    ensures value == plan[i].value ==> Committed(before, files[plan[i].name := value], plan[..i + 1])
  {
    var upTo := plan[..i + 1];
    forall name | !NamedIn(upTo, name)
      ensures SameAt(before, files[plan[i].name := value], name)
    {
      NamedNext(plan, i, name);
      assert SameAt(before, files, name);
    }
    forall k | 0 <= k < i
      ensures plan[k].name in files && files[plan[k].name] == plan[k].value && plan[k].name != plan[i].name
    {
      assert plan[..i][k] == plan[k];
    }
  }

  method RollBack(f: ControlFiles, plan: seq<Update>, saved: seq<string>, i: nat, ghost before: map<string, string>,
                  ghost start: nat)
    returns (failed: seq<string>)
    requires i < |plan| == |saved| && DistinctNames(plan)
    requires |f.writes| == start + i + 1
    requires Untouched(before, f.files, plan[..i + 1])
    modifies f`files, f`writes
    ensures f.writes == old(f.writes) + Undo(plan, saved, i, -1)
    ensures RolledBack(before, f.files, f.script, plan, saved, start, i, failed)
  {
    failed := [];
    var down: int := i;
    ghost var log := f.writes;
    NothingUndone(before, f.files, f.script, plan, saved, start, i);
    assert log + [] == log;
    while down >= 0
      invariant -1 <= down <= i
      invariant Rolling(f.writes, f.files, f.script, log, before, plan, saved, start, i, down, failed)
    {
      failed := RollBackOne(f, plan, saved, i, down, failed, before, start, log);
      down := down - 1;
    }
  }

  /** Since the log was `log`, the rollback writes for files `down + 1 .. i` have been made, in this order. */
  ghost predicate Rolling(writes: seq<Update>, files: map<string, string>, script: seq<WriteOutcome>, log: seq<Update>,
                          before: map<string, string>, plan: seq<Update>, saved: seq<string>, start: nat, i: nat,
                          down: int, failed: seq<string>)
    requires i < |plan| == |saved| && -1 <= down <= i
  {
    && |writes| == start + 2 * i + 1 - down
    && writes == log + Undo(plan, saved, i, down)
    && UndoneDownTo(before, files, script, plan, saved, start, i, down, failed)
  }

  lemma RollingStep(writes: seq<Update>, files: map<string, string>, script: seq<WriteOutcome>, log: seq<Update>,
                    before: map<string, string>, plan: seq<Update>, saved: seq<string>, start: nat, i: nat,
                    down: nat, failed: seq<string>)
    requires i < |plan| == |saved| && down <= i && DistinctNames(plan)
    requires Rolling(writes, files, script, log, before, plan, saved, start, i, down, failed)
    ensures var o, name := RollbackOutcome(script, start, i, down), plan[down].name;
            Rolling(writes + [Update(name, saved[down])], files[name := if o.Written? then saved[down] else o.left],
                    script, log, before, plan, saved, start, i, down - 1,
                    if o.Written? then failed else failed + [name])
  {
    UndoneStep(before, files, script, plan, saved, start, i, down, failed);
    UndoNext(log, plan, saved, i, down);
  }

  lemma NothingUndone(before: map<string, string>, files: map<string, string>, script: seq<WriteOutcome>,
                      plan: seq<Update>, saved: seq<string>, start: nat, i: nat)
    requires i < |plan| == |saved| && Untouched(before, files, plan[..i + 1])
    ensures UndoneDownTo(before, files, script, plan, saved, start, i, i, [])
  {
  }

  lemma UndoNext(log: seq<Update>, plan: seq<Update>, saved: seq<string>, i: nat, down: nat)
    requires down <= i < |plan| == |saved|
    ensures log + Undo(plan, saved, i, down) + [Update(plan[down].name, saved[down])]
        == log + Undo(plan, saved, i, down - 1)
  {
  }

  method RollBackOne(f: ControlFiles, plan: seq<Update>, saved: seq<string>, i: nat, down: nat, failed: seq<string>,
                     ghost before: map<string, string>, ghost start: nat, ghost log: seq<Update>)
    returns (failed': seq<string>)
    requires down <= i < |plan| == |saved| && DistinctNames(plan)
    requires Rolling(f.writes, f.files, f.script, log, before, plan, saved, start, i, down, failed)
    modifies f`files, f`writes
    ensures f.writes == old(f.writes) + [Update(plan[down].name, saved[down])]
    ensures Rolling(f.writes, f.files, f.script, log, before, plan, saved, start, i, down - 1, failed')
  {
    ghost var files, o := f.files, RollbackOutcome(f.script, start, i, down);
    RollingStep(f.writes, files, f.script, log, before, plan, saved, start, i, down, failed);
    var ok := f.WriteFile(plan[down].name, saved[down]);
    failed' := if ok then failed else failed + [plan[down].name];
    assert f.files == files[plan[down].name := if o.Written? then saved[down] else o.left];
    assert failed' == if o.Written? then failed else failed + [plan[down].name];
  }

  // ---------- What rolling back means ----------

  /**
   A file whose rollback write did not fail has its old contents up to surrounding
   white space after a failed update, and exactly them if and only if no update
   touched it or there was no white space around them.
   */
  lemma RolledBackRestores(before: map<string, string>, unreadable: set<string>, files: map<string, string>,
                           script: seq<WriteOutcome>, plan: seq<Update>, start: nat, i: nat, failed: seq<string>,
                           name: string)
    requires i < |plan| && Saved(before, unreadable, plan).Ok? && |Saved(before, unreadable, plan).value| == |plan|
    requires RolledBack(before, files, script, plan, Saved(before, unreadable, plan).value, start, i, failed)
    requires name !in failed
    ensures name in before <==> name in files
    ensures name in before ==> Trim(files[name]) == Trim(before[name])
    ensures name in before ==>
              (files[name] == before[name] <==> !NamedIn(plan[..i + 1], name) || Trim(before[name]) == before[name])
  {
    if NamedIn(plan[..i + 1], name) {
      var j :| 0 <= j < |plan[..i + 1]| && plan[..i + 1][j].name == name;
      assert plan[j].name == name;
      SavedAt(before, unreadable, plan, j);
      TrimIdempotent(before[name]);
      assert RollbackOutcome(script, start, i, j).Written?;
    } else {
      assert SameAt(before, files, name);
    }
  }

  /** The kernel ends a value with a newline: a write fails, the rollback succeeds, and the newline is gone. */
  lemma RollbackLosesNewline(left: string)
    ensures var before, after := map["pids.max" := "100\n"], map["pids.max" := "100"];
            var plan := [Update("pids.max", "200")];
            && Saved(before, {}, plan) == Ok(["100"])
            && RolledBack(before, after, [WriteFailed(left), Written], plan, ["100"], 0, 0, [])
            && after["pids.max"] != before["pids.max"]
  {
    var before, plan := map["pids.max" := "100\n"], [Update("pids.max", "200")];
    assert "100"[0] == '1' && "100"[|"100"| - 1] == '0';
    TrimNewline("100");
    assert "100" + "\n" == "100\n";
    assert plan[..0] == [] && Saved(before, {}, plan[..0]) == Ok([]);
    assert plan[..1][0].name == "pids.max";
    assert [] + ["100"] == ["100"];
    assert |"100"| != |"100\n"|;
  }

  lemma TrimNewline(s: string)
    requires s != "" && !IsSpace(s[0]) && !EndsInSpace(s)
    ensures Trim(s + "\n") == s
  {
    var t := s + "\n";
    assert t[0] == s[0] && t[|t| - 1] == '\n' && t[..|t| - 1] == s;
    assert TrimLeft(t) == t && TrimRight(t) == TrimRight(s);
    TrimRightShape(s);
  }
}
