/**
 Which control files a resource update writes, what the values in them mean, and
 when the current ones can be saved.
 */
module CgroupPlan {
  import opened CgroupUpdate
  import opened Decimals
  import opened WhiteSpace
  import opened Wrappers

  /** An update is refused exactly for a negative limit, a weight over 10000, or more CPUs than fit into 63 bits. */
  lemma RefusedSettings(cfg: UpdateConfig)
    ensures !ValidConfig(cfg) <==>
            || cfg.memoryMax < 0 || cfg.pidsMax < 0 || cfg.cpuWeight < 0 || cfg.cpuWeight > 10000
            || cfg.cpus < 0.0 || cfg.cpus * 100000.0 > 9223372036854775807.0
  {
    assert MAX_INT64 as real == 9223372036854775807.0 && CPU_PERIOD_USEC as real == 100000.0;
    QuotientBound(cfg.cpus);
  }

  lemma QuotientBound(x: real)
    ensures x <= 9223372036854775807.0 / 100000.0 <==> x * 100000.0 <= 9223372036854775807.0
  {
    var m := 9223372036854775807.0;
    assert m / 100000.0 * 100000.0 == m;
  }

  /** The value planned for a file. */
  function ValueFor(plan: seq<Update>, name: string): Option<string> {
    if plan == [] then None
    else if plan[0].name == name then Some(plan[0].value)
    else ValueFor(plan[1..], name)
  }

  /** The order in which files are written; there are no others. */
  function Place(name: string): nat {
    if name == "memory.max" then 0
    else if name == "cpu.max" then 1
    else if name == "cpu.weight" then 2
    else if name == "pids.max" then 3
    else 4
  }

  lemma ValueBehind(c: bool, u: Update, rest: seq<Update>, name: string)
    ensures ValueFor(When(c, u) + rest, name) == if c && u.name == name then Some(u.value) else ValueFor(rest, name)
  {
    if c {
      assert ([u] + rest)[1..] == rest;
    } else {
      assert [] + rest == rest;
    }
  }

  /** Four possible updates in a row. */
  lemma ValueOfFour(p: bool, a: Update, q: bool, b: Update, r: bool, c: Update, t: bool, d: Update, name: string)
    ensures ValueFor(When(p, a) + When(q, b) + When(r, c) + When(t, d), name)
         == if p && a.name == name then Some(a.value)
            else if q && b.name == name then Some(b.value)
            else if r && c.name == name then Some(c.value)
            else if t && d.name == name then Some(d.value)
            else None
  {
    var last := When(t, d);
    var lastTwo := When(r, c) + last;
    var lastThree := When(q, b) + lastTwo;
    assert When(p, a) + When(q, b) + When(r, c) + When(t, d) == When(p, a) + lastThree;
    ValueBehind(p, a, lastThree, name);
    ValueBehind(q, b, lastTwo, name);
    ValueBehind(r, c, last, name);
    assert last + [] == last;
    ValueBehind(t, d, [], name);
  }

  lemma PlanParts(cfg: UpdateConfig, name: string)
    requires ValidConfig(cfg)
    ensures ValueFor(Plan(cfg), name)
         == if cfg.memoryMax > 0 && name == "memory.max" then Some(Decimal(cfg.memoryMax))
            else if cfg.cpus > 0.0 && name == "cpu.max" then
              Some(Decimal(Quota(cfg.cpus)) + " " + Decimal(CPU_PERIOD_USEC))
            else if cfg.cpuWeight > 0 && name == "cpu.weight" then Some(Decimal(cfg.cpuWeight))
            else if cfg.pidsMax > 0 && name == "pids.max" then Some(Decimal(cfg.pidsMax))
            else None
  {
    var memory, weight := Update("memory.max", Decimal(cfg.memoryMax)), Update("cpu.weight", Decimal(cfg.cpuWeight));
    var cpu := Update("cpu.max", Decimal(Quota(cfg.cpus)) + " " + Decimal(CPU_PERIOD_USEC));
    var pids := Update("pids.max", Decimal(cfg.pidsMax));
    ValueOfFour(cfg.memoryMax > 0, memory, cfg.cpus > 0.0, cpu, cfg.cpuWeight > 0, weight, cfg.pidsMax > 0, pids, name);
  }

  /**
   A setting is planned exactly if it is positive, for the file named after it:
   the memory limit, the CPU weight and the PID limit as numbers, and the CPUs as
   the whole microseconds they have in every 100000.
   */
  lemma PlannedSettings(cfg: UpdateConfig) returns (quota: string, period: string)
    requires ValidConfig(cfg)
    ensures var plan := Plan(cfg);
            && (ValueFor(plan, "memory.max").Some? <==> cfg.memoryMax > 0)
            && (cfg.memoryMax > 0 ==> Number(ValueFor(plan, "memory.max").value) == cfg.memoryMax)
            && (ValueFor(plan, "cpu.weight").Some? <==> cfg.cpuWeight > 0)
            && (cfg.cpuWeight > 0 ==> Number(ValueFor(plan, "cpu.weight").value) == cfg.cpuWeight)
            && (ValueFor(plan, "pids.max").Some? <==> cfg.pidsMax > 0)
            && (cfg.pidsMax > 0 ==> Number(ValueFor(plan, "pids.max").value) == cfg.pidsMax)
            && (ValueFor(plan, "cpu.max").Some? <==> cfg.cpus > 0.0)
            && (cfg.cpus > 0.0 ==> ValueFor(plan, "cpu.max") == Some(quota + " " + period))
    ensures Number(quota) as real <= cfg.cpus * 100000.0 < Number(quota) as real + 1.0 && Number(period) == 100000
  {
    NamesDiffer();
    PlanParts(cfg, "memory.max");
    PlanParts(cfg, "cpu.max");
    PlanParts(cfg, "cpu.weight");
    PlanParts(cfg, "pids.max");
    DecimalValue(cfg.memoryMax);
    DecimalValue(cfg.cpuWeight);
    DecimalValue(cfg.pidsMax);
    QuotaIs(cfg.cpus);
    quota, period := Decimal(Quota(cfg.cpus)), Decimal(CPU_PERIOD_USEC);
    DecimalValue(Quota(cfg.cpus));
    DecimalValue(CPU_PERIOD_USEC);
  }

  lemma QuotaIs(cpus: real)
    requires cpus >= 0.0
    ensures Quota(cpus) >= 0 && Quota(cpus) as real <= cpus * 100000.0 < Quota(cpus) as real + 1.0
  {
    assert CPU_PERIOD_USEC as real == 100000.0;
  }

  /** The places of the files in a plan. */
  ghost predicate InOrder(plan: seq<Update>, from: nat, to: nat) {
    && (forall i | 0 <= i < |plan| :: from <= Place(plan[i].name) < to)
    && (forall i, j | 0 <= i < j < |plan| :: Place(plan[i].name) < Place(plan[j].name))
  }

  lemma InOrderConcat(a: seq<Update>, b: seq<Update>, from: nat, mid: nat, to: nat)
    requires from <= mid <= to && InOrder(a, from, mid) && InOrder(b, mid, to)
    ensures InOrder(a + b, from, to)
  {
  }

  lemma OneInOrder(c: bool, u: Update)
    ensures InOrder(When(c, u), Place(u.name), Place(u.name) + 1)
  {
  }

  lemma Places()
    ensures Place("memory.max") == 0 && Place("cpu.max") == 1 && Place("cpu.weight") == 2 && Place("pids.max") == 3
  {
    NamesDiffer();
  }

  lemma FourInOrder(p: bool, a: Update, q: bool, b: Update, r: bool, c: Update, t: bool, d: Update)
    requires Place(a.name) == 0 && Place(b.name) == 1 && Place(c.name) == 2 && Place(d.name) == 3
    ensures InOrder(When(p, a) + When(q, b) + When(r, c) + When(t, d), 0, 4)
  {
    OneInOrder(p, a);
    OneInOrder(q, b);
    OneInOrder(r, c);
    OneInOrder(t, d);
    InOrderConcat(When(p, a), When(q, b), 0, 1, 2);
    InOrderConcat(When(p, a) + When(q, b), When(r, c), 0, 2, 3);
    InOrderConcat(When(p, a) + When(q, b) + When(r, c), When(t, d), 0, 3, 4);
  }

  /** Settings are written in one order: memory, CPUs, CPU weight, PIDs. */
  lemma PlannedInOrder(cfg: UpdateConfig)
    requires ValidConfig(cfg)
    ensures InOrder(Plan(cfg), 0, 4)
  {
    Places();
    FourInOrder(cfg.memoryMax > 0, Update("memory.max", Decimal(cfg.memoryMax)),
                cfg.cpus > 0.0, Update("cpu.max", Decimal(Quota(cfg.cpus)) + " " + Decimal(CPU_PERIOD_USEC)),
                cfg.cpuWeight > 0, Update("cpu.weight", Decimal(cfg.cpuWeight)),
                cfg.pidsMax > 0, Update("pids.max", Decimal(cfg.pidsMax)));
  }

  // ---------- Saving ----------

  /** The first file that cannot be read or is blank, if there is one. */
  ghost predicate FirstBad(files: map<string, string>, unreadable: set<string>, plan: seq<Update>, i: nat) {
    && i < |plan| && !Savable(files, unreadable, plan[i].name)
    && forall j | 0 <= j < i :: Savable(files, unreadable, plan[j].name)
  }

  ghost predicate Savable(files: map<string, string>, unreadable: set<string>, name: string) {
    name in files && name !in unreadable && exists k :: 0 <= k < |files[name]| && !IsSpace(files[name][k])
  }

  /**
   Saving succeeds exactly if every planned file can be read and is not blank, and
   then has every value without the white space around it; otherwise the first
   file that is not is to blame.
   */
  lemma {:induction false} SavedExactly(files: map<string, string>, unreadable: set<string>, plan: seq<Update>)
    ensures var r := Saved(files, unreadable, plan);
            && (r.Ok? <==> forall i | 0 <= i < |plan| :: Savable(files, unreadable, plan[i].name))
            && (r.Ok? ==> |r.value| == |plan| && forall i | 0 <= i < |plan| :: r.value[i] == Trim(files[plan[i].name]))
            && (r.Err? ==> exists i: nat :: FirstBad(files, unreadable, plan, i)
                             && r.error == if plan[i].name !in files || plan[i].name in unreadable
                                           then ReadFailed(plan[i].name) else EmptyValue(plan[i].name))
    decreases |plan|
  {
    if plan != [] {
      var init, last := plan[..|plan| - 1], plan[|plan| - 1];
      SavedExactly(files, unreadable, init);
      assert forall i | 0 <= i < |init| :: init[i] == plan[i];
      if last.name in files {
        BlankTrims(files[last.name]);
      }
      var r := Saved(files, unreadable, init);
      if r.Err? {
        var i: nat :| FirstBad(files, unreadable, init, i)
                      && r.error == if init[i].name !in files || init[i].name in unreadable
                                    then ReadFailed(init[i].name) else EmptyValue(init[i].name);
        assert FirstBad(files, unreadable, plan, i);
      } else if !Savable(files, unreadable, last.name) {
        assert FirstBad(files, unreadable, plan, |init|);
      }
    }
  }

  /** Only a blank text is trimmed to nothing. */
  lemma BlankTrims(s: string)
    ensures Trim(s) == "" <==> forall k | 0 <= k < |s| :: IsSpace(s[k])
  {
    LeftBlank(s);
    RightBlank(TrimLeft(s));
    TrimLeftShape(s);
  }

  lemma {:induction false} LeftBlank(s: string)
    ensures TrimLeft(s) == "" <==> forall k | 0 <= k < |s| :: IsSpace(s[k])
    decreases |s|
  {
    if s != "" && IsSpace(s[0]) {
      LeftBlank(s[1..]);
      assert forall k | 1 <= k < |s| :: s[k] == s[1..][k - 1];
    }
  }

  lemma {:induction false} RightBlank(s: string)
    ensures s != "" && !IsSpace(s[0]) ==> TrimRight(s) != ""
    decreases |s|
  {
    if s != "" && IsSpace(s[|s| - 1]) {
      RightBlank(s[..|s| - 1]);
    }
  }

  // ---------- The order of a rollback ----------

  /** The rollback writes go from the file of the failed write back to the first, each with its saved value. */
  lemma {:induction false} UndoneBackwards(plan: seq<Update>, saved: seq<string>, i: nat, down: int)
    requires i < |plan| == |saved| && -1 <= down <= i
    ensures var undo := Undo(plan, saved, i, down);
            && |undo| == i - down
            && forall k | 0 <= k < |undo| :: undo[k] == Update(plan[i - k].name, saved[i - k])
    decreases i - down
  {
    if down < i {
      UndoneBackwards(plan, saved, i, down + 1);
    }
  }
}
