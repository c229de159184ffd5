/**
 What cleanup leaves behind when actors interleave and removals fail. A token is
 written before what it names is created, and cleared only after that is gone,
 so nothing is left on the host that no token names.
 */
module FinalizationLeftovers {
  import opened Finalization
  import opened GenerationStore
  import opened ProcessIdentity
  import opened Wrappers

  // ---------- What a token covers ----------

  /** A pending token of the generation names the resource; DNS entries have no token. */
  predicate Covered(s: Store, g: Identity, r: Resource) {
    match r
    case Cgroup(name) => s.cgroup == Some(CgroupOwnership(name, g))
    case Dns(_) => true
    case _ => s.network.Some? && s.network.value.generation == g && Names(NetworkRemovals(s.network.value), r)
  }

  ghost predicate HostCovered(y: System) {
    forall r | r in y.host :: Covered(y.store, y.host[r], r)
  }

  /** An actor about to clear a token has seen to it that nothing the token names is left. */
  ghost predicate PcClean(host: map<Resource, Identity>, pc: Pc) {
    match pc
    case ClearingCgroup(o, _) => !(Cgroup(o.name) in host && host[Cgroup(o.name)] == o.generation)
    case ClearingNetwork(o) => forall r | r in host && host[r] == o.generation :: !Names(NetworkRemovals(o), r)
    case _ => true
  }

  ghost predicate ActorsClean(y: System) {
    forall a | a in y.actors :: PcClean(y.host, y.actors[a])
  }

  // ---------- The condition ----------

  /** A generation creates something only while it runs and a token of its names that. */
  predicate CreatesCovered(y: System, op: Op) {
    op.Create? ==> y.store.record == Running(op.g) && Covered(y.store, op.g, op.resource)
  }

  predicate TokensFirst(expected: Identity -> Option<string>, y: System, ops: seq<Op>)
    decreases |ops|
  {
    ops == [] || (CreatesCovered(y, ops[0]) && TokensFirst(expected, Step(expected, y, ops[0]), ops[1..]))
  }

  // ---------- What every step keeps ----------

  lemma CreateKeeps(expected: Identity -> Option<string>, y: System, g: Identity, r: Resource)
    requires Inv(y) && HostCovered(y) && ActorsClean(y) && CreatesCovered(y, Create(g, r))
    ensures HostCovered(Step(expected, y, Create(g, r))) && ActorsClean(Step(expected, y, Create(g, r)))
  {
    var y' := Step(expected, y, Create(g, r));
    forall a | a in y'.actors
      ensures PcClean(y'.host, y'.actors[a])
    {
      assert PcOk(y, y.actors[a]) && PcClean(y.host, y.actors[a]);
      RunningNotFinished(y, g);
    }
  }

  lemma RunningNotFinished(y: System, g: Identity)
    requires LifecycleOk(y) && y.store.record == Running(g)
    ensures !Finished(y, g)
  {
  }

  lemma FewerClean(host: map<Resource, Identity>, removals: seq<Removal>, fault: Fault, pc: Pc)
    requires PcClean(host, pc)
    ensures PcClean(HostAfter(host, removals, fault), pc)
  {
  }

  /** What an actor that is about to clear a token has just removed is gone. */
  lemma RemovedClean(expected: Identity -> Option<string>, s: Store, host: map<Resource, Identity>, pc: Pc,
                     fault: Fault)
    ensures var e := ActStep(expected, s, pc, fault);
            PcClean(HostAfter(host, e.removed, fault), e.next)
  {
    var e := ActStep(expected, s, pc, fault);
    if pc.RemovingCgroup? && fault.Fine? {
      assert e.removed[0].resource == Cgroup(pc.cgroup.name);
      assert Names(e.removed, Cgroup(pc.cgroup.name));
    }
  }

  /** Only a token nothing is left of is cleared. */
  lemma ClearedCovers(expected: Identity -> Option<string>, y: System, pc: Pc, fault: Fault)
    requires HostCovered(y) && PcClean(y.host, pc)
    ensures var e := ActStep(expected, y.store, pc, fault);
            forall r | r in y.host :: Covered(e.store, y.host[r], r)
  {
    var e := ActStep(expected, y.store, pc, fault);
    forall r | r in y.host
      ensures Covered(e.store, y.host[r], r)
    {
      assert Covered(y.store, y.host[r], r);
      TokensOnlyCleared(expected, y.store, pc, fault);
    }
  }

  lemma TokensOnlyCleared(expected: Identity -> Option<string>, s: Store, pc: Pc, fault: Fault)
    ensures var e := ActStep(expected, s, pc, fault);
            && (e.store.cgroup == s.cgroup || (pc.ClearingCgroup? && s.cgroup == Some(pc.cgroup)))
            && (e.store.network == s.network || (pc.ClearingNetwork? && s.network == Some(pc.network)))
  {
  }

  lemma ActKeeps(expected: Identity -> Option<string>, y: System, a: nat, fault: Fault)
    requires HostCovered(y) && ActorsClean(y) && a in y.actors
    ensures HostCovered(Step(expected, y, Act(a, fault))) && ActorsClean(Step(expected, y, Act(a, fault)))
  {
    var e := ActStep(expected, y.store, y.actors[a], fault);
    ClearedCovers(expected, y, y.actors[a], fault);
    RemovedClean(expected, y.store, y.host, y.actors[a], fault);
    forall b | b in y.actors
      ensures PcClean(HostAfter(y.host, e.removed, fault), y.actors[b])
    {
      FewerClean(y.host, e.removed, fault, y.actors[b]);
    }
  }

  lemma StepKeeps(expected: Identity -> Option<string>, y: System, op: Op)
    requires Inv(y) && HostCovered(y) && ActorsClean(y) && CreatesCovered(y, op)
    ensures HostCovered(Step(expected, y, op)) && ActorsClean(Step(expected, y, op))
  {
    match op
    case Create(g, r) => CreateKeeps(expected, y, g, r);
    case Act(a, fault) =>
      if a in y.actors {
        ActKeeps(expected, y, a, fault);
      }
    case _ => OthersKeep(expected, y, op);
  }

  /** The other operations write tokens at most, and only where there was none. */
  lemma OthersKeep(expected: Identity -> Option<string>, y: System, op: Op)
    requires HostCovered(y) && ActorsClean(y) && !op.Create? && !op.Act?
    ensures HostCovered(Step(expected, y, op)) && ActorsClean(Step(expected, y, op))
  {
    var y' := Step(expected, y, op);
    assert y'.host == y.host;
    assert y'.store.cgroup == y.store.cgroup || y.store.cgroup.None?;
    assert y'.store.network == y.store.network || y.store.network.None?;
  }

  lemma {:induction false} RunKeeps(expected: Identity -> Option<string>, y: System, ops: seq<Op>)
    requires Inv(y) && HostCovered(y) && ActorsClean(y) && TokensFirst(expected, y, ops)
    ensures HostCovered(Run(expected, y, ops))
    decreases |ops|
  {
    if ops != [] {
      StepKeeps(expected, y, ops[0]);
      StepKeepsInv(expected, y, ops[0]);
      RunKeeps(expected, Step(expected, y, ops[0]), ops[1..]);
    }
  }

  // ---------- The promises ----------

  /**
   In every interleaving, whatever fails: if generations create things only while
   they run and a token names them, everything on the host but DNS entries is
   named by a pending token of the generation that created it.
   */
  lemma LeftoversNamed(expected: Identity -> Option<string>, ops: seq<Op>)
    requires TokensFirst(expected, INITIAL, ops)
    ensures var y := Run(expected, INITIAL, ops);
            forall r | r in y.host :: Covered(y.store, y.host[r], r)
  {
    RunKeeps(expected, INITIAL, ops);
  }

  /** So a container that can start again has left nothing else behind. */
  lemma NothingLeft(expected: Identity -> Option<string>, ops: seq<Op>, h: Identity)
    requires TokensFirst(expected, INITIAL, ops)
    requires var s := Run(expected, INITIAL, ops).store; !s.record.Running? && MarkRunning(s, h).1
    ensures forall r | r in Run(expected, INITIAL, ops).host :: r.Dns?
  {
    LeftoversNamed(expected, ops);
  }

  /** The condition is needed: what is created after the stop stays, and no token names it. */
  lemma NeedsTokensFirst(expected: Identity -> Option<string>, g: Identity, h: Identity, name: string)
    requires g.Complete() && h.Complete() && expected(g) == Some(name)
    ensures var y :=
        Run(expected, INITIAL, [Start(g), Exit(g), Finalize(0, g, 0), Act(0, Fine), Create(g, Cgroup(name))]);
            y.host == map[Cgroup(name) := g] && !y.store.record.Running? && MarkRunning(y.store, h).1
  {
    var y1 := Step(expected, INITIAL, Start(g));
    var y2 := Step(expected, y1, Exit(g));
    var y3 := Step(expected, y2, Finalize(0, g, 0));
    var y4 := Step(expected, y3, Act(0, Fine));
    var y5 := Step(expected, y4, Create(g, Cgroup(name)));
    NothingTaken(map[], Fine);
    RunStep(expected, y4, Create(g, Cgroup(name)), []);
    RunStep(expected, y3, Act(0, Fine), [Create(g, Cgroup(name))]);
    RunStep(expected, y2, Finalize(0, g, 0), [Act(0, Fine), Create(g, Cgroup(name))]);
    RunStep(expected, y1, Exit(g), [Finalize(0, g, 0), Act(0, Fine), Create(g, Cgroup(name))]);
    RunStep(expected, INITIAL, Start(g), [Exit(g), Finalize(0, g, 0), Act(0, Fine), Create(g, Cgroup(name))]);
    assert Run(expected, y5, []) == y5;
    assert y5.host == map[Cgroup(name) := g];
  }
}
