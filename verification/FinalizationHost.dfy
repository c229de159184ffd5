/**
 What the removals of `Finalization` do to the host. Things are removed by name,
 after other actors may have removed them and a later generation may have made
 its own, so what keeps a running generation's resources is that no name is used
 by two generations: cgroup names are derived from the process identity, and
 every generation draws an owner of its own for its ports and interface.
 */
module FinalizationHost {
  import opened CgroupNames
  import opened Finalization
  import opened GenerationStore
  import opened ProcessIdentity
  import opened Wrappers

  // ---------- Whose a name is ----------

  /** The owner an operation uses, and for which generation. */
  function Mentions(op: Op): Option<(string, Identity)> {
    match op
    case OwnNetwork(o) => Some((o.owner, o.generation))
    case RetryNetwork(_, o) => Some((o.owner, o.generation))
    case Create(g, Port(owner, _)) => Some((owner, g))
    case Create(g, Veth(_, owner)) => Some((owner, g))
    case _ => None
  }

  function Owners(ops: seq<Op>): set<(string, Identity)> {
    set i | 0 <= i < |ops| && Mentions(ops[i]).Some? :: Mentions(ops[i]).value
  }

  /** No owner is used for two generations. */
  predicate FreshOwners(owners: set<(string, Identity)>) {
    forall p, q | p in owners && q in owners && p.0 == q.0 :: p.1 == q.1
  }

  /** No cgroup name is derived from two generations. */
  ghost predicate DistinctNames(expected: Identity -> Option<string>) {
    forall g: Identity, h: Identity | g.Complete() && h.Complete() && expected(g).Some?
        && expected(g) == expected(h) :: g == h
  }

  /** The name is one a generation may create something under, or write into its tokens. */
  predicate Belongs(expected: Identity -> Option<string>, owners: set<(string, Identity)>, r: Resource, g: Identity) {
    match r
    case Cgroup(name) => expected(g) == Some(name)
    case Port(owner, _) => (owner, g) in owners
    case Veth(_, owner) => (owner, g) in owners
    case Dns(h) => h == g
  }

  lemma BelongsOnce(expected: Identity -> Option<string>, owners: set<(string, Identity)>, r: Resource, g: Identity,
                    h: Identity)
    requires DistinctNames(expected) && FreshOwners(owners) && g.Complete() && h.Complete()
    requires Belongs(expected, owners, r, g) && Belongs(expected, owners, r, h)
    ensures g == h
  {
    match r
    case Port(owner, _) => assert (owner, g).0 == (owner, h).0;
    case Veth(_, owner) => assert (owner, g).0 == (owner, h).0;
    case _ =>
  }

  // ---------- What every step keeps ----------

  predicate NetworkNamed(owners: set<(string, Identity)>, o: NetworkOwnership) {
    (o.owner, o.generation) in owners
  }

  predicate PcNamed(expected: Identity -> Option<string>, owners: set<(string, Identity)>, pc: Pc) {
    match pc
    case RemovingCgroup(o, _) => expected(o.generation) == Some(o.name)
    case AbortRemoving(g, name) => expected(g) == Some(name)
    case GatingNetwork(o) => NetworkNamed(owners, o)
    case AuthorizingNetwork(o, _) => NetworkNamed(owners, o)
    case RemovingNetwork(o) => NetworkNamed(owners, o)
    case _ => true
  }

  ghost predicate HostNamed(expected: Identity -> Option<string>, owners: set<(string, Identity)>, y: System) {
    forall r | r in y.host :: y.host[r] in y.started && Belongs(expected, owners, r, y.host[r])
  }

  predicate StoreNamed(owners: set<(string, Identity)>, s: Store) {
    s.network.Some? ==> NetworkNamed(owners, s.network.value)
  }

  ghost predicate ActorsNamed(expected: Identity -> Option<string>, owners: set<(string, Identity)>, y: System) {
    forall a | a in y.actors :: PcNamed(expected, owners, y.actors[a])
  }

  ghost predicate TakenNamed(expected: Identity -> Option<string>, owners: set<(string, Identity)>, y: System, t: Taken)
  {
    && Belongs(expected, owners, t.removal.resource, t.removal.generation)
    && (t.creator.Some?
        ==> t.creator.value in y.started && Belongs(expected, owners, t.removal.resource, t.creator.value))
  }

  ghost predicate RemovedNamed(expected: Identity -> Option<string>, owners: set<(string, Identity)>, y: System) {
    forall i | 0 <= i < |y.removed| :: TakenNamed(expected, owners, y, y.removed[i])
  }

  ghost predicate Named(expected: Identity -> Option<string>, owners: set<(string, Identity)>, y: System) {
    && HostNamed(expected, owners, y) && StoreNamed(owners, y.store)
    && ActorsNamed(expected, owners, y) && RemovedNamed(expected, owners, y)
  }

  /** The removals of a step are under names of the generation they are for. */
  predicate RemovalsNamed(expected: Identity -> Option<string>, owners: set<(string, Identity)>, removals: seq<Removal>)
  {
    forall i | 0 <= i < |removals| :: Belongs(expected, owners, removals[i].resource, removals[i].generation)
  }

  lemma NetworkRemovalsNamed(expected: Identity -> Option<string>, owners: set<(string, Identity)>, o: NetworkOwnership)
    requires NetworkNamed(owners, o)
    ensures RemovalsNamed(expected, owners, NetworkRemovals(o))
  {
  }

  lemma EffectNamed(expected: Identity -> Option<string>, owners: set<(string, Identity)>, s: Store, pc: Pc,
                    fault: Fault)
    requires StoreNamed(owners, s) && PcNamed(expected, owners, pc)
    ensures var e := ActStep(expected, s, pc, fault);
            && StoreNamed(owners, e.store) && RemovalsNamed(expected, owners, e.removed)
  {
    if pc.RemovingNetwork? {
      NetworkRemovalsNamed(expected, owners, pc.network);
    }
  }

  lemma NextNamed(expected: Identity -> Option<string>, owners: set<(string, Identity)>, s: Store, pc: Pc, fault: Fault)
    requires StoreNamed(owners, s) && PcNamed(expected, owners, pc)
    ensures PcNamed(expected, owners, ActStep(expected, s, pc, fault).next)
  {
  }

  lemma ActNamed(expected: Identity -> Option<string>, owners: set<(string, Identity)>, y: System, a: nat, fault: Fault)
    requires Named(expected, owners, y) && a in y.actors
    ensures Named(expected, owners, Step(expected, y, Act(a, fault)))
  {
    var e := ActStep(expected, y.store, y.actors[a], fault);
    EffectNamed(expected, owners, y.store, y.actors[a], fault);
    NextNamed(expected, owners, y.store, y.actors[a], fault);
    var y' := Step(expected, y, Act(a, fault));
    forall i | 0 <= i < |y'.removed|
      ensures TakenNamed(expected, owners, y', y'.removed[i])
    {
      if i < |y.removed| {
        assert y'.removed[i] == y.removed[i];
      } else {
        assert y'.removed[i] == TakenFrom(y.host, e.removed)[i - |y.removed|];
      }
    }
  }

  lemma StepNamed(expected: Identity -> Option<string>, owners: set<(string, Identity)>, y: System, op: Op)
    requires Named(expected, owners, y) && (Mentions(op).Some? ==> Mentions(op).value in owners)
    ensures Named(expected, owners, Step(expected, y, op))
  {
    if op.Act? {
      if op.actor in y.actors {
        ActNamed(expected, owners, y, op.actor, op.fault);
      }
    } else {
      var y' := Step(expected, y, op);
      assert y'.removed == y.removed && y.started <= y'.started;
      assert forall t | t in y.removed && TakenNamed(expected, owners, y, t) :: TakenNamed(expected, owners, y', t);
    }
  }

  lemma {:induction false} RunNamed(expected: Identity -> Option<string>, owners: set<(string, Identity)>, y: System,
                                    ops: seq<Op>)
    requires Named(expected, owners, y) && Owners(ops) <= owners
    ensures Named(expected, owners, Run(expected, y, ops))
    decreases |ops|
  {
    if ops != [] {
      var rest := ops[1..];
      assert Mentions(ops[0]).Some? ==> Mentions(ops[0]).value in Owners(ops);
      forall p | p in Owners(rest)
        ensures p in Owners(ops)
      {
        var i :| 0 <= i < |rest| && Mentions(rest[i]) == Some(p);
        assert ops[i + 1] == rest[i];
      }
      StepNamed(expected, owners, y, ops[0]);
      RunNamed(expected, owners, Step(expected, y, ops[0]), rest);
    }
  }

  // ---------- The promises ----------

  /** What was removed is a name of a generation that is over, and of no other; it took nothing of another's. */
  ghost predicate Rightly(expected: Identity -> Option<string>, owners: set<(string, Identity)>, y: System, t: Taken) {
    var g := t.removal.generation;
    && Finished(y, g) && y.store.record != Running(g)
    && (t.creator.Some? ==> t.creator.value == g)
    && (forall h | h in y.started && Belongs(expected, owners, t.removal.resource, h) :: h == g)
  }

  /**
   In every interleaving, every removal went to a generation that had exited and
   whose stop was committed. No other generation, earlier or later, created
   what was removed or had a claim to its name. Pending tokens belong to the
   generation that runs or to the one that stopped last.
   */
  lemma EveryRemoval(expected: Identity -> Option<string>, ops: seq<Op>)
    requires DistinctNames(expected) && FreshOwners(Owners(ops))
    ensures var y := Run(expected, INITIAL, ops);
            && (forall i | 0 <= i < |y.removed| :: Rightly(expected, Owners(ops), y, y.removed[i]))
            && (y.store.cgroup.Some? ==> TokenOk(y.store, y.store.cgroup.value.generation))
            && (y.store.network.Some? ==> TokenOk(y.store, y.store.network.value.generation))
  {
    var y, owners := Run(expected, INITIAL, ops), Owners(ops);
    RunKeepsInv(expected, INITIAL, ops);
    RunNamed(expected, owners, INITIAL, ops);
    forall i | 0 <= i < |y.removed|
      ensures Rightly(expected, owners, y, y.removed[i])
    {
      TakenRightly(expected, owners, y, y.removed[i]);
    }
  }

  lemma TakenRightly(expected: Identity -> Option<string>, owners: set<(string, Identity)>, y: System, t: Taken)
    requires DistinctNames(expected) && FreshOwners(owners) && LifecycleOk(y)
    requires TakenNamed(expected, owners, y, t) && Finished(y, t.removal.generation)
    ensures Rightly(expected, owners, y, t)
  {
    var g := t.removal.generation;
    if t.creator.Some? {
      BelongsOnce(expected, owners, t.removal.resource, g, t.creator.value);
    }
    forall h | h in y.started && Belongs(expected, owners, t.removal.resource, h)
      ensures h == g
    {
      BelongsOnce(expected, owners, t.removal.resource, g, h);
    }
  }

  /** With the names the program derives, the condition on names holds, whatever the container is called. */
  lemma DerivedNamesDistinct(containerID: string)
    ensures DistinctNames(g => NameForContainerProcess(containerID, g))
  {
    var expected := g => NameForContainerProcess(containerID, g);
    forall g: Identity, h: Identity | g.Complete() && h.Complete() && expected(g).Some? && expected(g) == expected(h)
      ensures g == h
    {
      NameIsExact(containerID, g, containerID, h);
    }
  }

  /** The resources the pending tokens name, a cgroup only under the name derived for it. */
  predicate InToken(expected: Identity -> Option<string>, s: Store, r: Resource) {
    || (s.cgroup.Some? && expected(s.cgroup.value.generation) == Some(s.cgroup.value.name)
        && r == Cgroup(s.cgroup.value.name))
    || (s.network.Some? && Names(NetworkRemovals(s.network.value), r))
  }

  /** A removal that is not for `g`, of nothing that `g` has, may create, or names in its tokens. */
  ghost predicate Spares(expected: Identity -> Option<string>, owners: set<(string, Identity)>, s: Store, g: Identity,
                         t: Taken)
  {
    && t.removal.generation != g && t.creator != Some(g)
    && !Belongs(expected, owners, t.removal.resource, g) && !InToken(expected, s, t.removal.resource)
  }

  /** The host keeps everything `g` has created. */
  ghost predicate KeepsAll(y: System, y': System, g: Identity) {
    forall r | r in y.host && y.host[r] == g :: r in y'.host && y'.host[r] == g
  }

  /**
   Under any names, an actor leaves the record and the tokens of the generation
   that runs as they are. Only a finalizer of that very generation, or the start
   that failed with it, may end it, and it has exited then.
   */
  lemma RunningKept(expected: Identity -> Option<string>, ops: seq<Op>, actor: nat, fault: Fault, g: Identity)
    requires Run(expected, INITIAL, ops).store.record == Running(g) && actor in Run(expected, INITIAL, ops).actors
    ensures var y := Run(expected, INITIAL, ops);
            var s' := Step(expected, y, Act(actor, fault)).store;
            && s'.cgroup == y.store.cgroup && s'.network == y.store.network
            && (s'.record != Running(g) <==>
                Stops(y.actors[actor]).Some? && Stops(y.actors[actor]).value.0 == g && !fault.Fails?)
            && (s'.record != Running(g) ==> g in y.exited)
  {
    RunKeepsInv(expected, INITIAL, ops);
    StoreSpares(expected, Run(expected, INITIAL, ops), actor, fault, g);
  }

  /**
   Nothing an actor does touches what the generation that runs has on the host:
   everything it has created stays, and no removal is of a name it may use.
   */
  lemma RunningUntouched(expected: Identity -> Option<string>, ops: seq<Op>, actor: nat, fault: Fault, g: Identity)
    requires DistinctNames(expected) && FreshOwners(Owners(ops))
    requires Run(expected, INITIAL, ops).store.record == Running(g) && actor in Run(expected, INITIAL, ops).actors
    ensures var y := Run(expected, INITIAL, ops);
            var y' := Step(expected, y, Act(actor, fault));
            && KeepsAll(y, y', g)
            && forall i | |y.removed| <= i < |y'.removed| :: Spares(expected, Owners(ops), y.store, g, y'.removed[i])
  {
    RunKeepsInv(expected, INITIAL, ops);
    RunNamed(expected, Owners(ops), INITIAL, ops);
    ActSpares(expected, Owners(ops), Run(expected, INITIAL, ops), actor, fault, g);
  }

  lemma ActSpares(expected: Identity -> Option<string>, owners: set<(string, Identity)>, y: System, actor: nat,
                  fault: Fault, g: Identity)
    requires Inv(y) && Named(expected, owners, y) && DistinctNames(expected) && FreshOwners(owners)
    requires y.store.record == Running(g) && actor in y.actors
    ensures var y' := Step(expected, y, Act(actor, fault));
            && KeepsAll(y, y', g)
            && forall i | |y.removed| <= i < |y'.removed| :: Spares(expected, owners, y.store, g, y'.removed[i])
  {
    var pc := y.actors[actor];
    var e := ActStep(expected, y.store, pc, fault);
    EffectNamed(expected, owners, y.store, pc, fault);
    EffectFinished(expected, y, pc, fault);
    HostSpares(expected, owners, y, e.removed, fault, g);
    TakenSpares(expected, owners, y, e.removed, g);
    var y' := Step(expected, y, Act(actor, fault));
    assert y'.removed == y.removed + TakenFrom(y.host, e.removed);
  }

  lemma TakenSpares(expected: Identity -> Option<string>, owners: set<(string, Identity)>, y: System,
                    removals: seq<Removal>, g: Identity)
    requires Inv(y) && Named(expected, owners, y) && DistinctNames(expected) && FreshOwners(owners)
    requires y.store.record == Running(g) && RemovalsNamed(expected, owners, removals)
    requires forall i | 0 <= i < |removals| :: Finished(y, removals[i].generation)
    ensures forall i | 0 <= i < |removals| :: Spares(expected, owners, y.store, g, TakenFrom(y.host, removals)[i])
  {
    forall i | 0 <= i < |removals|
      ensures Spares(expected, owners, y.store, g, TakenFrom(y.host, removals)[i])
    {
      RemovalSpares(expected, owners, y, removals[i], g);
    }
  }

  lemma EffectFinished(expected: Identity -> Option<string>, y: System, pc: Pc, fault: Fault)
    requires PcOk(y, pc)
    ensures var e := ActStep(expected, y.store, pc, fault);
            forall i | 0 <= i < |e.removed| :: Finished(y, e.removed[i].generation)
  {
    if RemovesFor(pc).Some? {
      RemoveEffect(expected, y, pc, fault, RemovesFor(pc).value);
    }
  }

  lemma StoreSpares(expected: Identity -> Option<string>, y: System, actor: nat, fault: Fault, g: Identity)
    requires Inv(y) && y.store.record == Running(g) && actor in y.actors
    ensures var s' := Step(expected, y, Act(actor, fault)).store;
            && s'.cgroup == y.store.cgroup && s'.network == y.store.network
            && (s'.record != Running(g) <==>
                Stops(y.actors[actor]).Some? && Stops(y.actors[actor]).value.0 == g && !fault.Fails?)
            && (s'.record != Running(g) ==> g in y.exited)
  {
    assert forall h :: Finished(y, h) ==> h != g;
    assert PcOk(y, y.actors[actor]);
    assert g.Complete();
  }

  lemma RemovalSpares(expected: Identity -> Option<string>, owners: set<(string, Identity)>, y: System, r: Removal,
                      g: Identity)
    requires Inv(y) && Named(expected, owners, y) && DistinctNames(expected) && FreshOwners(owners)
    requires y.store.record == Running(g) && Finished(y, r.generation)
        && Belongs(expected, owners, r.resource, r.generation)
    ensures r.generation != g && !Belongs(expected, owners, r.resource, g) && !InToken(expected, y.store, r.resource)
    ensures r.resource in y.host ==> y.host[r.resource] != g
  {
    if Belongs(expected, owners, r.resource, g) {
      BelongsOnce(expected, owners, r.resource, r.generation, g);
    }
    if y.store.network.Some? {
      NetworkRemovalsNamed(expected, owners, y.store.network.value);
    }
  }

  lemma HostSpares(expected: Identity -> Option<string>, owners: set<(string, Identity)>, y: System,
                   removals: seq<Removal>,
                   fault: Fault, g: Identity)
    requires Inv(y) && Named(expected, owners, y) && DistinctNames(expected) && FreshOwners(owners)
    requires y.store.record == Running(g) && RemovalsNamed(expected, owners, removals)
    requires forall i | 0 <= i < |removals| :: Finished(y, removals[i].generation)
    ensures forall r | r in y.host && y.host[r] == g :: r in HostAfter(y.host, removals, fault)
  {
    forall r | r in y.host && y.host[r] == g
      ensures !Names(removals, r)
    {
      forall i | 0 <= i < |removals|
        ensures removals[i].resource != r
      {
        RemovalSpares(expected, owners, y, removals[i], g);
      }
    }
  }

  // ---------- Both conditions are needed ----------

  lemma {:induction false} RunConcat(expected: Identity -> Option<string>, y: System, a: seq<Op>, b: seq<Op>)
    ensures Run(expected, y, a + b) == Run(expected, Run(expected, y, a), b)
    decreases |a|
  {
    if a == [] {
      assert a + b == b;
    } else {
      RunStep(expected, y, a[0], a[1..] + b);
      assert a + b == [a[0]] + (a[1..] + b);
      RunConcat(expected, Step(expected, y, a[0]), a[1..], b);
    }
  }

  lemma Run3(expected: Identity -> Option<string>, y: System, a: Op, b: Op, c: Op)
    ensures Run(expected, y, [a, b, c]) == Step(expected, Step(expected, Step(expected, y, a), b), c)
  {
    RunStep(expected, Step(expected, Step(expected, y, a), b), c, []);
    RunStep(expected, Step(expected, y, a), b, [c]);
    RunStep(expected, y, a, [b, c]);
  }

  lemma Run4(expected: Identity -> Option<string>, y: System, a: Op, b: Op, c: Op, d: Op)
    ensures Run(expected, y, [a, b, c, d]) == Run(expected, Step(expected, y, a), [b, c, d])
  {
    RunStep(expected, y, a, [b, c, d]);
  }

  lemma Run5(expected: Identity -> Option<string>, y: System, a: Op, b: Op, c: Op, d: Op, e: Op)
    ensures Run(expected, y, [a, b, c, d, e]) == Run(expected, Step(expected, Step(expected, y, a), b), [c, d, e])
  {
    RunStep(expected, y, a, [b, c, d, e]);
    RunStep(expected, Step(expected, y, a), b, [c, d, e]);
  }

  /** `g` runs with `own`, exits, and its stop is recorded by actor 0, which then rests. */
  function Stopping(g: Identity, own: Op): seq<Op> {
    [Start(g), own, Exit(g), Finalize(0, g, 0), Act(0, Fine)]
  }

  function StoppedStore(g: Identity, cgroup: Option<CgroupOwnership>, network: Option<NetworkOwnership>): Store {
    Store(Stopped(Some(g), 0), 2, cgroup, network)
  }

  lemma StoppingRun(expected: Identity -> Option<string>, g: Identity, own: Op, s: Store)
    requires g.Complete() && s.record == Running(g) && s.revision == 1
    requires Step(expected, Step(expected, INITIAL, Start(g)), own) == System(s, map[], {g}, {}, [], [], map[])
    ensures Run(expected, INITIAL, Stopping(g, own))
            == System(StoppedStore(g, s.cgroup, s.network), map[], {g}, {g}, [Stop(g, 0)], [],
                map[0 := ReadingCgroup(g)])
  {
    var y := System(s, map[], {g}, {}, [], [], map[]);
    Run5(expected, INITIAL, Start(g), own, Exit(g), Finalize(0, g, 0), Act(0, Fine));
    Run3(expected, y, Exit(g), Finalize(0, g, 0), Act(0, Fine));
    NothingTaken(map[], Fine);
  }

  function At(y: System, a: nat, pc: Pc): System {
    y.(actors := y.actors[a := pc])
  }

  /** A step that only looks moves its actor and nothing else. */
  lemma LookRun(expected: Identity -> Option<string>, y: System, a: nat, pc: Pc, next: Pc)
    requires ActStep(expected, y.store, pc, Fine) == Quiet(y.store, next)
    ensures Step(expected, At(y, a, pc), Act(a, Fine)) == At(y, a, next)
  {
    MovedTo(expected, At(y, a, pc), a, Fine, ActStep(expected, y.store, pc, Fine));
    assert y.actors[a := pc][a := next] == y.actors[a := next];
  }

  /** A retry gets as far as removing what its network token names. */
  lemma RetryTakesUp(expected: Identity -> Option<string>, y: System, a: nat, o: NetworkOwnership)
    requires y.store.record.Stopped? && y.store.record.exited == Some(o.generation) && a !in y.actors
    ensures Run(expected, y, [RetryNetwork(a, o), Act(a, Fine), Act(a, Fine)]) == At(y, a, RemovingNetwork(o))
  {
    var revision := y.store.revision;
    Run3(expected, y, RetryNetwork(a, o), Act(a, Fine), Act(a, Fine));
    LookRun(expected, y, a, GatingNetwork(o), AuthorizingNetwork(o, revision));
    LookRun(expected, y, a, AuthorizingNetwork(o, revision), RemovingNetwork(o));
  }

  lemma ClearRun(expected: Identity -> Option<string>, y: System, a: nat, o: NetworkOwnership)
    requires a in y.actors && y.actors[a] == ClearingNetwork(o) && y.store.record.Stopped? && y.store.network == Some(o)
    ensures Step(expected, y, Act(a, Fine)) == y.(store := y.store.(network := None), actors := y.actors[a := Done])
  {
    NothingTaken(y.host, Fine);
    assert y.stops + [] == y.stops && y.removed + [] == y.removed;
  }

  /** It removes that and clears the token. */
  lemma RetryFinishes(expected: Identity -> Option<string>, y: System, a: nat, o: NetworkOwnership)
    requires a in y.actors && y.actors[a] == RemovingNetwork(o) && y.store.record.Stopped? && y.store.network == Some(o)
    ensures Run(expected, y, [Act(a, Fine), Act(a, Fine)])
            == y.(store := y.store.(network := None), host := HostAfter(y.host, NetworkRemovals(o), Fine),
                  removed := y.removed + TakenFrom(y.host, NetworkRemovals(o)), actors := y.actors[a := Done])
  {
    var host, removed := HostAfter(y.host, NetworkRemovals(o), Fine), y.removed + TakenFrom(y.host, NetworkRemovals(o));
    var y1 := y.(host := host, removed := removed, actors := y.actors[a := ClearingNetwork(o)]);
    assert Step(expected, y, Act(a, Fine)) == y1 by {
      assert y.stops + [] == y.stops;
    }
    ClearRun(expected, y1, a, o);
    assert y1.actors[a := Done] == y.actors[a := Done];
    RunStep(expected, y1, Act(a, Fine), []);
    RunStep(expected, y, Act(a, Fine), [Act(a, Fine)]);
  }

  /** Actor 1 takes up the network token and is delayed; actor 2 removes what it names and clears it. */
  function Delayed(o: NetworkOwnership): seq<Op> {
    [RetryNetwork(1, o), Act(1, Fine), Act(1, Fine)]
    + ([RetryNetwork(2, o), Act(2, Fine), Act(2, Fine)] + [Act(2, Fine), Act(2, Fine)])
  }

  /** The next generation uses the same owner, and then actor 1 goes on. */
  function Reused(h: Identity, o: NetworkOwnership): seq<Op> {
    [Start(h), OwnNetwork(o.(generation := h)), Create(h, Veth(o.vethHost, o.owner)), Act(1, Fine)]
  }

  lemma DelayedRun(expected: Identity -> Option<string>, y: System, o: NetworkOwnership)
    requires y.store.record.Stopped? && y.store.record.exited == Some(o.generation) && y.store.network == Some(o)
    requires 1 !in y.actors && 2 !in y.actors && y.host == map[]
    ensures Run(expected, y, Delayed(o))
            == y.(store := y.store.(network := None), removed := y.removed + TakenFrom(map[], NetworkRemovals(o)),
                  actors := y.actors[1 := RemovingNetwork(o)][2 := Done])
  {
    var first, second :=
        [RetryNetwork(1, o), Act(1, Fine), Act(1, Fine)], [RetryNetwork(2, o), Act(2, Fine), Act(2, Fine)];
    var last := [Act(2, Fine), Act(2, Fine)];
    var y1 := y.(actors := y.actors[1 := RemovingNetwork(o)]);
    var y2 := y1.(actors := y1.actors[2 := RemovingNetwork(o)]);
    RetryTakesUp(expected, y, 1, o);
    RetryTakesUp(expected, y1, 2, o);
    RetryFinishes(expected, y2, 2, o);
    assert y2.actors[2 := Done] == y1.actors[2 := Done];
    assert HostAfter(map[], NetworkRemovals(o), Fine) == map[];
    RunConcat(expected, y, first, second + last);
    RunConcat(expected, y1, second, last);
  }

  lemma ReusedRun(expected: Identity -> Option<string>, y: System, h: Identity, o: NetworkOwnership)
    requires h.Complete() && h !in y.started && o.vethHost != "" && o.mappings == []
    requires y.store.record.Stopped? && y.store.cgroup.None? && y.store.network.None?
    requires 1 in y.actors && y.actors[1] == RemovingNetwork(o) && y.host == map[]
    ensures var y' := Run(expected, y, Reused(h, o));
            && y'.store.record == Running(h) && y'.store.network == Some(o.(generation := h)) && y'.host == map[]
            && y'.removed == y.removed + [Taken(Removal(o.generation, Veth(o.vethHost, o.owner)), Some(h))]
  {
    var veth := Veth(o.vethHost, o.owner);
    var own := OwnNetwork(o.(generation := h));
    var y1 := Step(expected, y, Start(h));
    var y2 := Step(expected, y1, own);
    var y3 := y2.(host := map[veth := h]);
    Run4(expected, y, Start(h), own, Create(h, veth), Act(1, Fine));
    Run3(expected, y1, own, Create(h, veth), Act(1, Fine));
    assert Step(expected, y2, Create(h, veth)) == y3;
    assert NetworkRemovals(o) == [Removal(o.generation, veth)];
    assert TakenFrom(y3.host, NetworkRemovals(o)) == [Taken(Removal(o.generation, veth), Some(h))];
    assert NetworkRemovals(o)[0].resource == veth;
    assert HostAfter(y3.host, NetworkRemovals(o), Fine) == map[];
  }

  /**
   If a later generation uses an owner again, an actor that was delayed removes
   the running generation's interface, which its token names.
   */
  lemma NeedsFreshOwners(expected: Identity -> Option<string>, g: Identity, h: Identity, o: NetworkOwnership)
    requires g.Complete() && h.Complete() && g != h && o.generation == g && o.vethHost != "" && o.mappings == []
    ensures var y := Run(expected, INITIAL, Stopping(g, OwnNetwork(o)) + (Delayed(o) + Reused(h, o)));
            var veth := Veth(o.vethHost, o.owner);
            && y.store.record == Running(h) && InToken(expected, y.store, veth)
            && |y.removed| == 2 && y.removed[1] == Taken(Removal(g, veth), Some(h))
            && y.host == map[]
  {
    var s := Store(Running(g), 1, None, Some(o));
    assert Step(expected, Step(expected, INITIAL, Start(g)), OwnNetwork(o)) == System(s, map[], {g}, {}, [], [], map[]);
    StoppingRun(expected, g, OwnNetwork(o), s);
    var y0 := Run(expected, INITIAL, Stopping(g, OwnNetwork(o)));
    DelayedRun(expected, y0, o);
    var y1 := Run(expected, y0, Delayed(o));
    ReusedRun(expected, y1, h, o);
    RunConcat(expected, INITIAL, Stopping(g, OwnNetwork(o)), Delayed(o) + Reused(h, o));
    RunConcat(expected, y0, Delayed(o), Reused(h, o));
    assert NetworkRemovals(o.(generation := h))[0].resource == Veth(o.vethHost, o.owner);
  }

  // ---------- The same for cgroup names ----------

  /** Actor 1 takes up the cgroup token and is delayed; actor 0 removes the cgroup and clears the token. */
  function DelayedCgroup(): seq<Op> {
    [RetryCgroup(1, 2), Act(1, Fine), Act(1, Fine), Act(1, Fine)] + [Act(0, Fine), Act(0, Fine), Act(0, Fine)]
  }

  /** The next generation has a cgroup of the same name, and then actor 1 goes on. */
  function ReusedCgroup(h: Identity, name: string): seq<Op> {
    [Start(h), Create(h, Cgroup(name)), Act(1, Fine)]
  }

  lemma TakeUpCgroup(expected: Identity -> Option<string>, y: System, c: CgroupOwnership)
    requires y.store.record.Stopped? && y.store.record.exited == Some(c.generation) && y.store.cgroup == Some(c)
    requires y.store.revision == 2 && expected(c.generation) == Some(c.name) && 1 !in y.actors
    ensures Run(expected, y, [RetryCgroup(1, 2), Act(1, Fine), Act(1, Fine), Act(1, Fine)])
        == At(y, 1, RemovingCgroup(c, Nothing))
  {
    Run4(expected, y, RetryCgroup(1, 2), Act(1, Fine), Act(1, Fine), Act(1, Fine));
    Run3(expected, At(y, 1, RetryChecking(2)), Act(1, Fine), Act(1, Fine), Act(1, Fine));
    LookRun(expected, y, 1, RetryChecking(2), RetryReading(2));
    LookRun(expected, y, 1, RetryReading(2), RetryAuthorizing(2, c));
    LookRun(expected, y, 1, RetryAuthorizing(2, c), RemovingCgroup(c, Nothing));
  }

  lemma FinishCgroup(expected: Identity -> Option<string>, y: System, c: CgroupOwnership)
    requires y.store.record.Stopped? && y.store.cgroup == Some(c) && expected(c.generation) == Some(c.name)
    requires 0 in y.actors && y.actors[0] == ReadingCgroup(c.generation) && y.host == map[]
    ensures Run(expected, y, [Act(0, Fine), Act(0, Fine), Act(0, Fine)])
            == y.(store := y.store.(cgroup := None),
                  removed := y.removed + [Taken(Removal(c.generation, Cgroup(c.name)), None)],
                  actors := y.actors[0 := Reloading(c.generation)])
  {
    var removals := [Removal(c.generation, Cgroup(c.name))];
    var after := Reload(c.generation);
    var y1 := y.(actors := y.actors[0 := RemovingCgroup(c, after)]);
    var y2 := y.(removed := y.removed + TakenFrom(map[], removals), actors := y.actors[0 := ClearingCgroup(c, after)]);
    Run3(expected, y, Act(0, Fine), Act(0, Fine), Act(0, Fine));
    assert At(y, 0, ReadingCgroup(c.generation)) == y;
    LookRun(expected, y, 0, ReadingCgroup(c.generation), RemovingCgroup(c, after));
    assert HostAfter(map[], removals, Fine) == map[];
    assert y.stops + [] == y.stops && y2.removed + [] == y2.removed;
    assert y1.actors[0 := ClearingCgroup(c, after)] == y2.actors;
    assert Step(expected, y1, Act(0, Fine)) == y2;
    assert y2.store.record.Stopped? && ClearCgroup(y2.store, c).0 == y2.store.(cgroup := None);
    NothingTaken(map[], Fine);
    assert y2.actors[0 := Reloading(c.generation)] == y.actors[0 := Reloading(c.generation)];
    assert TakenFrom(map[], removals) == [Taken(removals[0], None)];
  }

  lemma ReusedCgroupRun(expected: Identity -> Option<string>, y: System, h: Identity, c: CgroupOwnership)
    requires h.Complete() && h !in y.started && expected(h) == Some(c.name)
    requires y.store.record.Stopped? && y.store.cgroup.None? && y.store.network.None?
    requires 1 in y.actors && y.actors[1] == RemovingCgroup(c, Nothing) && y.host == map[]
    ensures var y' := Run(expected, y, ReusedCgroup(h, c.name));
            && y'.store.record == Running(h) && y'.host == map[]
            && y'.removed == y.removed + [Taken(Removal(c.generation, Cgroup(c.name)), Some(h))]
  {
    var removals := [Removal(c.generation, Cgroup(c.name))];
    var y1 := Step(expected, y, Start(h));
    var y2 := y1.(host := map[Cgroup(c.name) := h]);
    Run3(expected, y, Start(h), Create(h, Cgroup(c.name)), Act(1, Fine));
    assert Step(expected, y1, Create(h, Cgroup(c.name))) == y2;
    assert removals[0].resource == Cgroup(c.name);
    assert HostAfter(y2.host, removals, Fine) == map[];
    assert TakenFrom(y2.host, removals) == [Taken(removals[0], Some(h))];
  }

  /**
   If two generations have one cgroup name, an actor that was delayed removes the
   running generation's cgroup.
   */
  lemma NeedsDistinctNames(expected: Identity -> Option<string>, g: Identity, h: Identity, name: string)
    requires g.Complete() && h.Complete() && g != h && expected(g) == Some(name) && expected(h) == Some(name)
    ensures var own := OwnCgroup(CgroupOwnership(name, g));
            var y := Run(expected, INITIAL, Stopping(g, own) + (DelayedCgroup() + ReusedCgroup(h, name)));
            && y.store.record == Running(h) && y.host == map[]
            && |y.removed| == 2 && y.removed[1] == Taken(Removal(g, Cgroup(name)), Some(h))
  {
    var c := CgroupOwnership(name, g);
    var s := Store(Running(g), 1, Some(c), None);
    assert Step(expected, Step(expected, INITIAL, Start(g)), OwnCgroup(c)) == System(s, map[], {g}, {}, [], [], map[]);
    StoppingRun(expected, g, OwnCgroup(c), s);
    var y0 := Run(expected, INITIAL, Stopping(g, OwnCgroup(c)));
    TakeUpCgroup(expected, y0, c);
    var y1 := y0.(actors := y0.actors[1 := RemovingCgroup(c, Nothing)]);
    FinishCgroup(expected, y1, c);
    RunConcat(expected, y0, [RetryCgroup(1, 2), Act(1, Fine), Act(1, Fine), Act(1, Fine)],
        [Act(0, Fine), Act(0, Fine), Act(0, Fine)]);
    var y2 := Run(expected, y0, DelayedCgroup());
    ReusedCgroupRun(expected, y2, h, c);
    RunConcat(expected, INITIAL, Stopping(g, OwnCgroup(c)), DelayedCgroup() + ReusedCgroup(h, name));
    RunConcat(expected, y0, DelayedCgroup(), ReusedCgroup(h, name));
  }
}
