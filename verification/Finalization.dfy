/**
 Finalizing a process generation (`internal/container/generation_finalize.go`,
 `network_ownership_linux.go`): parents, waiters, stop commands and reconcilers
 race to record one stop and to remove what the generation owned. Each actor is
 a program counter, and any two of its steps may have any other step between.
 */
module Finalization {
  import opened GenerationStore
  import opened ProcessIdentity
  import opened Wrappers

  datatype Resource =
    | Cgroup(name: string)
    | Port(owner: string, mapping: Mapping)
    | Veth(name: string, owner: string)
    | Dns(generation: Identity)

  /** One attempt to remove what has a certain name, and the generation it is removed for. */
  datatype Removal = Removal(generation: Identity, resource: Resource)

  /** A removal with the generation that had created what then had that name, if there was anything. */
  datatype Taken = Taken(removal: Removal, creator: Option<Identity>)

  /** What an actor goes on with once it is done with a cgroup. */
  datatype After = Nothing | Reload(g: Identity) | Network(g: Identity)

  /**
   Where an actor is. The positions after `Marking` are those of a finalizer, the
   ones from `Aborting` on those of a start that failed after the child ran, and
   the ones named for a retry those of later attempts at what is left.
   */
  datatype Pc =
    | Marking(g: Identity, code: int)
    | ReadingCgroup(g: Identity)
    | RetryChecking(revision: nat)
    | RetryReading(revision: nat)
    | RetryAuthorizing(revision: nat, cgroup: CgroupOwnership)
    | RemovingCgroup(cgroup: CgroupOwnership, after: After)
    | ClearingCgroup(cgroup: CgroupOwnership, after: After)
    | Reloading(g: Identity)
    | Identifying(g: Identity, revision: nat)
    | CleaningDns(g: Identity)
    | ReadingNetwork(g: Identity)
    | GatingNetwork(network: NetworkOwnership)
    | AuthorizingNetwork(network: NetworkOwnership, revision: nat)
    | RemovingNetwork(network: NetworkOwnership)
    | ClearingNetwork(network: NetworkOwnership)
    | RetryReadingDns(revision: nat)
    | RetryCleaningDns(g: Identity)
    | Aborting(g: Identity, captured: bool)
    | AbortRemoving(g: Identity, name: string)
    | AbortReloading(g: Identity)
    | AbortCleaningDns(g: Identity)
    | AbortReadingCgroup(g: Identity)
    | Done

  /**
   A store call or a removal may fail; a stop may fail after it was committed,
   seen or unseen. A removal that fails has removed `gone`, or everything.
   */
  datatype Fault = Fine | Fails(gone: set<Resource>) | CommitsThenFails | CommitsUnseen

  datatype Stop = Stop(generation: Identity, code: int)

  /**
   `host` says which generation created what is on the host. `started` and
   `exited` are the generations ever bound and ever gone; `stops` lists the
   successful stop calls, `removed` the removals, in order.
   */
  datatype System = System(store: Store, host: map<Resource, Identity>, started: set<Identity>, exited: set<Identity>,
                           stops: seq<Stop>, removed: seq<Taken>, actors: map<nat, Pc>)

  datatype Op =
    | Start(g: Identity)
    | Exit(g: Identity)
    | FailCreated(code: int)
    | OwnCgroup(cgroup: CgroupOwnership)
    | OwnNetwork(network: NetworkOwnership)
    | Create(g: Identity, resource: Resource)
    | Finalize(actor: nat, g: Identity, code: int)
    | RetryCgroup(actor: nat, revision: nat)
    | RetryNetwork(actor: nat, network: NetworkOwnership)
    | RetryDns(actor: nat, revision: nat)
    | Abort(actor: nat, g: Identity, captured: bool)
    | Act(actor: nat, fault: Fault)

  function NetworkRemovals(o: NetworkOwnership): seq<Removal> {
    PortRemovals(o, |o.mappings|) + if o.vethHost != "" then [Removal(o.generation, Veth(o.vethHost, o.owner))] else []
  }

  /** The port mappings from the last one back, as they are removed. */
  function PortRemovals(o: NetworkOwnership, n: nat): (r: seq<Removal>)
    requires n <= |o.mappings|
    ensures |r| == n
    ensures forall i | 0 <= i < n :: r[i] == Removal(o.generation, Port(o.owner, o.mappings[n - 1 - i]))
  {
    if n == 0 then []
    else [Removal(o.generation, Port(o.owner, o.mappings[n - 1]))] + PortRemovals(o, n - 1)
  }

  function AfterCgroup(after: After): Pc {
    match after
    case Nothing => Done
    case Reload(g) => Reloading(g)
    case Network(g) => ReadingNetwork(g)
  }

  // ---------- The host ----------

  /** A generation names its cgroup and its DNS entry after itself; ports and interfaces carry an owner. */
  predicate Makes(expected: Identity -> Option<string>, g: Identity, r: Resource) {
    match r
    case Cgroup(name) => expected(g) == Some(name)
    case Dns(h) => h == g
    case _ => true
  }

  predicate Names(removals: seq<Removal>, r: Resource) {
    exists i | 0 <= i < |removals| :: removals[i].resource == r
  }

  /** What the removals found under the names they were given. */
  function TakenFrom(host: map<Resource, Identity>, removals: seq<Removal>): seq<Taken> {
    seq(|removals|, i requires 0 <= i < |removals| =>
      Taken(removals[i], if removals[i].resource in host then Some(host[removals[i].resource]) else None))
  }

  predicate Goes(fault: Fault, r: Resource) {
    fault.Fails? ==> r in fault.gone
  }

  function HostAfter(host: map<Resource, Identity>, removals: seq<Removal>, fault: Fault): map<Resource, Identity> {
    map r | r in host && !(Names(removals, r) && Goes(fault, r)) :: host[r]
  }

  // ---------- One step of an actor ----------

  /** What a step does to the host and the store, and where the actor goes next. */
  datatype Effect = Effect(store: Store, next: Pc, stops: seq<Stop>, removed: seq<Removal>)

  function Quiet(s: Store, next: Pc): Effect {
    Effect(s, next, [], [])
  }

  /** A stop call: the actor goes `onward` unless it failed without being known to be committed. */
  function MarkStep(s: Store, g: Identity, code: int, fault: Fault, onward: Pc, failed: Pc): Effect {
    var (s', changed) := MarkStopped(s, g, code);
    var stops := if changed then [Stop(g, code)] else [];
    match fault
    case Fails(_) => Quiet(s, failed)
    case CommitsUnseen => Effect(s', failed, stops, [])
    case CommitsThenFails => Effect(s', if changed then onward else failed, stops, [])
    case Fine => Effect(s', onward, stops, [])
  }

  /** `expected` derives the cgroup name of a generation, if it has one; a token with another name is refused. */
  function ActStep(expected: Identity -> Option<string>, s: Store, pc: Pc, fault: Fault): Effect {
    match pc
    case Marking(g, code) => MarkStep(s, g, code, fault, ReadingCgroup(g), Reloading(g))
    case ReadingCgroup(g) =>
      if fault.Fine? && s.cgroup.Some? && s.cgroup.value.generation == g && expected(g) == Some(s.cgroup.value.name)
      then Quiet(s, RemovingCgroup(s.cgroup.value, Reload(g)))
      else Quiet(s, Reloading(g))
    case RetryChecking(revision) =>
      if fault.Fine? && s.record.Stopped? && s.revision == revision then Quiet(s, RetryReading(revision))
      else Quiet(s, Done)
    case RetryReading(revision) =>
      if fault.Fine? && s.cgroup.Some? then Quiet(s, RetryAuthorizing(revision, s.cgroup.value)) else Quiet(s, Done)
    case RetryAuthorizing(revision, o) =>
      if fault.Fine? && ExitedAt(s, revision) == Some(o.generation) && expected(o.generation) == Some(o.name)
      then Quiet(s, RemovingCgroup(o, Nothing))
      else Quiet(s, Done)
    case RemovingCgroup(o, after) =>
      Effect(s, if fault.Fine? then ClearingCgroup(o, after) else AfterCgroup(after), [],
             [Removal(o.generation, Cgroup(o.name))])
    case ClearingCgroup(o, after) =>
      if fault.Fails? then Quiet(s, AfterCgroup(after)) else Quiet(ClearCgroup(s, o).0, AfterCgroup(after))
    case Reloading(g) =>
      if fault.Fine? && s.record.Stopped? then Quiet(s, Identifying(g, s.revision)) else Quiet(s, Done)
    case Identifying(g, revision) =>
      if fault.Fine? && ExitedAt(s, revision) == Some(g) then Quiet(s, CleaningDns(g)) else Quiet(s, Done)
    case CleaningDns(g) => Effect(s, ReadingNetwork(g), [], [Removal(g, Dns(g))])
    case ReadingNetwork(g) =>
      if fault.Fine? && s.network.Some? && s.network.value.generation == g
      then Quiet(s, RemovingNetwork(s.network.value))
      else Quiet(s, Done)
    case GatingNetwork(o) =>
      if fault.Fine? && s.record.Stopped? then Quiet(s, AuthorizingNetwork(o, s.revision)) else Quiet(s, Done)
    case AuthorizingNetwork(o, revision) =>
      if fault.Fine? && ExitedAt(s, revision) == Some(o.generation) then Quiet(s, RemovingNetwork(o))
          else Quiet(s, Done)
    case RemovingNetwork(o) =>
      Effect(s, if fault.Fine? then ClearingNetwork(o) else Done, [], NetworkRemovals(o))
    case ClearingNetwork(o) =>
      if fault.Fails? then Quiet(s, Done) else Quiet(ClearNetwork(s, o).0, Done)
    case RetryReadingDns(revision) =>
      if fault.Fine? && ExitedAt(s, revision).Some? then Quiet(s, RetryCleaningDns(ExitedAt(s, revision).value))
      else Quiet(s, Done)
    case RetryCleaningDns(g) => Effect(s, Done, [], [Removal(g, Dns(g))])
    case Aborting(g, captured) =>
      var onward := if captured && expected(g).Some? then AbortRemoving(g, expected(g).value) else AbortReloading(g);
      MarkStep(s, g, UNKNOWN_EXIT, fault, onward, Done)
    case AbortRemoving(g, name) => Effect(s, AbortReloading(g), [], [Removal(g, Cgroup(name))])
    case AbortReloading(g) =>
      if fault.Fine? && s.record.Stopped? then Quiet(s, AbortCleaningDns(g)) else Quiet(s, Done)
    case AbortCleaningDns(g) => Effect(s, AbortReadingCgroup(g), [], [Removal(g, Dns(g))])
    case AbortReadingCgroup(g) =>
      if fault.Fine? && s.cgroup.Some? && s.cgroup.value.generation == g && expected(g) == Some(s.cgroup.value.name)
      then Quiet(s, RemovingCgroup(s.cgroup.value, Network(g)))
      else Quiet(s, ReadingNetwork(g))
    case Done => Quiet(s, Done)
  }

  /**
   A process identity is bound at most once, except by repeating the binding in
   force; a generation is finalized only after it was bound and has exited.
   */
  function Step(expected: Identity -> Option<string>, y: System, op: Op): System {
    match op
    case Start(g) =>
      if g in y.started && y.store.record != Running(g) then y
      else if MarkRunning(y.store, g).1 then y.(store := MarkRunning(y.store, g).0, started := y.started + {g})
      else y
    case Exit(g) => y.(exited := y.exited + {g})
    case FailCreated(code) => y.(store := MarkStoppedIfCreated(y.store, code).0)
    case OwnCgroup(o) => y.(store := MarkCgroupOwned(y.store, o).0)
    case OwnNetwork(o) => y.(store := MarkNetworkOwned(y.store, o).0)
    case Create(g, r) =>
      if g in y.started && Makes(expected, g, r) then y.(host := y.host[r := g]) else y
    case Finalize(actor, g, code) =>
      if actor !in y.actors && g in y.started && g in y.exited then y.(actors := y.actors[actor := Marking(g, code)])
          else y
    case RetryCgroup(actor, revision) =>
      if actor !in y.actors then y.(actors := y.actors[actor := RetryChecking(revision)]) else y
    case RetryNetwork(actor, o) =>
      if actor !in y.actors then y.(actors := y.actors[actor := GatingNetwork(o)]) else y
    case RetryDns(actor, revision) =>
      if actor !in y.actors then y.(actors := y.actors[actor := RetryReadingDns(revision)]) else y
    case Abort(actor, g, captured) =>
      if actor !in y.actors && g in y.started && g in y.exited
      then y.(actors := y.actors[actor := Aborting(g, captured)])
      else y
    case Act(actor, fault) =>
      if actor !in y.actors then y
      else
        var e := ActStep(expected, y.store, y.actors[actor], fault);
        y.(store := e.store, host := HostAfter(y.host, e.removed, fault), stops := y.stops + e.stops,
           removed := y.removed + TakenFrom(y.host, e.removed), actors := y.actors[actor := e.next])
  }

  function Run(expected: Identity -> Option<string>, y: System, ops: seq<Op>): System
    decreases |ops|
  {
    if ops == [] then y else Run(expected, Step(expected, y, ops[0]), ops[1..])
  }

  const INITIAL := System(Store(Created, 0, None, None), map[], {}, {}, [], [], map[])

  // ---------- What every step keeps ----------

  /** The generation was bound, has exited, and its stop is committed. */
  ghost predicate Finished(y: System, g: Identity) {
    g in y.started && g in y.exited && exists i :: 0 <= i < |y.stops| && y.stops[i].generation == g
  }

  ghost predicate AfterOk(y: System, after: After) {
    match after
    case Nothing => true
    case Reload(g) => g in y.started && g in y.exited
    case Network(g) => Finished(y, g)
  }

  /** What an actor has established by the time it gets somewhere. */
  ghost predicate PcOk(y: System, pc: Pc) {
    match pc
    case Marking(g, _) => g in y.started && g in y.exited
    case ReadingCgroup(g) => Finished(y, g)
    case RemovingCgroup(o, after) => Finished(y, o.generation) && AfterOk(y, after)
    case ClearingCgroup(o, after) => Finished(y, o.generation) && AfterOk(y, after)
    case Reloading(g) => g in y.started && g in y.exited
    case Identifying(g, _) => g in y.started && g in y.exited
    case CleaningDns(g) => Finished(y, g)
    case ReadingNetwork(g) => Finished(y, g)
    case RemovingNetwork(o) => Finished(y, o.generation)
    case ClearingNetwork(o) => Finished(y, o.generation)
    case RetryCleaningDns(g) => Finished(y, g)
    case Aborting(g, _) => g in y.started && g in y.exited
    case AbortRemoving(g, _) => Finished(y, g)
    case AbortReloading(g) => Finished(y, g)
    case AbortCleaningDns(g) => Finished(y, g)
    case AbortReadingCgroup(g) => Finished(y, g)
    case _ => true
  }

  /** A token belongs to the generation that runs, or to the one whose stop is on record. */
  ghost predicate TokenOk(s: Store, g: Identity) {
    s.record == Running(g) || (s.record.Stopped? && s.record.exited == Some(g))
  }

  ghost predicate StoreOk(y: System) {
    && (y.store.record.Running? ==> y.store.record.generation in y.started)
    && (y.store.record.Stopped? && y.store.record.exited.Some? ==> Finished(y, y.store.record.exited.value))
    && (y.store.cgroup.Some? ==> TokenOk(y.store, y.store.cgroup.value.generation))
    && (y.store.network.Some? ==> TokenOk(y.store, y.store.network.value.generation))
  }

  /** Every generation ever bound still runs or has its stop committed, never both. */
  ghost predicate LifecycleOk(y: System) {
    && (forall g | g in y.started :: g.Complete())
    && (forall g | g in y.started ::
          y.store.record == Running(g) || exists i :: 0 <= i < |y.stops| && y.stops[i].generation == g)
    && (forall i | 0 <= i < |y.stops| ::
        y.stops[i].generation in y.started && y.store.record != Running(y.stops[i].generation))
  }

  /** Two successful stops of a generation are one of unknown and then one of known exit code. */
  ghost predicate StopsOk(y: System) {
    && (forall i, j | 0 <= i < j < |y.stops| && y.stops[i].generation == y.stops[j].generation ::
          y.stops[i].code == UNKNOWN_EXIT && y.stops[j].code != UNKNOWN_EXIT)
    && (y.store.record.Stopped? && y.store.record.exited.Some? && y.store.record.exitCode == UNKNOWN_EXIT ==>
          forall i | 0 <= i < |y.stops| && y.stops[i].generation == y.store.record.exited.value ::
              y.stops[i].code == UNKNOWN_EXIT)
  }

  ghost predicate RemovedOk(y: System) {
    forall i | 0 <= i < |y.removed| :: Finished(y, y.removed[i].removal.generation)
  }

  ghost predicate ActorsOk(y: System) {
    forall a | a in y.actors :: PcOk(y, y.actors[a])
  }

  ghost predicate Inv(y: System) {
    StoreOk(y) && LifecycleOk(y) && StopsOk(y) && RemovedOk(y) && ActorsOk(y)
  }

  // ---------- What is established stays established ----------

  ghost predicate Grown(y: System, y': System) {
    && y.started <= y'.started && y.exited <= y'.exited
    && |y.stops| <= |y'.stops| && y'.stops[..|y.stops|] == y.stops
  }

  lemma GrownFinished(y: System, y': System, g: Identity)
    requires Grown(y, y') && Finished(y, g)
    ensures Finished(y', g)
  {
    var i :| 0 <= i < |y.stops| && y.stops[i].generation == g;
    assert y'.stops[..|y.stops|][i] == y.stops[i];
    assert y'.stops[i].generation == g;
  }

  lemma GrownCgroup(y: System, y': System, o: CgroupOwnership, after: After)
    requires Grown(y, y') && Finished(y, o.generation) && AfterOk(y, after)
    ensures Finished(y', o.generation) && AfterOk(y', after)
  {
    GrownFinished(y, y', o.generation);
    if after.Network? {
      GrownFinished(y, y', after.g);
    }
  }

  lemma GrownPc(y: System, y': System, pc: Pc)
    requires Grown(y, y') && PcOk(y, pc)
    ensures PcOk(y', pc)
  {
    match pc
    case ReadingCgroup(g) => GrownFinished(y, y', g);
    case RemovingCgroup(o, after) => GrownCgroup(y, y', o, after);
    case ClearingCgroup(o, after) => GrownCgroup(y, y', o, after);
    case CleaningDns(g) => GrownFinished(y, y', g);
    case ReadingNetwork(g) => GrownFinished(y, y', g);
    case RemovingNetwork(o) => GrownFinished(y, y', o.generation);
    case ClearingNetwork(o) => GrownFinished(y, y', o.generation);
    case RetryCleaningDns(g) => GrownFinished(y, y', g);
    case AbortRemoving(g, _) => GrownFinished(y, y', g);
    case AbortReloading(g) => GrownFinished(y, y', g);
    case AbortCleaningDns(g) => GrownFinished(y, y', g);
    case AbortReadingCgroup(g) => GrownFinished(y, y', g);
    case _ =>
  }

  /** Everything that does not depend on the store survives growth, plus one new position and new removals. */
  lemma GrownRest(y: System, y': System, changed: nat)
    requires Grown(y, y') && ActorsOk(y) && RemovedOk(y)
    requires forall a | a in y'.actors :: a == changed || (a in y.actors && y'.actors[a] == y.actors[a])
    requires changed in y'.actors ==> PcOk(y', y'.actors[changed])
    requires |y.removed| <= |y'.removed| && y'.removed[..|y.removed|] == y.removed
    requires forall i | |y.removed| <= i < |y'.removed| :: Finished(y', y'.removed[i].removal.generation)
    ensures ActorsOk(y') && RemovedOk(y')
  {
    forall a | a in y'.actors
      ensures PcOk(y', y'.actors[a])
    {
      if a != changed {
        GrownPc(y, y', y.actors[a]);
      }
    }
    forall i | 0 <= i < |y'.removed|
      ensures Finished(y', y'.removed[i].removal.generation)
    {
      if i < |y.removed| {
        assert y'.removed[..|y.removed|][i] == y.removed[i];
        GrownFinished(y, y', y.removed[i].removal.generation);
      }
    }
  }

  lemma SameActors(y: System, y': System)
    requires Grown(y, y') && ActorsOk(y) && RemovedOk(y) && y'.actors == y.actors && y'.removed == y.removed
    ensures ActorsOk(y') && RemovedOk(y')
  {
    forall a | a in y'.actors
      ensures PcOk(y', y'.actors[a])
    {
      GrownPc(y, y', y.actors[a]);
    }
    forall i | 0 <= i < |y'.removed|
      ensures Finished(y', y'.removed[i].removal.generation)
    {
      GrownFinished(y, y', y.removed[i].removal.generation);
    }
  }

  // ---------- Starting and recording a stop ----------

  lemma StartKeeps(y: System, g: Identity)
    requires Inv(y) && (g in y.started ==> y.store.record == Running(g)) && MarkRunning(y.store, g).1
    ensures Inv(y.(store := MarkRunning(y.store, g).0, started := y.started + {g}))
  {
    var y' := y.(store := MarkRunning(y.store, g).0, started := y.started + {g});
    SameActors(y, y');
    forall h | h in y'.started
      ensures y'.store.record == Running(h) || exists i :: 0 <= i < |y'.stops| && y'.stops[i].generation == h
    {
      if h != g {
        assert y.store.record != Running(h);
      }
    }
  }

  lemma MarkKeeps(y: System, g: Identity, code: int)
    requires Inv(y) && g in y.started && g in y.exited
    ensures var (s', changed) := MarkStopped(y.store, g, code);
            var y' := y.(store := s', stops := y.stops + if changed then [Stop(g, code)] else []);
            Inv(y') && Grown(y, y') && Finished(y', g)
  {
    var (s', changed) := MarkStopped(y.store, g, code);
    var y' := y.(store := s', stops := y.stops + if changed then [Stop(g, code)] else []);
    if changed {
      assert y'.stops[|y.stops|] == Stop(g, code);
      StopRecorded(y, y', g, code);
    } else {
      assert y' == y;
    }
  }

  lemma StopRecorded(y: System, y': System, g: Identity, code: int)
    requires Inv(y) && g in y.started && g in y.exited && MarkStopped(y.store, g, code).1
    requires y' == y.(store := MarkStopped(y.store, g, code).0, stops := y.stops + [Stop(g, code)])
    ensures Inv(y') && Finished(y', g)
  {
    assert y'.stops[|y.stops|] == Stop(g, code);
    assert y'.stops[..|y.stops|] == y.stops;
    SameActors(y, y');
    forall h | h in y'.started
      ensures exists i :: 0 <= i < |y'.stops| && y'.stops[i].generation == h
    {
      if h != g {
        assert y.store.record != Running(h);
        var i :| 0 <= i < |y.stops| && y.stops[i].generation == h;
        assert y'.stops[i] == y.stops[i];
      }
    }
    assert forall i | 0 <= i < |y.stops| :: y'.stops[i] == y.stops[i];
    StopOrder(y, y', g, code);
  }

  lemma StopOrder(y: System, y': System, g: Identity, code: int)
    requires StopsOk(y) && LifecycleOk(y) && MarkStopped(y.store, g, code).1
    requires y' == y.(store := MarkStopped(y.store, g, code).0, stops := y.stops + [Stop(g, code)])
    ensures StopsOk(y')
  {
    forall i, j | 0 <= i < j < |y'.stops| && y'.stops[i].generation == y'.stops[j].generation
      ensures y'.stops[i].code == UNKNOWN_EXIT && y'.stops[j].code != UNKNOWN_EXIT
    {
      assert y'.stops[i] == y.stops[i];
      if j < |y.stops| {
        assert y'.stops[j] == y.stops[j];
      }
    }
  }

  // ---------- Every step ----------

  /** The generation for which a position removes something. */
  function RemovesFor(pc: Pc): Option<Identity> {
    match pc
    case RemovingCgroup(o, _) => Some(o.generation)
    case CleaningDns(g) => Some(g)
    case RemovingNetwork(o) => Some(o.generation)
    case RetryCleaningDns(g) => Some(g)
    case AbortRemoving(g, _) => Some(g)
    case AbortCleaningDns(g) => Some(g)
    case _ => None
  }

  /** The generation a position is about to stop, and the exit code it reports. */
  function Stops(pc: Pc): Option<(Identity, int)> {
    match pc
    case Marking(g, code) => Some((g, code))
    case Aborting(g, _) => Some((g, UNKNOWN_EXIT))
    case _ => None
  }

  lemma ActKeeps(expected: Identity -> Option<string>, y: System, a: nat, fault: Fault)
    requires Inv(y) && a in y.actors
    ensures Inv(Step(expected, y, Act(a, fault)))
  {
    var pc := y.actors[a];
    if Stops(pc).Some? {
      MarkingKeeps(expected, y, a, fault, Stops(pc).value.0, Stops(pc).value.1);
    } else if pc.ClearingCgroup? || pc.ClearingNetwork? {
      ClearingKeeps(expected, y, a, fault);
    } else if RemovesFor(pc).Some? {
      RemoveKeeps(expected, y, a, fault, RemovesFor(pc).value);
    } else {
      LookKeeps(expected, y, a, fault);
    }
  }

  lemma ClearingKeeps(expected: Identity -> Option<string>, y: System, a: nat, fault: Fault)
    requires Inv(y) && a in y.actors && (y.actors[a].ClearingCgroup? || y.actors[a].ClearingNetwork?)
    ensures Inv(Step(expected, y, Act(a, fault)))
  {
    var e := ActStep(expected, y.store, y.actors[a], fault);
    ClearEffect(expected, y, y.actors[a], fault);
    Cleared(y, a, e.store, e.next);
    ClearedTo(expected, y, a, fault, e);
  }

  lemma ClearedTo(expected: Identity -> Option<string>, y: System, a: nat, fault: Fault, e: Effect)
    requires a in y.actors && e == ActStep(expected, y.store, y.actors[a], fault) && e.stops == [] && e.removed == []
    ensures Step(expected, y, Act(a, fault)) == y.(store := e.store, actors := y.actors[a := e.next])
  {
    NothingTaken(y.host, fault);
    assert y.stops + [] == y.stops && y.removed + [] == y.removed;
  }

  ghost predicate OnlyClears(s: Store, s': Store) {
    && s'.record == s.record && s'.revision == s.revision
    && (s'.cgroup == s.cgroup || s'.cgroup.None?)
    && (s'.network == s.network || s'.network.None?)
  }

  lemma ClearEffect(expected: Identity -> Option<string>, y: System, pc: Pc, fault: Fault)
    requires PcOk(y, pc) && (pc.ClearingCgroup? || pc.ClearingNetwork?)
    ensures var e := ActStep(expected, y.store, pc, fault);
            e.stops == [] && e.removed == [] && PcOk(y, e.next) && OnlyClears(y.store, e.store)
  {
  }

  lemma Cleared(y: System, a: nat, s: Store, next: Pc)
    requires Inv(y) && PcOk(y, next) && OnlyClears(y.store, s)
    ensures Inv(y.(store := s, actors := y.actors[a := next]))
  {
    var y' := y.(store := s, actors := y.actors[a := next]);
    SameRecord(y, y');
    GrownPc(y, y', next);
    GrownRest(y, y', a);
  }

  lemma NothingTaken(host: map<Resource, Identity>, fault: Fault)
    ensures HostAfter(host, [], fault) == host && TakenFrom(host, []) == []
  {
    assert forall r :: !Names([], r);
  }

  lemma MarkingKeeps(expected: Identity -> Option<string>, y: System, a: nat, fault: Fault, g: Identity, code: int)
    requires Inv(y) && a in y.actors && Stops(y.actors[a]) == Some((g, code))
    ensures Inv(Step(expected, y, Act(a, fault)))
  {
    var e := ActStep(expected, y.store, y.actors[a], fault);
    if fault.Fails? {
      assert PcOk(y, y.actors[a]);
      Moved(expected, y, a, fault, e);
    } else {
      assert PcOk(y, y.actors[a]);
      MarkedTo(expected, y, a, fault, g, code);
      MarkKeeps(y, g, code);
      var m := y.(store := e.store, stops := y.stops + e.stops);
      StopsNext(expected, y.store, m, y.actors[a], fault, g, code);
      NewPosition(m, a, e.next);
    }
  }

  lemma StopsNext(expected: Identity -> Option<string>, s: Store, m: System, pc: Pc, fault: Fault, g: Identity,
                  code: int)
    requires Stops(pc) == Some((g, code)) && Finished(m, g)
    ensures PcOk(m, ActStep(expected, s, pc, fault).next)
  {
  }

  lemma MarkedTo(expected: Identity -> Option<string>, y: System, a: nat, fault: Fault, g: Identity, code: int)
    requires a in y.actors && Stops(y.actors[a]) == Some((g, code)) && !fault.Fails?
    ensures var e := ActStep(expected, y.store, y.actors[a], fault);
            && Step(expected, y, Act(a, fault))
               == y.(store := e.store, stops := y.stops + e.stops).(actors := y.actors[a := e.next])
            && e.store == MarkStopped(y.store, g, code).0
            && e.stops == (if MarkStopped(y.store, g, code).1 then [Stop(g, code)] else [])
  {
    NothingTaken(y.host, fault);
    assert y.removed + [] == y.removed;
  }

  /** Moving one actor to a position it is entitled to. */
  lemma NewPosition(y: System, a: nat, pc: Pc)
    requires Inv(y) && PcOk(y, pc)
    ensures Inv(y.(actors := y.actors[a := pc]))
  {
    var y' := y.(actors := y.actors[a := pc]);
    GrownPc(y, y', pc);
    GrownRest(y, y', a);
    SameRecord(y, y');
  }

  /** The conditions on the store alone. */
  lemma SameRecord(y: System, y': System)
    requires StoreOk(y) && LifecycleOk(y) && StopsOk(y)
    requires y'.started == y.started && y'.exited == y.exited && y'.stops == y.stops
    requires OnlyClears(y.store, y'.store)
    ensures StoreOk(y') && LifecycleOk(y') && StopsOk(y')
  {
    if y.store.record.Stopped? && y.store.record.exited.Some? {
      GrownFinished(y, y', y.store.record.exited.value);
    }
  }

  lemma RemoveKeeps(expected: Identity -> Option<string>, y: System, a: nat, fault: Fault, g: Identity)
    requires Inv(y) && a in y.actors && RemovesFor(y.actors[a]) == Some(g)
    ensures Inv(Step(expected, y, Act(a, fault)))
  {
    var e := ActStep(expected, y.store, y.actors[a], fault);
    RemoveEffect(expected, y, y.actors[a], fault, g);
    RemovedMore(y, a, e.next, HostAfter(y.host, e.removed, fault), TakenFrom(y.host, e.removed), g);
    assert y.stops + [] == y.stops;
  }

  lemma RemoveEffect(expected: Identity -> Option<string>, y: System, pc: Pc, fault: Fault, g: Identity)
    requires PcOk(y, pc) && RemovesFor(pc) == Some(g)
    ensures var e := ActStep(expected, y.store, pc, fault);
            && e.store == y.store && e.stops == [] && PcOk(y, e.next) && Finished(y, g)
            && forall i | 0 <= i < |e.removed| :: e.removed[i].generation == g
  {
  }

  lemma RemovedMore(y: System, a: nat, next: Pc, host: map<Resource, Identity>, more: seq<Taken>, g: Identity)
    requires Inv(y) && Finished(y, g) && PcOk(y, next)
    requires forall i | 0 <= i < |more| :: more[i].removal.generation == g
    ensures Inv(y.(host := host, removed := y.removed + more, actors := y.actors[a := next]))
  {
    var y' := y.(host := host, removed := y.removed + more, actors := y.actors[a := next]);
    SameRecord(y, y');
    GrownFinished(y, y', g);
    GrownPc(y, y', next);
    forall i | |y.removed| <= i < |y'.removed|
      ensures Finished(y', y'.removed[i].removal.generation)
    {
      assert y'.removed[i] == more[i - |y.removed|];
    }
    GrownRest(y, y', a);
  }

  /** Steps that only look: they change nothing but the actor's own position. */
  predicate Looks(pc: Pc) {
    Stops(pc).None? && RemovesFor(pc).None? && !pc.ClearingCgroup? && !pc.ClearingNetwork?
  }

  predicate LooksAtCgroup(pc: Pc) {
    pc.ReadingCgroup? || pc.RetryChecking? || pc.RetryReading? || pc.RetryAuthorizing? || pc.AbortReadingCgroup?
  }

  lemma LookEntitled(expected: Identity -> Option<string>, y: System, pc: Pc, fault: Fault)
    requires StoreOk(y) && PcOk(y, pc) && LooksAtCgroup(pc)
    ensures var e := ActStep(expected, y.store, pc, fault);
            e == Quiet(y.store, e.next) && PcOk(y, e.next)
  {
  }

  lemma LookEntitledOutside(expected: Identity -> Option<string>, y: System, pc: Pc, fault: Fault)
    requires StoreOk(y) && PcOk(y, pc) && Looks(pc) && !LooksAtCgroup(pc)
    ensures var e := ActStep(expected, y.store, pc, fault);
            e == Quiet(y.store, e.next) && PcOk(y, e.next)
  {
  }

  lemma LookKeeps(expected: Identity -> Option<string>, y: System, a: nat, fault: Fault)
    requires Inv(y) && a in y.actors && Looks(y.actors[a])
    ensures Inv(Step(expected, y, Act(a, fault)))
  {
    var pc := y.actors[a];
    if LooksAtCgroup(pc) {
      LookEntitled(expected, y, pc, fault);
    } else {
      LookEntitledOutside(expected, y, pc, fault);
    }
    Moved(expected, y, a, fault, ActStep(expected, y.store, pc, fault));
  }

  lemma Moved(expected: Identity -> Option<string>, y: System, a: nat, fault: Fault, e: Effect)
    requires Inv(y) && a in y.actors && e == ActStep(expected, y.store, y.actors[a], fault)
    requires e == Quiet(y.store, e.next) && PcOk(y, e.next)
    ensures Inv(Step(expected, y, Act(a, fault)))
  {
    NewPosition(y, a, e.next);
    MovedTo(expected, y, a, fault, e);
  }

  lemma MovedTo(expected: Identity -> Option<string>, y: System, a: nat, fault: Fault, e: Effect)
    requires a in y.actors && e == ActStep(expected, y.store, y.actors[a], fault)
    requires e == Quiet(y.store, e.next)
    ensures Step(expected, y, Act(a, fault)) == y.(actors := y.actors[a := e.next])
  {
    NothingTaken(y.host, fault);
    assert y.stops + [] == y.stops;
    assert y.removed + [] == y.removed;
  }

  lemma StepKeepsInv(expected: Identity -> Option<string>, y: System, op: Op)
    requires Inv(y)
    ensures Inv(Step(expected, y, op))
  {
    var y' := Step(expected, y, op);
    match op
    case Start(g) =>
      if y' != y {
        StartKeeps(y, g);
      }
    case Exit(g) =>
      SameActors(y, y');
      assert y.store.record.Stopped? && y.store.record.exited.Some? ==> Finished(y, y.store.record.exited.value);
    case FailCreated(code) => SameActors(y, y');
    case OwnCgroup(o) => OwnKeeps(y, y');
    case OwnNetwork(o) => OwnKeeps(y, y');
    case Create(g, r) => OwnKeeps(y, y');
    case Finalize(actor, g, code) =>
      if y' != y {
        NewPosition(y, actor, Marking(g, code));
      }
    case RetryCgroup(actor, revision) =>
      if y' != y {
        NewPosition(y, actor, RetryChecking(revision));
      }
    case RetryNetwork(actor, o) =>
      if y' != y {
        NewPosition(y, actor, GatingNetwork(o));
      }
    case RetryDns(actor, revision) =>
      if y' != y {
        NewPosition(y, actor, RetryReadingDns(revision));
      }
    case Abort(actor, g, captured) =>
      if y' != y {
        NewPosition(y, actor, Aborting(g, captured));
      }
    case Act(actor, fault) =>
      if actor in y.actors {
        ActKeeps(expected, y, actor, fault);
      }
  }

  lemma OwnKeeps(y: System, y': System)
    requires Inv(y) && y' == y.(store := y'.store, host := y'.host)
    requires y'.store.record == y.store.record && y'.store.revision == y.store.revision
    requires y'.store.cgroup == y.store.cgroup
             || (y'.store.cgroup.Some? && y.store.record == Running(y'.store.cgroup.value.generation))
    requires y'.store.network == y.store.network
             || (y'.store.network.Some? && y.store.record == Running(y'.store.network.value.generation))
    ensures Inv(y')
  {
    SameActors(y, y');
    if y.store.record.Stopped? && y.store.record.exited.Some? {
      GrownFinished(y, y', y.store.record.exited.value);
    }
  }

  lemma {:induction false} RunKeepsInv(expected: Identity -> Option<string>, y: System, ops: seq<Op>)
    requires Inv(y)
    ensures Inv(Run(expected, y, ops))
    decreases |ops|
  {
    if ops != [] {
      StepKeepsInv(expected, y, ops[0]);
      RunKeepsInv(expected, Step(expected, y, ops[0]), ops[1..]);
    }
  }

  // ---------- The promises ----------

  /** At most two stop calls of one generation succeed, the first of them without an exit code. */
  lemma SuccessfulStops(expected: Identity -> Option<string>, ops: seq<Op>, i: nat, j: nat)
    requires var y := Run(expected, INITIAL, ops);
             i < j < |y.stops| && y.stops[i].generation == y.stops[j].generation
    ensures var y := Run(expected, INITIAL, ops);
            && y.stops[i].code == UNKNOWN_EXIT && y.stops[j].code != UNKNOWN_EXIT
            && forall k | 0 <= k < |y.stops| && y.stops[k].generation == y.stops[i].generation :: k == i || k == j
  {
    RunKeepsInv(expected, INITIAL, ops);
    var y := Run(expected, INITIAL, ops);
    forall k | 0 <= k < |y.stops| && y.stops[k].generation == y.stops[i].generation
      ensures k == i || k == j
    {
      var before, after := if k < i then k else i, if k < i then i else k;
      assert k != i ==> y.stops[before].code == UNKNOWN_EXIT && y.stops[after].code != UNKNOWN_EXIT;
    }
  }

  /**
   Once a stop is committed, exactly when a further stop call for the same
   generation still succeeds, in any state any run reaches.
   */
  lemma FurtherStopExactly(expected: Identity -> Option<string>, ops: seq<Op>, i: nat, code: int)
    requires i < |Run(expected, INITIAL, ops).stops|
    ensures var y := Run(expected, INITIAL, ops);
            var g := y.stops[i].generation;
            MarkStopped(y.store, g, code).1
            <==> y.store.record == Stopped(Some(g), UNKNOWN_EXIT) && code != UNKNOWN_EXIT
  {
    RunKeepsInv(expected, INITIAL, ops);
  }

  ghost predicate KnownCodes(y: System) {
    && (forall a | a in y.actors && Stops(y.actors[a]).Some? :: Stops(y.actors[a]).value.1 != UNKNOWN_EXIT)
    && (forall i | 0 <= i < |y.stops| :: y.stops[i].code != UNKNOWN_EXIT)
  }

  /** An operation that may report a stop without an exit code. */
  predicate StopsBlindly(op: Op) {
    op.Abort? || (op.Finalize? && op.code == UNKNOWN_EXIT)
  }

  lemma KnownCodesAct(expected: Identity -> Option<string>, s: Store, pc: Pc, fault: Fault)
    ensures var e := ActStep(expected, s, pc, fault);
            && Stops(e.next).None?
            && (forall i | 0 <= i < |e.stops| :: Stops(pc).Some? && e.stops[i].code == Stops(pc).value.1)
  {
    var e := ActStep(expected, s, pc, fault);
    match Stops(pc)
    case None => assert e.stops == [];
    case Some((g, code)) => assert e.stops == [] || e.stops == [Stop(g, code)];
  }

  lemma KnownCodesStep(expected: Identity -> Option<string>, y: System, op: Op)
    requires KnownCodes(y) && !StopsBlindly(op)
    ensures KnownCodes(Step(expected, y, op))
  {
    if op.Act? && op.actor in y.actors {
      KnownCodesAct(expected, y.store, y.actors[op.actor], op.fault);
    }
  }

  lemma {:induction false} KnownCodesKept(expected: Identity -> Option<string>, y: System, ops: seq<Op>)
    requires KnownCodes(y) && forall i | 0 <= i < |ops| :: !StopsBlindly(ops[i])
    ensures KnownCodes(Run(expected, y, ops))
    decreases |ops|
  {
    if ops != [] {
      KnownCodesStep(expected, y, ops[0]);
      assert forall i | 0 <= i < |ops[1..]| :: ops[1..][i] == ops[i + 1];
      KnownCodesKept(expected, Step(expected, y, ops[0]), ops[1..]);
    }
  }

  /** If no finalizer runs without an exit code, at most one of them is told it stopped the generation. */
  lemma StoppedOnce(expected: Identity -> Option<string>, ops: seq<Op>, i: nat, j: nat)
    requires forall k | 0 <= k < |ops| :: !StopsBlindly(ops[k])
    requires i < j < |Run(expected, INITIAL, ops).stops|
    ensures var y := Run(expected, INITIAL, ops);
            y.stops[i].generation != y.stops[j].generation
  {
    RunKeepsInv(expected, INITIAL, ops);
    KnownCodesKept(expected, INITIAL, ops);
  }

  /**
   The condition is needed: a reconciler that does not know the exit code and
   the waiter that does are both told they made the change.
   */
  lemma StoppedTwice(expected: Identity -> Option<string>, g: Identity, code: int)
    requires g.Complete() && code != UNKNOWN_EXIT
    ensures var ops :=
        [Start(g), Exit(g), Finalize(0, g, UNKNOWN_EXIT), Finalize(1, g, code), Act(0, Fine), Act(1, Fine)];
            Run(expected, INITIAL, ops).stops == [Stop(g, UNKNOWN_EXIT), Stop(g, code)]
  {
    var y1 := Step(expected, INITIAL, Start(g));
    var y2 := Step(expected, y1, Exit(g));
    var y3 := Step(expected, y2, Finalize(0, g, UNKNOWN_EXIT));
    var y4 := Step(expected, y3, Finalize(1, g, code));
    var y5 := Step(expected, y4, Act(0, Fine));
    var y6 := Step(expected, y5, Act(1, Fine));
    assert y6.stops == [Stop(g, UNKNOWN_EXIT), Stop(g, code)];
    RunStep(expected, y5, Act(1, Fine), []);
    RunStep(expected, y4, Act(0, Fine), [Act(1, Fine)]);
    RunStep(expected, y3, Finalize(1, g, code), [Act(0, Fine), Act(1, Fine)]);
    RunStep(expected, y2, Finalize(0, g, UNKNOWN_EXIT), [Finalize(1, g, code), Act(0, Fine), Act(1, Fine)]);
    RunStep(expected, y1, Exit(g), [Finalize(0, g, UNKNOWN_EXIT), Finalize(1, g, code), Act(0, Fine), Act(1, Fine)]);
    RunStep(expected, INITIAL, Start(g),
            [Exit(g), Finalize(0, g, UNKNOWN_EXIT), Finalize(1, g, code), Act(0, Fine), Act(1, Fine)]);
  }

  lemma RunStep(expected: Identity -> Option<string>, y: System, op: Op, rest: seq<Op>)
    ensures Run(expected, y, [op] + rest) == Run(expected, Step(expected, y, op), rest)
  {
    assert ([op] + rest)[1..] == rest;
  }
}
