/**
 An actor of `Finalization` left alone: it runs to its end with no other step in
 between. What it then does is put together from the parts a cleanup consists of.
 */
module FinalizationAlone {
  import opened Finalization
  import opened GenerationStore
  import opened ProcessIdentity
  import opened Wrappers

  /** How far an actor has to go. */
  function Rank(pc: Pc): nat {
    match pc
    case Aborting(_, _) => 13
    case AbortRemoving(_, _) => 12
    case AbortReloading(_) => 11
    case AbortCleaningDns(_) => 10
    case AbortReadingCgroup(_) => 9
    case RetryReadingDns(_) => 2
    case RetryCleaningDns(_) => 1
    case Marking(_, _) => 10
    case ReadingCgroup(_) => 9
    case RetryChecking(_) => 11
    case RetryReading(_) => 10
    case RetryAuthorizing(_, _) => 9
    case RemovingCgroup(_, _) => 8
    case ClearingCgroup(_, _) => 7
    case Reloading(_) => 6
    case Identifying(_, _) => 5
    case CleaningDns(_) => 4
    case ReadingNetwork(_) => 3
    case GatingNetwork(_) => 4
    case AuthorizingNetwork(_, _) => 3
    case RemovingNetwork(_) => 2
    case ClearingNetwork(_) => 1
    case Done => 0
  }

  lemma RankFalls(expected: Identity -> Option<string>, s: Store, pc: Pc, fault: Fault)
    requires !pc.Done?
    ensures Rank(ActStep(expected, s, pc, fault).next) < Rank(pc)
  {
  }

  /** What becomes of the store and the host, and whether the actor was told it stopped the generation. */
  datatype Outcome = Outcome(store: Store, removed: seq<Removal>, changed: bool)

  /** The faults a host shows to an actor when it refuses to remove some resources. */
  function HostFault(fails: Resource -> bool, pc: Pc): Fault {
    match pc
    case RemovingCgroup(o, _) => if fails(Cgroup(o.name)) then Fails({}) else Fine
    case AbortRemoving(_, name) => if fails(Cgroup(name)) then Fails({}) else Fine
    case RemovingNetwork(o) => if AnyFails(fails, NetworkRemovals(o)) then Fails({}) else Fine
    case _ => Fine
  }

  predicate AnyFails(fails: Resource -> bool, removals: seq<Removal>) {
    exists i | 0 <= i < |removals| :: fails(removals[i].resource)
  }

  /** An actor that runs to its end with nobody else in between. */
  function Alone(expected: Identity -> Option<string>, fails: Resource -> bool, s: Store, pc: Pc): Outcome
    decreases Rank(pc)
  {
    if pc.Done? then Outcome(s, [], false)
    else
      RankFalls(expected, s, pc, HostFault(fails, pc));
      var e := ActStep(expected, s, pc, HostFault(fails, pc));
      var rest := Alone(expected, fails, e.store, e.next);
      Outcome(rest.store, e.removed + rest.removed, e.stops != [] || rest.changed)
  }

  ghost predicate WellNamed(expected: Identity -> Option<string>, s: Store) {
    s.cgroup.Some? ==> expected(s.cgroup.value.generation) == Some(s.cgroup.value.name)
  }

  /** What a finalization removes if nothing goes wrong, in order. */
  function AllRemovals(s: Store, g: Identity): seq<Removal> {
    (if s.cgroup.Some? then [Removal(g, Cgroup(s.cgroup.value.name))] else [])
    + [Removal(g, Dns(g))]
    + if s.network.Some? then NetworkRemovals(s.network.value) else []
  }

  // ---------- The parts of a cleanup, on values ----------

  /** What an actor did, followed by what it did next. */
  function Then(a: Outcome, b: Outcome): Outcome {
    Outcome(b.store, a.removed + b.removed, a.changed || b.changed)
  }

  /** An outcome after earlier removals. */
  function Joined(before: seq<Removal>, o: Outcome): Outcome {
    o.(removed := before + o.removed)
  }

  lemma JoinedThen(before: seq<Removal>, a: Outcome, b: Outcome)
    ensures Joined(before + a.removed, b).(changed := a.changed || b.changed) == Joined(before, Then(a, b))
  {
    assert (before + a.removed) + b.removed == before + (a.removed + b.removed);
  }

  /** The token survives unless what it names is gone. */
  function CgroupGone(fails: Resource -> bool, s: Store, o: CgroupOwnership): Outcome {
    Outcome(if fails(Cgroup(o.name)) then s else ClearCgroup(s, o).0, [Removal(o.generation, Cgroup(o.name))], false)
  }

  function NetworkGone(fails: Resource -> bool, s: Store, o: NetworkOwnership): Outcome {
    Outcome(if AnyFails(fails, NetworkRemovals(o)) then s else ClearNetwork(s, o).0, NetworkRemovals(o), false)
  }

  predicate OwnsCgroup(expected: Identity -> Option<string>, s: Store, g: Identity) {
    s.cgroup.Some? && s.cgroup.value.generation == g && expected(g) == Some(s.cgroup.value.name)
  }

  predicate OwnsNetwork(s: Store, g: Identity) {
    s.network.Some? && s.network.value.generation == g
  }

  function CgroupPart(expected: Identity -> Option<string>, fails: Resource -> bool, s: Store, g: Identity): Outcome {
    if OwnsCgroup(expected, s, g) then CgroupGone(fails, s, s.cgroup.value) else Outcome(s, [], false)
  }

  function NetworkPart(fails: Resource -> bool, s: Store, g: Identity): Outcome {
    if OwnsNetwork(s, g) then NetworkGone(fails, s, s.network.value) else Outcome(s, [], false)
  }

  function DnsPart(s: Store, g: Identity): Outcome {
    Outcome(s, [Removal(g, Dns(g))], false)
  }

  // ---------- An actor left alone does these parts ----------

  lemma ThenAssociates(a: Outcome, b: Outcome, c: Outcome)
    ensures Then(Then(a, b), c) == Then(a, Then(b, c))
  {
    assert (a.removed + b.removed) + c.removed == a.removed + (b.removed + c.removed);
  }

  /** What a position does, and then what the next one does. */
  lemma Does(expected: Identity -> Option<string>, fails: Resource -> bool, s: Store, pc: Pc, part: Outcome, next: Pc)
    requires !pc.Done?
    requires var e := ActStep(expected, s, pc, HostFault(fails, pc));
             part == Outcome(e.store, e.removed, e.stops != []) && next == e.next
    ensures Alone(expected, fails, s, pc) == Then(part, Alone(expected, fails, part.store, next))
  {
  }

  lemma CgroupGoneAlone(expected: Identity -> Option<string>, fails: Resource -> bool, s: Store, o: CgroupOwnership,
                        after: After)
    ensures var gone := CgroupGone(fails, s, o);
            Alone(expected, fails, s, RemovingCgroup(o, after))
                == Then(gone, Alone(expected, fails, gone.store, AfterCgroup(after)))
  {
    var s' := ClearCgroup(s, o).0;
    var rest := Alone(expected, fails, s', AfterCgroup(after));
    assert Alone(expected, fails, s, ClearingCgroup(o, after)) == rest by {
      assert [] + rest.removed == rest.removed;
    }
  }

  lemma NetworkGoneAlone(expected: Identity -> Option<string>, fails: Resource -> bool, s: Store, o: NetworkOwnership)
    ensures Alone(expected, fails, s, RemovingNetwork(o)) == NetworkGone(fails, s, o)
  {
    assert Alone(expected, fails, s, ClearingNetwork(o)) == Outcome(ClearNetwork(s, o).0, [], false);
    assert NetworkRemovals(o) + [] == NetworkRemovals(o);
  }

  lemma CgroupAlone(expected: Identity -> Option<string>, fails: Resource -> bool, s: Store, g: Identity)
    ensures var part := CgroupPart(expected, fails, s, g);
            && Alone(expected, fails, s, ReadingCgroup(g))
                == Then(part, Alone(expected, fails, part.store, Reloading(g)))
            && Alone(expected, fails, s, AbortReadingCgroup(g))
                == Then(part, Alone(expected, fails, part.store, ReadingNetwork(g)))
  {
    if OwnsCgroup(expected, s, g) {
      Skips(expected, fails, s, ReadingCgroup(g), RemovingCgroup(s.cgroup.value, Reload(g)));
      Skips(expected, fails, s, AbortReadingCgroup(g), RemovingCgroup(s.cgroup.value, Network(g)));
      CgroupGoneAlone(expected, fails, s, s.cgroup.value, Reload(g));
      CgroupGoneAlone(expected, fails, s, s.cgroup.value, Network(g));
    } else {
      Skips(expected, fails, s, ReadingCgroup(g), Reloading(g));
      Skips(expected, fails, s, AbortReadingCgroup(g), ReadingNetwork(g));
      NothingThen(s, Alone(expected, fails, s, Reloading(g)));
      NothingThen(s, Alone(expected, fails, s, ReadingNetwork(g)));
    }
  }

  /** A step that only looks leaves the rest of the way as it is. */
  lemma Skips(expected: Identity -> Option<string>, fails: Resource -> bool, s: Store, pc: Pc, next: Pc)
    requires !pc.Done? && ActStep(expected, s, pc, HostFault(fails, pc)) == Quiet(s, next)
    ensures Alone(expected, fails, s, pc) == Alone(expected, fails, s, next)
  {
    Does(expected, fails, s, pc, Outcome(s, [], false), next);
    NothingThen(s, Alone(expected, fails, s, next));
  }

  lemma NothingThen(s: Store, o: Outcome)
    ensures Then(Outcome(s, [], false), o) == o
  {
    assert [] + o.removed == o.removed;
  }

  lemma NetworkAlone(expected: Identity -> Option<string>, fails: Resource -> bool, s: Store, g: Identity)
    ensures Alone(expected, fails, s, ReadingNetwork(g)) == NetworkPart(fails, s, g)
  {
    if OwnsNetwork(s, g) {
      Skips(expected, fails, s, ReadingNetwork(g), RemovingNetwork(s.network.value));
      NetworkGoneAlone(expected, fails, s, s.network.value);
    } else {
      Skips(expected, fails, s, ReadingNetwork(g), Done);
    }
  }

  /** After a reload: external resources, if the stop on record is the generation's own. */
  function ExternalPart(fails: Resource -> bool, s: Store, g: Identity): Outcome {
    if s.record.Stopped? && s.record.exited == Some(g) then Then(DnsPart(s, g), NetworkPart(fails, s, g))
    else Outcome(s, [], false)
  }

  lemma ReloadAlone(expected: Identity -> Option<string>, fails: Resource -> bool, s: Store, g: Identity)
    ensures Alone(expected, fails, s, Reloading(g)) == ExternalPart(fails, s, g)
  {
    if s.record.Stopped? {
      Skips(expected, fails, s, Reloading(g), Identifying(g, s.revision));
      if s.record.exited == Some(g) {
        Skips(expected, fails, s, Identifying(g, s.revision), CleaningDns(g));
        NetworkAlone(expected, fails, s, g);
      } else {
        Skips(expected, fails, s, Identifying(g, s.revision), Done);
      }
    } else {
      Skips(expected, fails, s, Reloading(g), Done);
    }
  }

  function FinalizedPart(expected: Identity -> Option<string>, fails: Resource -> bool, s: Store, g: Identity,
                         code: int): Outcome
  {
    var (m, changed) := MarkStopped(s, g, code);
    Then(Outcome(m, [], changed), CgroupPart(expected, fails, m, g))
  }

  lemma FinalizeAlone(expected: Identity -> Option<string>, fails: Resource -> bool, s: Store, g: Identity, code: int)
    ensures var first := FinalizedPart(expected, fails, s, g, code);
            Alone(expected, fails, s, Marking(g, code)) == Then(first, ExternalPart(fails, first.store, g))
  {
    var (m, changed) := MarkStopped(s, g, code);
    var part := CgroupPart(expected, fails, m, g);
    Does(expected, fails, s, Marking(g, code), Outcome(m, [], changed), ReadingCgroup(g));
    CgroupAlone(expected, fails, m, g);
    ReloadAlone(expected, fails, part.store, g);
    ThenAssociates(Outcome(m, [], changed), part, ExternalPart(fails, part.store, g));
  }

  /** A failed start: the captured cgroup, and then whatever its generation still owns. */
  function AbortRest(expected: Identity -> Option<string>, fails: Resource -> bool, s: Store, g: Identity): Outcome {
    if s.record.Stopped? then
      var part := CgroupPart(expected, fails, s, g);
      Then(DnsPart(s, g), Then(part, NetworkPart(fails, part.store, g)))
    else Outcome(s, [], false)
  }

  function CapturedPart(expected: Identity -> Option<string>, s: Store, g: Identity, captured: bool): Outcome {
    Outcome(s, if captured && expected(g).Some? then [Removal(g, Cgroup(expected(g).value))] else [], false)
  }

  lemma AbortAlone(expected: Identity -> Option<string>, fails: Resource -> bool, s: Store, g: Identity, captured: bool)
    ensures var (m, changed) := MarkStopped(s, g, UNKNOWN_EXIT);
            Alone(expected, fails, s, Aborting(g, captured))
            == Then(Outcome(m, [], changed),
                Then(CapturedPart(expected, m, g, captured), AbortRest(expected, fails, m, g)))
  {
    var m := MarkStopped(s, g, UNKNOWN_EXIT).0;
    var rest := AbortRest(expected, fails, m, g);
    AbortRestAlone(expected, fails, m, g);
    if captured && expected(g).Some? {
      assert Alone(expected, fails, m, AbortRemoving(g, expected(g).value))
          == Then(CapturedPart(expected, m, g, captured), rest);
    } else {
      NothingThen(m, rest);
    }
  }

  lemma AbortRestAlone(expected: Identity -> Option<string>, fails: Resource -> bool, s: Store, g: Identity)
    ensures Alone(expected, fails, s, AbortReloading(g)) == AbortRest(expected, fails, s, g)
  {
    if s.record.Stopped? {
      Skips(expected, fails, s, AbortReloading(g), AbortCleaningDns(g));
      Does(expected, fails, s, AbortCleaningDns(g), DnsPart(s, g), AbortReadingCgroup(g));
      CgroupAlone(expected, fails, s, g);
      NetworkAlone(expected, fails, CgroupPart(expected, fails, s, g).store, g);
    } else {
      Skips(expected, fails, s, AbortReloading(g), Done);
    }
  }

  // ---------- A finalizer on a willing host ----------

  lemma FinalizedParts(expected: Identity -> Option<string>, fails: Resource -> bool, s: Store, g: Identity, code: int)
    requires g.Complete() && s.record == Running(g) && WellNamed(expected, s)
    requires s.cgroup.Some? ==> s.cgroup.value.generation == g
    requires s.network.Some? ==> s.network.value.generation == g
    requires !AnyFails(fails, AllRemovals(s, g))
    ensures var first := FinalizedPart(expected, fails, s, g, code);
            Then(first, ExternalPart(fails, first.store, g))
            == Outcome(Store(Stopped(Some(g), code), s.revision + 1, None, None), AllRemovals(s, g), true)
  {
    var m := MarkStopped(s, g, code).0;
    LetsGo(fails, s, g);
    WillingCgroup(expected, fails, m, g);
    WillingExternal(fails, m.(cgroup := None), g);
    InOrder(if s.cgroup.Some? then [Removal(g, Cgroup(s.cgroup.value.name))] else [], [Removal(g, Dns(g))],
            if s.network.Some? then NetworkRemovals(s.network.value) else []);
  }

  lemma InOrder(a: seq<Removal>, b: seq<Removal>, c: seq<Removal>)
    ensures ([] + a) + (b + c) == (a + b) + c
  {
    assert [] + a == a;
  }

  /**
   A finalizer left alone, on a host that lets go of everything, stops the
   generation, removes each thing it owned once, and leaves nothing that keeps
   the container from starting again.
   */
  lemma FinalizedAlone(expected: Identity -> Option<string>, fails: Resource -> bool, s: Store, g: Identity, code: int)
    requires g.Complete() && s.record == Running(g) && WellNamed(expected, s)
    requires s.cgroup.Some? ==> s.cgroup.value.generation == g
    requires s.network.Some? ==> s.network.value.generation == g
    requires !AnyFails(fails, AllRemovals(s, g))
    ensures var o := Alone(expected, fails, s, Marking(g, code));
            && o.changed && o.removed == AllRemovals(s, g)
            && o.store == Store(Stopped(Some(g), code), s.revision + 1, None, None)
            && forall h: Identity :: h.Complete() ==> MarkRunning(o.store, h).1
  {
    FinalizeAlone(expected, fails, s, g, code);
    FinalizedParts(expected, fails, s, g, code);
  }

  lemma WillingCgroup(expected: Identity -> Option<string>, fails: Resource -> bool, s: Store, g: Identity)
    requires s.record.Stopped? && WellNamed(expected, s)
    requires s.cgroup.Some? ==> s.cgroup.value.generation == g && !fails(Cgroup(s.cgroup.value.name))
    ensures CgroupPart(expected, fails, s, g)
            == Outcome(s.(cgroup := None),
                       if s.cgroup.Some? then [Removal(g, Cgroup(s.cgroup.value.name))] else [], false)
  {
  }

  lemma WillingExternal(fails: Resource -> bool, s: Store, g: Identity)
    requires s.record.Stopped? && s.record.exited == Some(g)
    requires s.network.Some? ==> s.network.value.generation == g && !AnyFails(fails, NetworkRemovals(s.network.value))
    ensures ExternalPart(fails, s, g)
            == Outcome(s.(network := None),
                       [Removal(g, Dns(g))] + (if s.network.Some? then NetworkRemovals(s.network.value) else []), false)
  {
  }

  lemma LetsGo(fails: Resource -> bool, s: Store, g: Identity)
    requires !AnyFails(fails, AllRemovals(s, g))
    ensures s.cgroup.Some? ==> !fails(Cgroup(s.cgroup.value.name))
    ensures s.network.Some? ==> !AnyFails(fails, NetworkRemovals(s.network.value))
  {
    var all := AllRemovals(s, g);
    if s.cgroup.Some? {
      assert all[0] == Removal(g, Cgroup(s.cgroup.value.name));
    }
    if s.network.Some? {
      var some := NetworkRemovals(s.network.value);
      forall i | 0 <= i < |some|
        ensures !fails(some[i].resource)
      {
        assert all[i + |all| - |some|] == some[i];
      }
    }
  }
}
