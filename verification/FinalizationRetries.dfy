/**
 What finalizers, failed starts and later retries remove on any host, and that
 a retry finishes what a host refused before.
 */
module FinalizationRetries {
  import opened Finalization
  import opened FinalizationAlone
  import opened FinalizationProgram
  import opened GenerationStore
  import opened ProcessIdentity
  import opened Wrappers

  /** Both tokens are the generation's own, as far as there are any. */
  ghost predicate Owned(expected: Identity -> Option<string>, s: Store, g: Identity) {
    && (s.cgroup.Some? ==> s.cgroup.value.generation == g && expected(g) == Some(s.cgroup.value.name))
    && (s.network.Some? ==> s.network.value.generation == g)
  }

  /** The host refuses to remove some of what the token names. */
  ghost predicate CgroupStuck(fails: Resource -> bool, s: Store) {
    s.cgroup.Some? && fails(Cgroup(s.cgroup.value.name))
  }

  ghost predicate NetworkStuck(fails: Resource -> bool, s: Store) {
    s.network.Some? &&
    var o := s.network.value;
    || (exists i :: 0 <= i < |o.mappings| && fails(Port(o.owner, o.mappings[i])))
    || (o.vethHost != "" && fails(Veth(o.vethHost, o.owner)))
  }

  lemma StuckMeans(fails: Resource -> bool, o: NetworkOwnership)
    ensures AnyFails(fails, NetworkRemovals(o)) <==>
            || (exists i :: 0 <= i < |o.mappings| && fails(Port(o.owner, o.mappings[i])))
            || (o.vethHost != "" && fails(Veth(o.vethHost, o.owner)))
  {
    var ports := PortRemovals(o, |o.mappings|);
    var veth := if o.vethHost != "" then [Removal(o.generation, Veth(o.vethHost, o.owner))] else [];
    FailsEither(fails, ports, veth);
    if o.vethHost != "" {
      FailsOne(fails, veth[0]);
    }
    if i :| 0 <= i < |o.mappings| && fails(Port(o.owner, o.mappings[i])) {
      assert fails(ports[|o.mappings| - 1 - i].resource);
    }
  }

  /** The record stopped, and only tokens left that name something the host did not let go of. */
  ghost function StoppedStore(fails: Resource -> bool, s: Store, g: Identity, code: int): Store {
    Store(Stopped(Some(g), code), s.revision + 1,
          if CgroupStuck(fails, s) then s.cgroup else None, if NetworkStuck(fails, s) then s.network else None)
  }

  /** The cgroup part on any host, once the stop is on record. */
  lemma CgroupPartOnAnyHost(expected: Identity -> Option<string>, fails: Resource -> bool, s: Store, g: Identity)
    requires s.record.Stopped? && Owned(expected, s, g)
    ensures CgroupPart(expected, fails, s, g)
         == Outcome(s.(cgroup := if CgroupStuck(fails, s) then s.cgroup else None),
                    if s.cgroup.Some? then [Removal(g, Cgroup(s.cgroup.value.name))] else [], false)
  {
  }

  lemma NetworkPartOnAnyHost(expected: Identity -> Option<string>, fails: Resource -> bool, s: Store, g: Identity)
    requires s.record.Stopped? && Owned(expected, s, g)
    ensures NetworkPart(fails, s, g)
         == Outcome(s.(network := if NetworkStuck(fails, s) then s.network else None),
                    if s.network.Some? then NetworkRemovals(s.network.value) else [], false)
  {
    if s.network.Some? { StuckMeans(fails, s.network.value); }
  }

  /** Whatever the host refuses, a finalizer tries everything once, and keeps exactly the tokens still needed. */
  lemma FinalizedOnAnyHost(expected: Identity -> Option<string>, fails: Resource -> bool, s: Store, g: Identity,
                           code: int)
    requires g.Complete() && s.record == Running(g) && Owned(expected, s, g)
    ensures var o := Alone(expected, fails, s, Marking(g, code));
            o.changed && o.removed == AllRemovals(s, g) && o.store == StoppedStore(fails, s, g, code)
  {
    var m := MarkStopped(s, g, code).0;
    FinalizeAlone(expected, fails, s, g, code);
    CgroupPartOnAnyHost(expected, fails, m, g);
    var part := CgroupPart(expected, fails, m, g);
    NetworkPartOnAnyHost(expected, fails, part.store, g);
    InOrder(part.removed, [Removal(g, Dns(g))], if s.network.Some? then NetworkRemovals(s.network.value) else []);
    assert [Removal(g, Dns(g))] + [] == [Removal(g, Dns(g))];
  }

  /** So does a failed start, in its own order; a cgroup it had captured it removes first, token or not. */
  lemma AbortedOnAnyHost(expected: Identity -> Option<string>, fails: Resource -> bool, s: Store, g: Identity,
                         captured: bool)
    requires g.Complete() && s.record == Running(g) && Owned(expected, s, g)
    ensures var o := Alone(expected, fails, s, Aborting(g, captured));
            && o.changed && o.store == StoppedStore(fails, s, g, -1)
            && o.removed == (if captured && expected(g).Some? then [Removal(g, Cgroup(expected(g).value))] else [])
                            + ([Removal(g, Dns(g))]
                               + ((if s.cgroup.Some? then [Removal(g, Cgroup(s.cgroup.value.name))] else [])
                                  + if s.network.Some? then NetworkRemovals(s.network.value) else []))
  {
    var m := MarkStopped(s, g, UNKNOWN_EXIT).0;
    AbortAlone(expected, fails, s, g, captured);
    CgroupPartOnAnyHost(expected, fails, m, g);
    NetworkPartOnAnyHost(expected, fails, CgroupPart(expected, fails, m, g).store, g);
    NothingBefore(CapturedPart(expected, m, g, captured).removed + AbortRest(expected, fails, m, g).removed);
  }

  lemma NothingBefore(r: seq<Removal>)
    ensures [] + r == r
  {
  }

  /**
   A second finalizer of a stopped generation finishes what is left, and changes
   the record only if it brings an exit code that was not known.
   */
  lemma FinalizedAgain(expected: Identity -> Option<string>, fails: Resource -> bool, s: Store, g: Identity,
                       known: int, code: int)
    requires g.Complete() && s.record == Stopped(Some(g), known) && Owned(expected, s, g)
    ensures var o := Alone(expected, fails, s, Marking(g, code));
            && (o.changed <==> known == -1 && code != -1)
            && o.removed == AllRemovals(s, g)
            && o.store.record == Stopped(Some(g), if known == -1 then code else known)
            && o.store.cgroup == (if CgroupStuck(fails, s) then s.cgroup else None)
            && o.store.network == (if NetworkStuck(fails, s) then s.network else None)
  {
    var m := MarkStopped(s, g, code).0;
    FinalizeAlone(expected, fails, s, g, code);
    CgroupPartOnAnyHost(expected, fails, m, g);
    var part := CgroupPart(expected, fails, m, g);
    NetworkPartOnAnyHost(expected, fails, part.store, g);
    InOrder(part.removed, [Removal(g, Dns(g))], if s.network.Some? then NetworkRemovals(s.network.value) else []);
  }

  /**
   Once another generation is on record, a late finalizer does nothing at all, and
   a late failed start removes the cgroup it had captured and, unless that other
   generation runs, its own DNS entry.
   */
  lemma LateActorsSpare(expected: Identity -> Option<string>, fails: Resource -> bool, s: Store, g: Identity,
                        h: Identity, code: int, captured: bool)
    requires g != h && Owned(expected, s, h)
    requires s.record == Running(h) || (s.record.Stopped? && s.record.exited == Some(h))
    ensures Alone(expected, fails, s, Marking(g, code)) == Outcome(s, [], false)
    ensures Alone(expected, fails, s, Aborting(g, captured))
         == Outcome(s, (if captured && expected(g).Some? then [Removal(g, Cgroup(expected(g).value))] else [])
                       + (if s.record.Running? then [] else [Removal(g, Dns(g))]), false)
  {
    assert MarkStopped(s, g, code) == (s, false) && MarkStopped(s, g, UNKNOWN_EXIT) == (s, false);
    FinalizeAlone(expected, fails, s, g, code);
    AbortAlone(expected, fails, s, g, captured);
    NothingThen(s, Outcome(s, [], false));
    var own := CapturedPart(expected, s, g, captured);
    assert AbortRest(expected, fails, s, g)
        == Outcome(s, if s.record.Running? then [] else [Removal(g, Dns(g))], false);
    NothingThen(s, Then(own, AbortRest(expected, fails, s, g)));
  }

  // ---------- Failing steps ----------

  /** The positions of a finalizer before it reloads the record. */
  predicate BeforeReload(pc: Pc, g: Identity) {
    match pc
    case Marking(h, _) => h == g
    case ReadingCgroup(h) => h == g
    case RemovingCgroup(_, after) => after == Reload(g)
    case ClearingCgroup(_, after) => after == Reload(g)
    case Reloading(h) => h == g
    case _ => false
  }

  /** An actor that does some steps with nobody else in between, each with its fault. */
  function Steps(expected: Identity -> Option<string>, s: Store, pc: Pc, faults: seq<Fault>): (Store, Pc)
    decreases |faults|
  {
    if faults == [] then (s, pc)
    else
      var e := ActStep(expected, s, pc, faults[0]);
      Steps(expected, e.store, e.next, faults[1..])
  }

  /** Whatever fails before, and in whatever way, a finalizer gets to where it reloads the record. */
  lemma {:induction false} AlwaysReloads(expected: Identity -> Option<string>, s: Store, pc: Pc, g: Identity,
                                         faults: seq<Fault>) returns (n: nat)
    requires BeforeReload(pc, g) && Rank(pc) <= |faults|
    ensures n <= |faults| && Steps(expected, s, pc, faults[..n]).1 == Reloading(g)
    decreases Rank(pc)
  {
    if pc == Reloading(g) {
      n := 0;
    } else {
      RankFalls(expected, s, pc, faults[0]);
      var e := ActStep(expected, s, pc, faults[0]);
      n := AlwaysReloads(expected, e.store, e.next, g, faults[1..]);
      assert faults[..n + 1][1..] == faults[1..][..n];
      n := n + 1;
    }
  }

  /** A failed removal of a DNS entry does not keep an actor from what comes next. */
  lemma DnsFailureHidesNothing(expected: Identity -> Option<string>, s: Store, g: Identity, fault: Fault)
    ensures ActStep(expected, s, CleaningDns(g), fault) == Effect(s, ReadingNetwork(g), [], [Removal(g, Dns(g))])
    ensures ActStep(expected, s, AbortCleaningDns(g), fault)
        == Effect(s, AbortReadingCgroup(g), [], [Removal(g, Dns(g))])
  {
  }

  /**
   A stop that is committed although its caller is told nothing of it: the
   finalizer leaves the cgroup to a retry, and removes the rest.
   */
  lemma UnseenStopCleans(expected: Identity -> Option<string>, fails: Resource -> bool, s: Store, g: Identity,
                         code: int)
    requires g.Complete() && s.record == Running(g) && Owned(expected, s, g)
    ensures var e := ActStep(expected, s, Marking(g, code), CommitsUnseen);
            var o := Alone(expected, fails, e.store, e.next);
            && e.removed == [] && e.store.record == Stopped(Some(g), code)
            && o.removed == [Removal(g, Dns(g))] + (if s.network.Some? then NetworkRemovals(s.network.value) else [])
            && o.store == Store(Stopped(Some(g), code), s.revision + 1, s.cgroup,
                                if NetworkStuck(fails, s) then s.network else None)
  {
    var m := MarkStopped(s, g, code).0;
    ReloadAlone(expected, fails, m, g);
    NetworkPartOnAnyHost(expected, fails, m, g);
  }

  /** A retry for a cgroup acts exactly on the stop its caller saw and on that generation's own token. */
  lemma CgroupRetried(expected: Identity -> Option<string>, fails: Resource -> bool, s: Store, revision: nat)
    ensures var o := Alone(expected, fails, s, RetryChecking(revision));
            if s.record.Stopped? && s.revision == revision && s.cgroup.Some?
               && s.record.exited == Some(s.cgroup.value.generation)
               && expected(s.cgroup.value.generation) == Some(s.cgroup.value.name) then
              && o.removed == [Removal(s.cgroup.value.generation, Cgroup(s.cgroup.value.name))]
              && o.store == s.(cgroup := if CgroupStuck(fails, s) then s.cgroup else None)
            else o.removed == [] && o.store == s
  {
    RetryAlone(expected, fails, s, revision);
  }

  /** A retry for a network token acts exactly once the stop of the token's generation is on record. */
  lemma NetworkRetried(expected: Identity -> Option<string>, fails: Resource -> bool, s: Store)
    requires s.network.Some?
    ensures var token := s.network.value;
            var o := Alone(expected, fails, s, GatingNetwork(token));
            if s.record.Stopped? && s.record.exited == Some(token.generation) then
              && o.removed == NetworkRemovals(token)
              && o.store == s.(network := if NetworkStuck(fails, s) then s.network else None)
            else o.removed == [] && o.store == s
  {
    GateAlone(expected, fails, s, s.network.value);
    StuckMeans(fails, s.network.value);
  }

  /** A retry for a DNS entry removes that of the generation whose stop is the revision its caller saw. */
  lemma DnsRetried(expected: Identity -> Option<string>, fails: Resource -> bool, s: Store, revision: nat)
    ensures var o := Alone(expected, fails, s, RetryReadingDns(revision));
            && o.store == s
            && o.removed == if s.record.Stopped? && s.revision == revision && s.record.exited.Some?
                            then [Removal(s.record.exited.value, Dns(s.record.exited.value))] else []
  {
    if ExitedAt(s, revision).Some? {
      var g := ExitedAt(s, revision).value;
      Skips(expected, fails, s, RetryReadingDns(revision), RetryCleaningDns(g));
      Does(expected, fails, s, RetryCleaningDns(g), DnsPart(s, g), Done);
    } else {
      Skips(expected, fails, s, RetryReadingDns(revision), Done);
    }
  }

  /** The removals of a network token are its ports, last one first, and its interface. */
  lemma NetworkRemovalsAre(o: NetworkOwnership)
    ensures var n, r := |o.mappings|, NetworkRemovals(o);
            && |r| == n + (if o.vethHost != "" then 1 else 0)
            && (forall i | 0 <= i < n :: r[i] == Removal(o.generation, Port(o.owner, o.mappings[n - 1 - i])))
            && (o.vethHost != "" ==> r[n] == Removal(o.generation, Veth(o.vethHost, o.owner)))
  {
  }

  /** What is left of the store once a willing host has let a cgroup retry and then a network retry through. */
  function Retried(expected: Identity -> Option<string>, willing: Resource -> bool, s: Store): Store {
    var s1 := Alone(expected, willing, s, RetryChecking(s.revision)).store;
    if s1.network.Some? then Alone(expected, willing, s1, GatingNetwork(s1.network.value)).store else s1
  }

  lemma RetriedClears(expected: Identity -> Option<string>, willing: Resource -> bool, s: Store, g: Identity)
    requires s.record.Stopped? && s.record.exited == Some(g) && Owned(expected, s, g)
    requires !CgroupStuck(willing, s) && !NetworkStuck(willing, s)
    ensures Retried(expected, willing, s) == s.(cgroup := None, network := None)
  {
    CgroupRetried(expected, willing, s, s.revision);
    var s1 := Alone(expected, willing, s, RetryChecking(s.revision)).store;
    assert s1 == s.(cgroup := None);
    if s1.network.Some? {
      NetworkRetried(expected, willing, s1);
    }
  }

  /**
   A finalizer on any host, and once the host lets go the two retries: nothing is
   pending any more and the container can start again.
   */
  lemma RetriesFinish(expected: Identity -> Option<string>, fails: Resource -> bool, willing: Resource -> bool,
                      s: Store, g: Identity, code: int, next: Identity)
    requires g.Complete() && s.record == Running(g) && Owned(expected, s, g) && next.Complete()
    requires !CgroupStuck(willing, s) && !NetworkStuck(willing, s)
    ensures var finished := Retried(expected, willing, Alone(expected, fails, s, Marking(g, code)).store);
            && finished == Store(Stopped(Some(g), code), s.revision + 1, None, None)
            && MarkRunning(finished, next).1
  {
    FinalizedOnAnyHost(expected, fails, s, g, code);
    RetriedClears(expected, willing, StoppedStore(fails, s, g, code), g);
  }

  // ---------- The record ----------

  /** A token is taken exactly while its generation runs and no other token is there, and then is on record. */
  lemma TokensRecorded(s: Store, c: CgroupOwnership, n: NetworkOwnership)
    ensures var (s', ok) := MarkCgroupOwned(s, c);
            && (ok <==> s.record == Running(c.generation) && (s.cgroup.None? || s.cgroup == Some(c)))
            && s' == if ok then s.(cgroup := Some(c)) else s
    ensures var (s', ok) := MarkNetworkOwned(s, n);
            && (ok <==> s.record == Running(n.generation) && (s.network.None? || s.network == Some(n)))
            && s' == if ok then s.(network := Some(n)) else s
  {
  }

  /** A token is cleared by naming it: a cgroup's while nothing runs, a network's while no other generation does. */
  lemma TokensCleared(s: Store, c: CgroupOwnership, n: NetworkOwnership)
    ensures var (s', r) := ClearCgroup(s, c);
            && (r.Removed? <==> s.cgroup == Some(c) && !s.record.Running?)
            && s' == if r.Removed? then s.(cgroup := None) else s
    ensures var (s', r) := ClearNetwork(s, n);
            && (r.Removed? <==> s.network == Some(n) && (s.record.Running? ==> s.record == Running(n.generation)))
            && s' == if r.Removed? then s.(network := None) else s
  {
  }

  /** When a generation may be bound, and what the record then says. */
  lemma RunningRecorded(s: Store, g: Identity)
    ensures var (s', ok) := MarkRunning(s, g);
            && (ok <==> g.Complete() && if s.record.Running? then s.record == Running(g)
                                        else s.cgroup.None? && s.network.None?)
            && s' == if ok then s.(record := Running(g), revision := s.revision + 1) else s
  {
  }

  /** A stop is recorded for the generation that runs, or supplies the exit code its own stop did not know. */
  lemma StopRecordedExactly(s: Store, g: Identity, code: int)
    requires g.Complete()
    ensures var (s', changed) := MarkStopped(s, g, code);
            && (changed <==> s.record == Running(g) || (s.record == Stopped(Some(g), -1) && code != -1))
            && s' == if changed then s.(record := Stopped(Some(g), code), revision := s.revision + 1) else s
  {
  }

  /** A failed start without a process is stopped under no identity, if it owned nothing. */
  lemma CreatedStopped(s: Store, code: int)
    ensures var (s', ok) := MarkStoppedIfCreated(s, code);
            && (ok <==> s.record.Created? && s.cgroup.None? && s.network.None?)
            && s' == if ok then s.(record := Stopped(None, code), revision := s.revision + 1) else s
  {
  }
}
