/**
 The finalizer as the program runs it: ordered store updates and removals, each
 failure kept and reported, none of them hiding the next step. What a call does
 is what its actor does when left alone.
 */
module FinalizationProgram {
  import opened Finalization
  import opened FinalizationAlone
  import opened GenerationStore
  import opened ProcessIdentity
  import opened Wrappers

  /** The durable record, each method one critical section. */
  class StateStore {
    var record: Record
    var revision: nat
    var cgroup: Option<CgroupOwnership>
    var network: Option<NetworkOwnership>

    ghost function Value(): Store
      reads this
    {
      Store(record, revision, cgroup, network)
    }

    constructor ()
      ensures Value() == INITIAL.store
    {
      record, revision, cgroup, network := Created, 0, None, None;
    }

    method MarkRunningAs(g: Identity) returns (ok: bool)
      modifies this`record, this`revision
      ensures (Value(), ok) == MarkRunning(old(Value()), g)
    {
      if !g.Complete() {
        return false;
      }
      if record.Running? && record.generation != g {
        return false;
      }
      if !record.Running? {
        if cgroup.Some? {
          return false;
        }
        if network.Some? {
          return false;
        }
      }
      record, revision := Running(g), revision + 1;
      return true;
    }

    method MarkStoppedIfIdentity(g: Identity, code: int) returns (changed: bool)
      modifies this`record, this`revision
      ensures (Value(), changed) == MarkStopped(old(Value()), g, code)
    {
      if !g.Complete() {
        return false;
      }
      if record.Stopped? {
        if record.exitCode != UNKNOWN_EXIT || code == UNKNOWN_EXIT {
          return false;
        }
        if record.exited != Some(g) {
          return false;
        }
        record, revision := record.(exitCode := code), revision + 1;
        return true;
      }
      if !record.Running? || record.generation != g {
        return false;
      }
      record, revision := Stopped(Some(g), code), revision + 1;
      return true;
    }

    method ClearCgroupOwnershipIfMatch(o: CgroupOwnership) returns (r: Cleared)
      modifies this`cgroup
      ensures (Value(), r) == ClearCgroup(old(Value()), o)
    {
      if cgroup != Some(o) {
        return NoMatch;
      }
      if record.Running? {
        return Refused;
      }
      cgroup := None;
      return Removed;
    }

    method ClearNetworkOwnershipIfMatch(o: NetworkOwnership) returns (r: Cleared)
      modifies this`network
      ensures (Value(), r) == ClearNetwork(old(Value()), o)
    {
      if network != Some(o) {
        return NoMatch;
      }
      if record.Running? && record.generation != o.generation {
        return Refused;
      }
      network := None;
      return Removed;
    }
  }

  /** The host side: which removals it refuses, and every one that was tried. */
  class Host {
    const fails: Resource -> bool
    var removed: seq<Removal>

    constructor (fails: Resource -> bool)
      ensures removed == [] && this.fails == fails
    {
      this.fails := fails;
      removed := [];
    }

    method Remove(g: Identity, resource: Resource) returns (ok: bool)
      modifies this`removed
      ensures removed == old(removed) + [Removal(g, resource)]
      ensures ok == !fails(resource)
    {
      removed := removed + [Removal(g, resource)];
      return !fails(resource);
    }
  }

  /** Tries every mapping from the last one back, and then the interface, whatever fails. */
  method RemoveNetwork(host: Host, o: NetworkOwnership) returns (ok: bool)
    modifies host`removed
    ensures host.removed == old(host.removed) + NetworkRemovals(o)
    ensures ok == !AnyFails(host.fails, NetworkRemovals(o))
  {
    ghost var before, fails := host.removed, host.fails;
    ghost var ports := PortRemovals(o, |o.mappings|);
    ok := true;
    var i := |o.mappings|;
    while i > 0
      invariant 0 <= i <= |o.mappings|
      invariant host.removed + PortRemovals(o, i) == before + ports
      invariant AnyFails(fails, ports) <==> !ok || AnyFails(fails, PortRemovals(o, i))
    {
      ghost var taken := host.removed;
      i := i - 1;
      var removed := host.Remove(o.generation, Port(o.owner, o.mappings[i]));
      PortsStep(fails, o, i, taken);
      ok := ok && removed;
    }
    assert PortRemovals(o, 0) == [] && host.removed == before + ports;
    if o.vethHost != "" {
      ghost var veth := [Removal(o.generation, Veth(o.vethHost, o.owner))];
      var removed := host.Remove(o.generation, Veth(o.vethHost, o.owner));
      FailsOne(fails, veth[0]);
      FailsEither(fails, ports, veth);
      assert (before + ports) + veth == before + (ports + veth);
      ok := ok && removed;
    } else {
      assert NetworkRemovals(o) == ports;
    }
  }

  lemma PortsStep(fails: Resource -> bool, o: NetworkOwnership, i: nat, taken: seq<Removal>)
    requires i < |o.mappings|
    ensures var r := Removal(o.generation, Port(o.owner, o.mappings[i]));
            && taken + PortRemovals(o, i + 1) == (taken + [r]) + PortRemovals(o, i)
            && (AnyFails(fails, PortRemovals(o, i + 1)) <==> fails(r.resource) || AnyFails(fails, PortRemovals(o, i)))
  {
    var r := Removal(o.generation, Port(o.owner, o.mappings[i]));
    assert taken + ([r] + PortRemovals(o, i)) == (taken + [r]) + PortRemovals(o, i);
    FailsOne(fails, r);
    FailsEither(fails, [r], PortRemovals(o, i));
  }

  lemma FailsOne(fails: Resource -> bool, r: Removal)
    ensures AnyFails(fails, [r]) <==> fails(r.resource)
  {
    assert [r][0] == r;
  }

  lemma FailsEither(fails: Resource -> bool, a: seq<Removal>, b: seq<Removal>)
    ensures AnyFails(fails, a + b) <==> AnyFails(fails, a) || AnyFails(fails, b)
  {
    var all := a + b;
    assert forall i | 0 <= i < |a| :: all[i] == a[i];
    assert forall i | 0 <= i < |b| :: all[|a| + i] == b[i];
  }

  // ---------- The program ----------

  /** The token survives unless everything it names is gone. */
  method CleanupNetworkOwnership(st: StateStore, host: Host, o: NetworkOwnership) returns (ok: bool)
    modifies st`network, host`removed
    ensures host.removed == old(host.removed) + NetworkRemovals(o)
    ensures st.Value() == if AnyFails(host.fails, NetworkRemovals(o)) then old(st.Value())
        else ClearNetwork(old(st.Value()), o).0
    ensures ok <==> !AnyFails(host.fails, NetworkRemovals(o)) && st.network.None?
  {
    ok := RemoveNetwork(host, o);
    if !ok {
      return false;
    }
    var cleared := st.ClearNetworkOwnershipIfMatch(o);
    if cleared.Refused? {
      return false;
    }
    if cleared.Removed? {
      return true;
    }
    return st.network.None?;
  }

  method ClearOwnedGenerationAfterCleanup(st: StateStore, o: CgroupOwnership) returns (ok: bool)
    modifies st`cgroup
    ensures st.Value() == ClearCgroup(old(st.Value()), o).0
    ensures ok <==> st.cgroup.None?
  {
    var cleared := st.ClearCgroupOwnershipIfMatch(o);
    if cleared.Refused? {
      return false;
    }
    if cleared.Removed? {
      return true;
    }
    return st.cgroup.None?;
  }

  method CleanupOwnedGeneration(st: StateStore, host: Host, expected: Identity -> Option<string>, o: CgroupOwnership)
    returns (ok: bool)
    modifies st`cgroup, host`removed
    ensures expected(o.generation) != Some(o.name) ==>
              !ok && st.Value() == old(st.Value()) && host.removed == old(host.removed)
    ensures expected(o.generation) == Some(o.name) ==>
              && host.removed == old(host.removed) + [Removal(o.generation, Cgroup(o.name))]
              && st.Value()
                  == (if host.fails(Cgroup(o.name)) then old(st.Value()) else ClearCgroup(old(st.Value()), o).0)
              && (ok <==> !host.fails(Cgroup(o.name)) && st.cgroup.None?)
  {
    if expected(o.generation) != Some(o.name) {
      return false;
    }
    ok := host.Remove(o.generation, Cgroup(o.name));
    if !ok {
      return false;
    }
    ok := ClearOwnedGenerationAfterCleanup(st, o);
  }

  /** Stops the record first; what the generation's cgroup token names is removed only after that. */
  method FinalizeStopped(st: StateStore, host: Host, expected: Identity -> Option<string>, g: Identity, code: int)
    returns (changed: bool, ok: bool)
    requires g.Complete()
    modifies st, host`removed
    ensures changed == MarkStopped(old(st.Value()), g, code).1
    ensures Outcome(st.Value(), host.removed, changed)
            == Joined(old(host.removed), FinalizedPart(expected, host.fails, old(st.Value()), g, code))
  {
    changed := st.MarkStoppedIfIdentity(g, code);
    ghost var m := st.Value();
    ok := CleanupCgroupIfOwned(st, host, expected, g, false);
    ghost var part := CgroupPart(expected, host.fails, m, g);
    assert [] + part.removed == part.removed;
  }

  /** Another generation's token is left alone; the caller says whether to report that as success. */
  method CleanupCgroupIfOwned(st: StateStore, host: Host, expected: Identity -> Option<string>, g: Identity,
                              foreign: bool)
    returns (ok: bool)
    modifies st`cgroup, host`removed
    ensures Outcome(st.Value(), host.removed, false)
            == Joined(old(host.removed), CgroupPart(expected, host.fails, old(st.Value()), g))
  {
    assert host.removed + [] == host.removed;
    if st.cgroup.None? {
      return true;
    }
    var o := st.cgroup.value;
    if o.generation != g {
      return foreign;
    }
    ok := CleanupOwnedGeneration(st, host, expected, o);
  }

  method CleanupNetworkIfOwned(st: StateStore, host: Host, g: Identity) returns (ok: bool)
    modifies st`network, host`removed
    ensures Outcome(st.Value(), host.removed, false)
        == Joined(old(host.removed), NetworkPart(host.fails, old(st.Value()), g))
  {
    assert host.removed + [] == host.removed;
    if st.network.None? {
      return true;
    }
    var o := st.network.value;
    if o.generation != g {
      return true;
    }
    ok := CleanupNetworkOwnership(st, host, o);
  }

  /** DNS, ports and interface go only if the stop on record is the generation's own. */
  method CleanupExternal(st: StateStore, host: Host, g: Identity) returns (ok: bool)
    modifies st`network, host`removed
    ensures Outcome(st.Value(), host.removed, false)
        == Joined(old(host.removed), ExternalPart(host.fails, old(st.Value()), g))
  {
    ghost var s, r := st.Value(), host.removed;
    if st.record.Stopped? && st.record.exited == Some(g) {
      var dnsOk := host.Remove(g, Dns(g));
      ok := CleanupNetworkIfOwned(st, host, g);
      JoinedThen(r, DnsPart(s, g), NetworkPart(host.fails, s, g));
      ok := ok && dnsOk;
    } else {
      assert r + [] == r;
      ok := true;
    }
  }

  /** The whole finalization, which is the actor of the same name left alone. */
  method FinalizeStoppedGeneration(st: StateStore, host: Host, expected: Identity -> Option<string>, g: Identity,
                                   code: int)
    returns (changed: bool, ok: bool)
    requires g.Complete()
    modifies st, host`removed
    ensures Outcome(st.Value(), host.removed, changed)
            == Joined(old(host.removed), Alone(expected, host.fails, old(st.Value()), Marking(g, code)))
  {
    ghost var s, r := st.Value(), host.removed;
    ghost var first := FinalizedPart(expected, host.fails, s, g, code);
    FinalizeAlone(expected, host.fails, s, g, code);
    JoinedThen(r, first, ExternalPart(host.fails, first.store, g));
    changed, ok := FinalizeStopped(st, host, expected, g, code);
    var externalOk := CleanupExternal(st, host, g);
    ok := ok && externalOk;
  }

  /**
   A start that failed after its child ran, called once the child is gone. It
   always reports the failure; the captured cgroup goes whatever else happens.
   */
  method AbortRuntimeSetup(st: StateStore, host: Host, expected: Identity -> Option<string>, g: Identity,
                           captured: bool)
    returns (changed: bool)
    requires g.Complete()
    modifies st, host`removed
    ensures Outcome(st.Value(), host.removed, changed)
            == Joined(old(host.removed), Alone(expected, host.fails, old(st.Value()), Aborting(g, captured)))
  {
    ghost var s, r := st.Value(), host.removed;
    AbortAlone(expected, host.fails, s, g, captured);
    changed := st.MarkStoppedIfIdentity(g, UNKNOWN_EXIT);
    ghost var m := st.Value();
    if captured && expected(g).Some? {
      var removedCgroup := host.Remove(g, Cgroup(expected(g).value));
    }
    ghost var own := CapturedPart(expected, m, g, captured);
    assert r + [] == r;
    assert host.removed == r + own.removed;
    CleanupAborted(st, host, expected, g);
    ghost var rest := AbortRest(expected, host.fails, m, g);
    JoinedThen(r, own, rest);
    JoinedThen(r, Outcome(m, [], changed), Then(own, rest));
  }

  /** What the generation still owns, if its stop is on record by now. */
  method CleanupAborted(st: StateStore, host: Host, expected: Identity -> Option<string>, g: Identity)
    modifies st, host`removed
    ensures Outcome(st.Value(), host.removed, false)
            == Joined(old(host.removed), AbortRest(expected, host.fails, old(st.Value()), g))
  {
    ghost var s, r := st.Value(), host.removed;
    if !st.record.Stopped? {
      assert r + [] == r;
      return;
    }
    var dnsOk := host.Remove(g, Dns(g));
    var cgroupOk := CleanupCgroupIfOwned(st, host, expected, g, true);
    ghost var part := CgroupPart(expected, host.fails, s, g);
    var networkOk := CleanupNetworkIfOwned(st, host, g);
    ghost var network := NetworkPart(host.fails, part.store, g);
    JoinedThen(r + [Removal(g, Dns(g))], part, network);
    JoinedThen(r, DnsPart(s, g), Then(part, network));
  }

  /** A caller that cannot know whether the stop is recorded yet may only clean up once it is. */
  method CleanupNetworkAfterDurableStop(st: StateStore, host: Host, expected: Identity -> Option<string>,
                                        o: NetworkOwnership)
    returns (ok: bool)
    modifies st`network, host`removed
    ensures Outcome(st.Value(), host.removed, false)
            == Joined(old(host.removed), Alone(expected, host.fails, old(st.Value()), GatingNetwork(o)))
  {
    ghost var s0, r0 := st.Value(), host.removed;
    GateAlone(expected, host.fails, s0, o);
    assert r0 + [] == r0;
    if !st.record.Stopped? {
      return true;
    }
    if st.record.exited != Some(o.generation) {
      return false;
    }
    ok := CleanupNetworkOwnership(st, host, o);
  }

  lemma GateAlone(expected: Identity -> Option<string>, fails: Resource -> bool, s: Store, o: NetworkOwnership)
    ensures Alone(expected, fails, s, GatingNetwork(o)) ==
            if !s.record.Stopped? || s.record.exited != Some(o.generation) then Outcome(s, [], false)
                else NetworkGone(fails, s, o)
  {
    if s.record.Stopped? {
      Skips(expected, fails, s, GatingNetwork(o), AuthorizingNetwork(o, s.revision));
      if s.record.exited == Some(o.generation) {
        Skips(expected, fails, s, AuthorizingNetwork(o, s.revision), RemovingNetwork(o));
        NetworkGoneAlone(expected, fails, s, o);
      } else {
        Skips(expected, fails, s, AuthorizingNetwork(o, s.revision), Done);
      }
    } else {
      Skips(expected, fails, s, GatingNetwork(o), Done);
    }
  }

  /** A later retry, for the revision its caller saw: the token must be that stop's own. */
  method CleanupStoppedCgroup(st: StateStore, host: Host, expected: Identity -> Option<string>, revision: nat)
    returns (ok: bool)
    modifies st`cgroup, host`removed
    ensures Outcome(st.Value(), host.removed, false)
            == Joined(old(host.removed), Alone(expected, host.fails, old(st.Value()), RetryChecking(revision)))
  {
    ghost var s0, r0 := st.Value(), host.removed;
    RetryAlone(expected, host.fails, s0, revision);
    assert r0 + [] == r0;
    if !st.record.Stopped? || st.revision != revision {
      return true;
    }
    if st.cgroup.None? {
      return true;
    }
    var o := st.cgroup.value;
    if st.record.exited != Some(o.generation) {
      return false;
    }
    ok := CleanupOwnedGeneration(st, host, expected, o);
  }

  lemma RetryAlone(expected: Identity -> Option<string>, fails: Resource -> bool, s: Store, revision: nat)
    ensures Alone(expected, fails, s, RetryChecking(revision)) ==
            if s.record.Stopped? && s.revision == revision && s.record.exited.Some?
                && OwnsCgroup(expected, s, s.record.exited.value)
            then CgroupGone(fails, s, s.cgroup.value)
            else Outcome(s, [], false)
  {
    if s.record.Stopped? && s.revision == revision {
      Skips(expected, fails, s, RetryChecking(revision), RetryReading(revision));
      if s.cgroup.Some? {
        var o := s.cgroup.value;
        Skips(expected, fails, s, RetryReading(revision), RetryAuthorizing(revision, o));
        if s.record.exited == Some(o.generation) && expected(o.generation) == Some(o.name) {
          Skips(expected, fails, s, RetryAuthorizing(revision, o), RemovingCgroup(o, Nothing));
          CgroupGoneAlone(expected, fails, s, o, Nothing);
          assert CgroupGone(fails, s, o).removed + [] == CgroupGone(fails, s, o).removed;
        } else {
          Skips(expected, fails, s, RetryAuthorizing(revision, o), Done);
        }
      } else {
        Skips(expected, fails, s, RetryReading(revision), Done);
      }
    } else {
      Skips(expected, fails, s, RetryChecking(revision), Done);
    }
  }

  /** A later retry of the DNS registration, for the generation whose stop is that revision. */
  method CleanupStoppedDns(st: StateStore, host: Host, expected: Identity -> Option<string>, revision: nat)
    returns (ok: bool)
    modifies host`removed
    ensures Outcome(st.Value(), host.removed, false)
            == Joined(old(host.removed), Alone(expected, host.fails, st.Value(), RetryReadingDns(revision)))
  {
    ghost var s, r := st.Value(), host.removed;
    assert r + [] == r;
    if !st.record.Stopped? || st.revision != revision || st.record.exited.None? {
      Skips(expected, host.fails, s, RetryReadingDns(revision), Done);
      return true;
    }
    var g := st.record.exited.value;
    Skips(expected, host.fails, s, RetryReadingDns(revision), RetryCleaningDns(g));
    ok := host.Remove(g, Dns(g));
  }
}
