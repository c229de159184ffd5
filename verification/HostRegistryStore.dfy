/**
 The operations on the registry as the program runs them: loops that copy,
 search and filter the list, and a validator in front of every save.
 */
module HostRegistryStore {
  import opened Wrappers
  import opened HostRegistry
  import opened ProcessIdentity

  method ValidateEntries(rules: Rules, entries: seq<HostEntry>) returns (ok: bool)
    ensures ok <==> Validated(rules, entries)
  {
    var seenContainers: set<string>, seenHostnames: set<string> := {}, {};
    for i := 0 to |entries|
      invariant Validated(rules, entries[..i])
      invariant forall id :: id in seenContainers <==> exists j :: 0 <= j < i && entries[j].containerID == id
      invariant forall h :: h in seenHostnames <==> exists j :: 0 <= j < i && Lower(entries[j].hostname) == h
    {
      var e := entries[i];
      if !EntryOk(rules, e) {
        return false;
      }
      var hostnameKey := Lower(e.hostname);
      if e.containerID in seenContainers {
        return false;
      }
      if hostnameKey in seenHostnames {
        return false;
      }
      assert forall j | 0 <= j < i :: entries[..i][j] == entries[j];
      seenContainers, seenHostnames := seenContainers + {e.containerID}, seenHostnames + {hostnameKey};
    }
    assert entries[..|entries|] == entries;
    return true;
  }

  method PruneStaleOwnedEntries(env: Env, entries: seq<HostEntry>) returns (r: Option<seq<HostEntry>>, changed: bool)
    ensures r == Pruned(env, entries)
    ensures r.Some? && !changed ==> r.value == entries
  {
    var kept: seq<HostEntry> := [];
    changed := false;
    for i := 0 to |entries|
      invariant Pruned(env, entries[..i]) == Some(kept)
      invariant !changed ==> kept == entries[..i]
    {
      assert entries[..i + 1][..i] == entries[..i];
      var active := Active(env, entries[i]);
      if active.None? {
        PrunedFails(env, entries, i + 1);
        return None, false;
      }
      if active.value {
        kept := kept + [entries[i]];
      } else {
        changed := true;
      }
    }
    assert entries[..|entries|] == entries;
    return Some(kept), changed;
  }

  lemma PrunedFails(env: Env, entries: seq<HostEntry>, n: nat)
    requires n <= |entries| && Pruned(env, entries[..n]).None?
    ensures Pruned(env, entries).None?
    decreases |entries|
  {
    if n < |entries| {
      assert entries[..|entries| - 1][..n] == entries[..n];
      PrunedFails(env, entries[..|entries| - 1], n);
    } else {
      assert entries[..n] == entries;
    }
  }

  method EntriesWithRegistration(rules: Rules, entries: seq<HostEntry>, owner: Identity, id: string, hostname: string,
                                 ip: string, pending: bool) returns (r: Result<seq<HostEntry>, DnsError>, changed: bool)
    ensures r == WithRegistration(rules, entries, owner, id, hostname, ip, pending)
    ensures r.Ok? && !changed ==> r.value == entries
  {
    var canonical := rules.canonicalIP(ip);
    if canonical.None? {
      return Err(InvalidInput), false;
    }
    for i := 0 to |entries|
      invariant forall j | 0 <= j < i :: !Decides(entries[j], id, hostname)
    {
      var e := entries[i];
      var hostnameMatches := Lower(e.hostname) == Lower(hostname);
      if e.containerID != id && !hostnameMatches {
        continue;
      }
      if e.containerID == id && hostnameMatches && e.ip == canonical.value && e.owner == owner {
        if e.generationAware && e.generation.Unset() && e.admissionPending == pending {
          assert entries[i := e] == entries;
          assert e == e.(generationAware := true, generation := UNBOUND, admissionPending := pending);
          return Ok(entries), false;
        }
        return Ok(entries[i := e.(generationAware := true, generation := UNBOUND, admissionPending := pending)]), true;
      }
      return Err(Conflict), false;
    }
    return Ok(entries + [HostEntry(id, hostname, canonical.value, owner, true, UNBOUND, pending)]), true;
  }

  /** The entry of exactly one stopped generation goes; one not bound yet belongs to a newer attempt. */
  method DropStopped(entries: seq<HostEntry>, id: string, generation: Identity)
    returns (updated: seq<HostEntry>, removed: bool)
    requires generation.Complete()
    ensures updated == CleanedUp(entries, id, generation)
    ensures !removed ==> updated == entries
  {
    ghost var goes := (e: HostEntry) => RetiredBy(e, id, generation);
    updated, removed := [], false;
    for i := 0 to |entries|
      invariant updated == Without(entries[..i], goes)
      invariant !removed ==> updated == entries[..i]
    {
      assert entries[..i + 1][..i] == entries[..i];
      var e := entries[i];
      if e.containerID != id {
        updated := updated + [e];
      } else if e.generationAware && (e.generation.Unset() || e.generation != generation) {
        updated := updated + [e];
      } else {
        removed := true;
      }
    }
    assert entries[..|entries|] == entries;
  }

  method DropOwned(entries: seq<HostEntry>, id: string, owner: Identity)
    returns (updated: seq<HostEntry>, removed: bool)
    ensures updated == Unregistered(entries, id, owner)
    ensures !removed ==> updated == entries
  {
    ghost var goes := (e: HostEntry) => OwnedBy(e, id, owner);
    updated, removed := [], false;
    for i := 0 to |entries|
      invariant updated == Without(entries[..i], goes)
      invariant !removed ==> updated == entries[..i]
    {
      assert entries[..i + 1][..i] == entries[..i];
      var e := entries[i];
      if e.containerID != id {
        updated := updated + [e];
      } else if e.owner != owner {
        updated := updated + [e];
      } else {
        removed := true;
      }
    }
    assert entries[..|entries|] == entries;
  }

  method AnnouncedEntries(entries: seq<HostEntry>) returns (lines: seq<HostEntry>)
    ensures lines == Visible(entries)
  {
    ghost var goes := (e: HostEntry) => e.admissionPending;
    lines := [];
    for i := 0 to |entries|
      invariant lines == Without(entries[..i], goes)
    {
      assert entries[..i + 1][..i] == entries[..i];
      if entries[i].admissionPending {
        continue;
      }
      lines := lines + [entries[i]];
    }
    assert entries[..|entries|] == entries;
  }

  class Store {
    var entries: seq<HostEntry>
    var reservations: map<(Identity, string), Reservation>
    var issued: seq<Reservation>

    ghost function Value(): Registry
      reads this
    {
      Registry(entries, reservations, issued)
    }

    constructor ()
      ensures Value() == START
    {
      entries, reservations, issued := [], map[], [];
    }

    /** Publishes a list that passes the validator. */
    method Save(rules: Rules, updated: seq<HostEntry>) returns (ok: bool)
      modifies this`entries
      ensures ok <==> Validated(rules, updated) && |updated| <= MAX_REGISTRY_ENTRIES
      ensures entries == if ok then updated else old(entries)
    {
      ok := ValidateEntries(rules, updated);
      ok := ok && |updated| <= MAX_REGISTRY_ENTRIES;
      if ok {
        entries := updated;
      }
    }

    method RegisterHost(rules: Rules, env: Env, owner: Identity, id: string, hostname: string, ip: string,
                        pending: bool)
      returns (r: Result<(), DnsError>)
      requires Lawful(rules) && Inv(rules, Value()) && owner.Complete()
      modifies this`entries
      ensures Value() == Step(rules, old(Value()), Register(owner, id, hostname, ip, pending, env))
      ensures var outcome := Registered(rules, env, old(entries), owner, id, hostname, ip, pending);
              r == if outcome.Ok? then Ok(()) else Err(outcome.error)
    {
      if !rules.idOk(id) || !rules.hostOk(hostname) || !rules.ipOk(ip) {
        return Err(InvalidInput);
      }
      var kept, pruned := PruneStaleOwnedEntries(env, entries);
      if kept.None? {
        return Err(ProbeFailed);
      }
      PrunedOk(rules, env, entries);
      RegistrationOk(rules, kept.value, owner, id, hostname, ip, pending);
      var updated, changed := EntriesWithRegistration(rules, kept.value, owner, id, hostname, ip, pending);
      if updated.Err? {
        return Err(updated.error);
      }
      if !changed && !pruned {
        return Ok(());
      }
      var ok := Save(rules, updated.value);
      return if ok then Ok(()) else Err(Rejected);
    }

    /** `staged` is the reservation read before the registry lock was taken. */
    method BindGeneration(rules: Rules, owner: Identity, id: string, generation: Identity, staged: Option<nat>)
      returns (r: Result<(), DnsError>)
      requires Inv(rules, Value())
      modifies this`entries
      ensures Value() == Step(rules, old(Value()), Bind(owner, id, generation, staged))
      ensures var outcome := Bound(rules, old(entries), owner, id, generation, StagedAddress(old(Value()), staged));
              r == if outcome.Ok? then Ok(()) else Err(outcome.error)
    {
      if !rules.idOk(id) || !generation.Complete() {
        return Err(InvalidInput);
      }
      var address := if staged.Some? && staged.value < |issued| then Some(issued[staged.value].ip) else None;
      BoundOk(rules, entries, owner, id, generation, address);
      for i := 0 to |entries|
        invariant entries == old(entries)
        invariant forall j | 0 <= j < i :: entries[j].containerID != id
      {
        var e := entries[i];
        if e.containerID != id {
          continue;
        }
        assert IndexOfContainer(entries, id) == i;
        var updated := BoundEntry(e, owner, generation, address);
        if updated.Err? {
          return Err(updated.error);
        }
        var ok := Save(rules, entries[i := updated.value]);
        return Ok(());
      }
      return Err(Missing);
    }

    method UnregisterHostIfOwnedBy(rules: Rules, id: string, owner: Identity) returns (r: Result<(), DnsError>)
      requires Inv(rules, Value())
      modifies this`entries
      ensures Value() == Step(rules, old(Value()), Unregister(owner, id))
      ensures r.Ok? <==> rules.idOk(id) && owner.Complete()
    {
      if !rules.idOk(id) || !owner.Complete() {
        return Err(InvalidInput);
      }
      var updated, removed := DropOwned(entries, id, owner);
      WithoutThins(entries, (e: HostEntry) => OwnedBy(e, id, owner));
      ThinnedOk(rules, updated, entries);
      if !removed {
        return Ok(());
      }
      var ok := Save(rules, updated);
      return Ok(());
    }

    method CleanupStopped(rules: Rules, id: string, generation: Identity) returns (r: Result<(), DnsError>)
      requires Inv(rules, Value())
      modifies this`entries
      ensures Value() == Step(rules, old(Value()), CleanUp(id, generation))
      ensures r.Ok? <==> rules.idOk(id) && generation.Complete()
    {
      if !rules.idOk(id) || !generation.Complete() {
        return Err(InvalidInput);
      }
      var updated, removed := DropStopped(entries, id, generation);
      WithoutThins(entries, (e: HostEntry) => RetiredBy(e, id, generation));
      ThinnedOk(rules, updated, entries);
      if !removed {
        return Ok(());
      }
      var ok := Save(rules, updated);
      return Ok(());
    }

    /** The locked part: stale entries go, and the list is saved only if one did. */
    method PruneAndSave(rules: Rules, env: Env) returns (kept: Option<seq<HostEntry>>)
      requires Inv(rules, Value())
      modifies this`entries
      ensures kept == Pruned(env, old(entries))
      ensures entries == if kept.Some? then kept.value else old(entries)
    {
      var changed;
      kept, changed := PruneStaleOwnedEntries(env, entries);
      if kept.None? {
        return;
      }
      PrunedOk(rules, env, entries);
      if changed {
        var ok := Save(rules, kept.value);
      }
    }

    /** Prunes the registry, then lists what is announced. */
    method GenerateHosts(rules: Rules, env: Env) returns (r: Result<seq<HostEntry>, DnsError>)
      requires Inv(rules, Value())
      modifies this`entries
      ensures Value() == Step(rules, old(Value()), Prune(env))
      ensures r == if Pruned(env, old(entries)).Some? then Ok(Visible(entries)) else Err(ProbeFailed)
    {
      var kept := PruneAndSave(rules, env);
      if kept.None? {
        return Err(ProbeFailed);
      }
      var lines := AnnouncedEntries(kept.value);
      return Ok(lines);
    }

    /** Reserves an address; the token returned is what a rollback has to present. */
    method StageAddress(rules: Rules, owner: Identity, id: string, ip: string) returns (r: Result<nat, DnsError>)
      modifies this`reservations, this`issued
      ensures Value() == Step(rules, old(Value()), Stage(owner, id, ip))
      ensures r == if rules.idOk(id) && rules.canonicalIP(ip).Some? then Ok(|old(issued)|) else Err(InvalidInput)
    {
      var canonical := rules.canonicalIP(ip);
      if !rules.idOk(id) || canonical.None? {
        return Err(InvalidInput);
      }
      var reservation := Reservation(|issued|, canonical.value);
      reservations := reservations[(owner, id) := reservation];
      issued := issued + [reservation];
      return Ok(reservation.token);
    }

    /** Also what a successful bind does with the reservation it used. */
    method ReleaseAddress(rules: Rules, owner: Identity, id: string, token: nat)
      modifies this`reservations
      ensures Value() == Step(rules, old(Value()), Release(owner, id, token))
    {
      if (owner, id) in reservations && reservations[(owner, id)].token == token {
        reservations := reservations - {(owner, id)};
      }
    }
  }
}
