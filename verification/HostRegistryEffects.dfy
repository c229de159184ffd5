/**
 What each operation on the registry does to every entry and every reservation,
 said about members of the list: what is published, what goes, what stays.
 */
module HostRegistryEffects {
  import opened HostRegistry
  import opened ProcessIdentity
  import opened Wrappers

  // ---------- Liveness ----------

  ghost predicate Live(env: Env, entries: seq<HostEntry>, e: HostEntry) {
    e in entries && Active(env, e) == Some(true)
  }

  /** A bound entry lives by its container's process, an unbound one by its registrar's, and an older one otherwise. */
  lemma LivesBy(rules: Rules, env: Env, e: HostEntry)
    requires EntryOk(rules, e)
    ensures !e.generationAware ==> Active(env, e) == env.legacy(e)
    ensures e.generationAware && !e.generation.Unset() ==> Active(env, e) == env.probe(e.generation)
    ensures e.generationAware && e.generation.Unset() ==> Active(env, e) == env.probe(e.owner)
  {
  }

  function LiveCount(env: Env, entries: seq<HostEntry>): nat {
    if entries == [] then 0
    else (if Active(env, entries[0]) == Some(true) then 1 else 0) + LiveCount(env, entries[1..])
  }

  lemma {:induction false} LiveCountSnoc(env: Env, init: seq<HostEntry>, last: HostEntry)
    ensures LiveCount(env, init + [last]) == LiveCount(env, init) + if Active(env, last) == Some(true) then 1 else 0
    decreases |init|
  {
    if init == [] {
      assert init + [last] == [last];
    } else {
      assert (init + [last])[1..] == init[1..] + [last];
      LiveCountSnoc(env, init[1..], last);
    }
  }

  lemma {:induction false} PrunedCount(env: Env, entries: seq<HostEntry>)
    requires Pruned(env, entries).Some?
    ensures |Pruned(env, entries).value| == LiveCount(env, entries)
    decreases |entries|
  {
    if entries != [] {
      var init, last := entries[..|entries| - 1], entries[|entries| - 1];
      assert entries == init + [last];
      PrunedCount(env, init);
      LiveCountSnoc(env, init, last);
    }
  }

  predicate SameLetter(a: char, b: char) {
    || a == b
    || ('A' <= a <= 'Z' && b as int == a as int + 32)
    || ('A' <= b <= 'Z' && a as int == b as int + 32)
  }

  /** Host names are compared letter by letter without regard to case. */
  lemma CaseIgnored(s: string, t: string)
    ensures Lower(s) == Lower(t) <==> |s| == |t| && forall i | 0 <= i < |s| :: SameLetter(s[i], t[i])
  {
    assert forall i | 0 <= i < |s| :: Lower(s)[i] == LowerChar(s[i]);
    assert forall i | 0 <= i < |t| :: Lower(t)[i] == LowerChar(t[i]);
    if |s| == |t| {
      forall i | 0 <= i < |s|
        ensures LowerChar(s[i]) == LowerChar(t[i]) <==> SameLetter(s[i], t[i])
      {
      }
      if forall i | 0 <= i < |s| :: SameLetter(s[i], t[i]) {
        assert Lower(s) == Lower(t);
      } else {
        var i :| 0 <= i < |s| && !SameLetter(s[i], t[i]);
        assert Lower(s)[i] != Lower(t)[i];
      }
    }
  }

  // ---------- Registering ----------

  /** The same registration made before: container, host name, address and registrar. */
  predicate SameRegistration(e: HostEntry, owner: Identity, id: string, hostname: string, ip: string) {
    e.containerID == id && Lower(e.hostname) == Lower(hostname) && e.ip == ip && e.owner == owner
  }

  /** A live entry has the container or the host name but is not this very registration. */
  ghost predicate Conflicts(env: Env, entries: seq<HostEntry>, owner: Identity, id: string, hostname: string,
                            ip: string)
  {
    exists e :: Live(env, entries, e) && (e.containerID == id || Lower(e.hostname) == Lower(hostname))
                && !SameRegistration(e, owner, id, hostname, ip)
  }

  ghost predicate RegisteredBefore(env: Env, entries: seq<HostEntry>, owner: Identity, id: string, hostname: string,
                                   ip: string)
  {
    exists e :: Live(env, entries, e) && SameRegistration(e, owner, id, hostname, ip)
  }

  /** What a registration publishes; a repeated one keeps the spelling of its host name. */
  ghost predicate Published(e: HostEntry, owner: Identity, id: string, hostname: string, ip: string, pending: bool) {
    && SameRegistration(e, owner, id, hostname, ip)
    && e.generationAware && e.generation.Unset() && e.admissionPending == pending
  }

  /**
   A registration succeeds exactly if its input is well formed, every entry could
   be probed, no other live registration is in the way, and there is room.
   */
  lemma RegistrationSucceeds(rules: Rules, env: Env, entries: seq<HostEntry>, owner: Identity, id: string,
                             hostname: string, ip: string, pending: bool)
    requires RegistryOk(rules, entries)
    ensures Registered(rules, env, entries, owner, id, hostname, ip, pending).Ok? <==>
            && rules.idOk(id) && rules.hostOk(hostname) && rules.ipOk(ip) && rules.canonicalIP(ip).Some?
            && (forall e | e in entries :: Active(env, e).Some?)
            && var canonical := rules.canonicalIP(ip).value;
            && !Conflicts(env, entries, owner, id, hostname, canonical)
            && (LiveCount(env, entries) < MAX_REGISTRY_ENTRIES
                || RegisteredBefore(env, entries, owner, id, hostname, canonical))
  {
    PrunedThins(env, entries);
    if Pruned(env, entries).Some? && rules.canonicalIP(ip).Some? {
      var kept, canonical := Pruned(env, entries).value, rules.canonicalIP(ip).value;
      PrunedCount(env, entries);
      ThinnedOk(rules, kept, entries);
      KeptConflicts(rules, kept, owner, id, hostname, canonical);
      assert forall e :: e in kept <==> Live(env, entries, e);
      assert Conflicts(env, entries, owner, id, hostname, canonical) <==>
          exists e :: e in kept && Decides(e, id, hostname) && !SameRegistration(e, owner, id, hostname, canonical);
    }
  }

  /** With distinct containers and host names the first match is the only one. */
  lemma KeptConflicts(rules: Rules, kept: seq<HostEntry>, owner: Identity, id: string, hostname: string, ip: string)
    requires RegistryOk(rules, kept)
    ensures var i := FirstMatch(kept, id, hostname);
            && ((exists e :: e in kept && Decides(e, id, hostname) && !SameRegistration(e, owner, id, hostname, ip))
                <==> i < |kept| && !SameRegistration(kept[i], owner, id, hostname, ip))
            && ((exists e :: e in kept && SameRegistration(e, owner, id, hostname, ip))
                <==> i < |kept| && SameRegistration(kept[i], owner, id, hostname, ip))
            && (i < |kept| && SameRegistration(kept[i], owner, id, hostname, ip) ==>
                forall j | 0 <= j < |kept| && j != i :: !Decides(kept[j], id, hostname))
  {
    var i := FirstMatch(kept, id, hostname);
    forall j | 0 <= j < |kept| && Decides(kept[j], id, hostname) && j != i
      ensures i < j && !SameRegistration(kept[i], owner, id, hostname, ip)
      ensures !SameRegistration(kept[j], owner, id, hostname, ip)
    {
      assert i < j;
      assert !Clash(kept[i], kept[j]);
    }
  }

  /** Putting one entry in the place of the only one of its container, or behind the others. */
  lemma PutAt(kept: seq<HostEntry>, i: nat, e: HostEntry)
    requires i <= |kept|
    requires forall j, k | 0 <= j < k < |kept| :: kept[j].containerID != kept[k].containerID
    requires if i < |kept| then kept[i].containerID == e.containerID
             else forall j | 0 <= j < |kept| :: kept[j].containerID != e.containerID
    ensures var r := if i < |kept| then kept[i := e] else kept + [e];
            && e in r
            && (forall x :: x in r <==> x == e || (x in kept && x.containerID != e.containerID))
            && (forall j, k | 0 <= j < k < |r| :: r[j].containerID != r[k].containerID)
  {
    var r := if i < |kept| then kept[i := e] else kept + [e];
    assert r[i] == e;
    assert forall j | 0 <= j < |kept| && j != i :: r[j] == kept[j] && kept[j].containerID != e.containerID;
    forall x | x in kept && x.containerID != e.containerID
      ensures x in r
    {
      var j :| 0 <= j < |kept| && kept[j] == x;
      assert r[j] == x;
    }
  }

  /**
   A successful registration publishes exactly one entry for the container, as
   asked for, and leaves every other live entry as it was; nothing else is there.
   */
  lemma RegistrationPublishes(rules: Rules, env: Env, entries: seq<HostEntry>, owner: Identity, id: string,
                              hostname: string, ip: string, pending: bool)
    returns (e: HostEntry)
    requires RegistryOk(rules, entries)
    requires Registered(rules, env, entries, owner, id, hostname, ip, pending).Ok?
    ensures rules.canonicalIP(ip).Some? && Published(e, owner, id, hostname, rules.canonicalIP(ip).value, pending)
    ensures var r := Registered(rules, env, entries, owner, id, hostname, ip, pending).value;
            && e in r
            && (forall x :: x in r <==> x == e || (Live(env, entries, x) && x.containerID != id))
            && (forall i, j | 0 <= i < j < |r| :: r[i].containerID != r[j].containerID)
    ensures e.hostname == hostname
            || exists x :: Live(env, entries, x) && x.containerID == id && x.hostname == e.hostname
  {
    PrunedThins(env, entries);
    var kept, canonical := Pruned(env, entries).value, rules.canonicalIP(ip).value;
    var r := Registered(rules, env, entries, owner, id, hostname, ip, pending).value;
    ThinnedOk(rules, kept, entries);
    KeptConflicts(rules, kept, owner, id, hostname, canonical);
    var i := FirstMatch(kept, id, hostname);
    e := r[i];
    assert forall j, k | 0 <= j < k < |kept| :: !Clash(kept[j], kept[k]);
    PutAt(kept, i, e);
    assert forall x :: x in kept <==> Live(env, entries, x);
    if i < |kept| {
      assert Live(env, entries, kept[i]) && kept[i].hostname == e.hostname;
    }
  }

  /** A registration that fails, or has no registrar, changes nothing; and one that succeeds is saved. */
  lemma RegisterStep(rules: Rules, s: Registry, owner: Identity, id: string, hostname: string, ip: string,
                     pending: bool, env: Env)
    ensures var r := Registered(rules, env, s.entries, owner, id, hostname, ip, pending);
            var s' := Step(rules, s, Register(owner, id, hostname, ip, pending, env));
            && s'.entries == (if owner.Complete() && r.Ok? then r.value else s.entries)
            && s'.reservations == s.reservations && s'.issued == s.issued
  {
  }

  // ---------- What goes ----------

  /** Unregistering removes the registrar's own entry of the container, bound or not, and no other. */
  lemma UnregisterRemoves(rules: Rules, s: Registry, owner: Identity, id: string, e: HostEntry)
    requires owner.Complete() && rules.idOk(id)
    ensures e in Step(rules, s, Unregister(owner, id)).entries <==>
            e in s.entries && !(e.containerID == id && e.owner == owner)
  {
    WithoutThins(s.entries, (x: HostEntry) => OwnedBy(x, id, owner));
  }

  /**
   Cleaning up after a stopped generation removes its entry, and one that knows
   of no generations; an entry not yet bound is a newer attempt's, and stays.
   */
  lemma CleanUpRemoves(rules: Rules, s: Registry, id: string, generation: Identity, e: HostEntry)
    requires generation.Complete() && rules.idOk(id)
    ensures e in Step(rules, s, CleanUp(id, generation)).entries <==>
            e in s.entries && !(e.containerID == id && (!e.generationAware || e.generation == generation))
  {
    WithoutThins(s.entries, (x: HostEntry) => RetiredBy(x, id, generation));
  }

  /** Pruning removes what is no longer live, all of it or, if a probe fails, nothing. */
  lemma PruneRemoves(rules: Rules, s: Registry, env: Env, e: HostEntry)
    ensures e in Step(rules, s, Prune(env)).entries <==>
            e in s.entries && (Active(env, e) == Some(true) || exists x :: x in s.entries && Active(env, x).None?)
  {
    PrunedThins(env, s.entries);
  }

  /** Peers see the announced entries in the order of the registry. */
  lemma VisibleExactly(entries: seq<HostEntry>)
    ensures Thinned(Visible(entries), entries)
    ensures forall e :: e in Visible(entries) <==> e in entries && !e.admissionPending
  {
    WithoutThins(entries, (e: HostEntry) => e.admissionPending);
  }

  // ---------- Reservations ----------

  /** Staging reserves the address in canonical form under a token never issued before. */
  lemma StageReserves(rules: Rules, s: Registry, owner: Identity, id: string, ip: string)
    requires Inv(rules, s) && rules.idOk(id) && rules.canonicalIP(ip).Some?
    ensures var s' := Step(rules, s, Stage(owner, id, ip));
            && (owner, id) in s'.reservations
            && s'.reservations[(owner, id)].ip == rules.canonicalIP(ip).value
            && (forall r | r in s.issued :: r.token != s'.reservations[(owner, id)].token)
            && s'.issued == s.issued + [s'.reservations[(owner, id)]]
            && s'.entries == s.entries
  {
    forall r | r in s.issued
      ensures r.token != |s.issued|
    {
      var i :| 0 <= i < |s.issued| && s.issued[i] == r;
    }
  }

  /** Staging, other attempts' entries coming and going, and a bind: the address staged is the one published. */
  lemma BindPublishesStaged(rules: Rules, s: Registry, owner: Identity, id: string, generation: Identity,
                            r: Reservation, e: HostEntry)
    requires Inv(rules, s) && r in s.issued && rules.idOk(id) && generation.Complete()
    requires e in s.entries && e.containerID == id && e.owner == owner && e.generationAware && e.generation.Unset()
    ensures var s' := Step(rules, s, Bind(owner, id, generation, Some(r.token)));
            var e' := e.(ip := r.ip, generation := generation, admissionPending := false);
            && e' in s'.entries
            && (forall x :: x in s'.entries <==> x == e' || (x in s.entries && x.containerID != id))
  {
    var k :| 0 <= k < |s.issued| && s.issued[k] == r;
    var i :| 0 <= i < |s.entries| && s.entries[i] == e;
    var s' := Step(rules, s, Bind(owner, id, generation, Some(r.token)));
    assert StagedAddress(s, Some(r.token)) == Some(r.ip);
    assert IndexOfContainer(s.entries, id) == i;
    var e' := e.(ip := r.ip, generation := generation, admissionPending := false);
    assert s'.entries == s.entries[i := e'];
    assert forall j, k | 0 <= j < k < |s.entries| :: !Clash(s.entries[j], s.entries[k]);
    PutAt(s.entries, i, e');
  }

  // ---------- Every list there is ----------

  /** What makes the validator refuse a list. */
  lemma ValidatorRefuses(rules: Rules, entries: seq<HostEntry>, i: nat, j: nat)
    requires i < j < |entries|
    ensures entries[i].containerID == entries[j].containerID ==> !Validated(rules, entries)
    ensures Lower(entries[i].hostname) == Lower(entries[j].hostname) ==> !Validated(rules, entries)
    ensures var e := entries[i];
            (!rules.idOk(e.containerID) || !rules.hostOk(e.hostname) || !rules.ipOk(e.ip)
             || rules.canonicalIP(e.ip) != Some(e.ip)
             || (e.owner.pid == 0) != (e.owner.start == 0) || (e.generation.pid == 0) != (e.generation.start == 0)
             || (e.generationAware && e.owner.pid == 0) || (!e.generationAware && e.generation.pid != 0)
             || (e.admissionPending && !e.generationAware))
            ==> !Validated(rules, entries)
  {
    if Validated(rules, entries) {
      assert EntryOk(rules, entries[i]) && !Clash(entries[i], entries[j]);
    }
  }

  /** Every entry of a run was registered by a complete registrar that knows of generations. */
  ghost predicate AllAware(entries: seq<HostEntry>) {
    forall i | 0 <= i < |entries| :: entries[i].generationAware && entries[i].owner.Complete()
  }

  lemma StepKeepsAware(rules: Rules, s: Registry, op: Op)
    requires Lawful(rules) && Inv(rules, s) && AllAware(s.entries)
    ensures AllAware(Step(rules, s, op).entries)
  {
    match op
    case Register(owner, id, hostname, ip, pending, env) => PrunedThins(env, s.entries);
    case Unregister(owner, id) => WithoutThins(s.entries, (e: HostEntry) => OwnedBy(e, id, owner));
    case Prune(env) => PrunedThins(env, s.entries);
    case CleanUp(id, generation) => WithoutThins(s.entries, (e: HostEntry) => RetiredBy(e, id, generation));
    case _ =>
  }

  lemma {:induction false} RunKeepsAware(rules: Rules, s: Registry, ops: seq<Op>)
    requires Lawful(rules) && Inv(rules, s) && AllAware(s.entries)
    ensures Inv(rules, Run(rules, s, ops)) && AllAware(Run(rules, s, ops).entries)
    decreases |ops|
  {
    if ops != [] {
      StepKeepsInv(rules, s, ops[0]);
      StepKeepsAware(rules, s, ops[0]);
      RunKeepsAware(rules, Step(rules, s, ops[0]), ops[1..]);
    }
  }

  /**
   What is true of the list after every run from the empty registry: at most 4096
   entries, one for a container and one for a host name, with an acceptable name
   and a canonical address; each registered by a process known by PID and start
   time, and announced once it is bound to another.
   */
  lemma EveryRunPublishes(rules: Rules, ops: seq<Op>)
    requires Lawful(rules)
    ensures var entries := Run(rules, START, ops).entries;
            && |entries| <= 4096
            && (forall i, j | 0 <= i < j < |entries| ::
                  && entries[i].containerID != entries[j].containerID
                  && Lower(entries[i].hostname) != Lower(entries[j].hostname))
            && (forall i | 0 <= i < |entries| ::
                  var e := entries[i];
                  && rules.idOk(e.containerID) && rules.hostOk(e.hostname) && rules.ipOk(e.ip)
                  && rules.canonicalIP(e.ip) == Some(e.ip)
                  && e.generationAware && e.owner.pid > 0 && e.owner.start > 0
                  && ((e.generation.pid == 0 && e.generation.start == 0)
                      || (e.generation.pid > 0 && e.generation.start > 0 && !e.admissionPending)))
  {
    StartValid(rules);
    RunKeepsAware(rules, START, ops);
    var entries := Run(rules, START, ops).entries;
    forall i | 0 <= i < |entries|
      ensures EntryOk(rules, entries[i])
    {
    }
    forall i, j | 0 <= i < j < |entries|
      ensures !Clash(entries[i], entries[j])
    {
    }
  }
}
