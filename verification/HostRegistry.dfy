/**
 The DNS registry of one network (`internal/dns`): container host names, each
 owned by the registrar process that published it until it is bound to the
 container's own process. Registrars, readers and cleaners of many processes take
 turns on it under the network lock.
 */
module HostRegistry {
  import opened ProcessIdentity
  import opened Wrappers

  const UNBOUND := Identity(0, 0)

  datatype HostEntry = HostEntry(
    containerID: string, hostname: string, ip: string, owner: Identity,
    generationAware: bool, generation: Identity, admissionPending: bool)

  /** What counts as an ID, a host name and an address; `canonicalIP` fails on what is no address. */
  datatype Rules = Rules(idOk: string -> bool, hostOk: string -> bool, ipOk: string -> bool,
                         canonicalIP: string -> Option<string>)

  ghost predicate Lawful(rules: Rules) {
    forall ip: string :: rules.canonicalIP(ip).Some? ==>
      && rules.canonicalIP(rules.canonicalIP(ip).value) == rules.canonicalIP(ip)
      && rules.ipOk(rules.canonicalIP(ip).value)
  }

  /** Process probes, and the older proofs for entries that know of no generation; both may fail. */
  datatype Env = Env(probe: Identity -> Option<bool>, legacy: HostEntry -> Option<bool>)

  datatype DnsError =
    | InvalidInput
    | ProbeFailed
    | Conflict
    | Missing
    | NotOwner
    | NotAware
    | OtherGeneration
    | OtherAddress
    | Rejected

  const MAX_REGISTRY_ENTRIES: nat := 4096

  /** Host names are ASCII, where lower-casing and case-insensitive comparison agree. */
  function LowerChar(ch: char): char {
    if 'A' <= ch <= 'Z' then ch - 'A' + 'a' else ch
  }

  function Lower(s: string): string {
    seq(|s|, i requires 0 <= i < |s| => LowerChar(s[i]))
  }

  // ---------- What may be saved ----------

  predicate OwnershipOk(e: HostEntry) {
    && (e.owner.Unset() || e.owner.Complete())
    && (e.generation.Unset() || e.generation.Complete())
    && (e.generationAware ==> !e.owner.Unset())
    && (!e.generation.Unset() ==> e.generationAware)
    && (e.admissionPending ==> e.generationAware)
  }

  predicate EntryOk(rules: Rules, e: HostEntry) {
    && rules.idOk(e.containerID) && rules.hostOk(e.hostname) && rules.ipOk(e.ip)
    && rules.canonicalIP(e.ip) == Some(e.ip)
    && OwnershipOk(e)
  }

  predicate Clash(a: HostEntry, b: HostEntry) {
    a.containerID == b.containerID || Lower(a.hostname) == Lower(b.hostname)
  }

  /** The validator that guards every load and every save. */
  ghost predicate Validated(rules: Rules, entries: seq<HostEntry>) {
    && (forall i | 0 <= i < |entries| :: EntryOk(rules, entries[i]))
    && (forall i, j | 0 <= i < j < |entries| :: !Clash(entries[i], entries[j]))
  }

  // ---------- The operations ----------

  function Active(env: Env, e: HostEntry): Option<bool> {
    if !e.generationAware then env.legacy(e)
    else if (e.generation.pid != 0) != (e.generation.start != 0) then None
    else if e.generation.pid != 0 then env.probe(e.generation)
    else env.probe(e.owner)
  }

  /** The entries still in force, or nothing if a probe failed. */
  function Pruned(env: Env, entries: seq<HostEntry>): Option<seq<HostEntry>> {
    if entries == [] then Some([])
    else
      var init, last := entries[..|entries| - 1], entries[|entries| - 1];
      if Pruned(env, init).None? || Active(env, last).None? then None
      else if Active(env, last).value then Some(Pruned(env, init).value + [last])
      else Pruned(env, init)
  }

  predicate Decides(e: HostEntry, id: string, hostname: string) {
    e.containerID == id || Lower(e.hostname) == Lower(hostname)
  }

  /** The first entry with the container or the host name, if any. */
  function FirstMatch(entries: seq<HostEntry>, id: string, hostname: string): (i: nat)
    ensures i <= |entries|
    ensures forall j | 0 <= j < i :: !Decides(entries[j], id, hostname)
    ensures i < |entries| ==> Decides(entries[i], id, hostname)
  {
    FirstMatchFrom(entries, id, hostname, 0)
  }

  function FirstMatchFrom(entries: seq<HostEntry>, id: string, hostname: string, start: nat): (i: nat)
    requires start <= |entries|
    ensures start <= i <= |entries|
    ensures forall j | start <= j < i :: !Decides(entries[j], id, hostname)
    ensures i < |entries| ==> Decides(entries[i], id, hostname)
    decreases |entries| - start
  {
    if start == |entries| || Decides(entries[start], id, hostname) then start
    else FirstMatchFrom(entries, id, hostname, start + 1)
  }

  function Owns(e: HostEntry, owner: Identity, id: string, hostname: string, ip: string): bool {
    e.containerID == id && Lower(e.hostname) == Lower(hostname) && e.ip == ip && e.owner == owner
  }

  function WithRegistration(rules: Rules, entries: seq<HostEntry>, owner: Identity, id: string, hostname: string,
                            ip: string, pending: bool): Result<seq<HostEntry>, DnsError>
  {
    match rules.canonicalIP(ip)
    case None => Err(InvalidInput)
    case Some(canonical) =>
      var i := FirstMatch(entries, id, hostname);
      if i == |entries| then
        Ok(entries + [HostEntry(id, hostname, canonical, owner, true, UNBOUND, pending)])
      else if Owns(entries[i], owner, id, hostname, canonical) then
        Ok(entries[i := entries[i].(generationAware := true, generation := UNBOUND, admissionPending := pending)])
      else Err(Conflict)
  }

  function Registered(rules: Rules, env: Env, entries: seq<HostEntry>, owner: Identity, id: string, hostname: string,
                      ip: string, pending: bool): Result<seq<HostEntry>, DnsError>
  {
    if !rules.idOk(id) || !rules.hostOk(hostname) || !rules.ipOk(ip) then Err(InvalidInput)
    else
      match Pruned(env, entries)
      case None => Err(ProbeFailed)
      case Some(kept) =>
        var updated := WithRegistration(rules, kept, owner, id, hostname, ip, pending);
        if updated.Ok? && |updated.value| > MAX_REGISTRY_ENTRIES then Err(Rejected) else updated
  }

  function IndexOfContainer(entries: seq<HostEntry>, id: string): (i: nat)
    ensures i <= |entries|
    ensures forall j | 0 <= j < i :: entries[j].containerID != id
    ensures i < |entries| ==> entries[i].containerID == id
  {
    IndexOfContainerFrom(entries, id, 0)
  }

  function IndexOfContainerFrom(entries: seq<HostEntry>, id: string, start: nat): (i: nat)
    requires start <= |entries|
    ensures start <= i <= |entries|
    ensures forall j | start <= j < i :: entries[j].containerID != id
    ensures i < |entries| ==> entries[i].containerID == id
    decreases |entries| - start
  {
    if start == |entries| || entries[start].containerID == id then start
    else IndexOfContainerFrom(entries, id, start + 1)
  }

  /** What binding makes of an entry; a staged address is published with it. */
  function BoundEntry(e: HostEntry, owner: Identity, generation: Identity,
                      staged: Option<string>): Result<HostEntry, DnsError>
  {
    if e.owner != owner then Err(NotOwner)
    else if !e.generationAware then Err(NotAware)
    else if e.generation == generation && !e.admissionPending then
      if staged.None? || e.ip == staged.value then Ok(e) else Err(OtherAddress)
    else if !e.generation.Unset() && e.generation != generation then Err(OtherGeneration)
    else Ok(e.(ip := if staged.Some? then staged.value else e.ip, generation := generation, admissionPending := false))
  }

  function Bound(rules: Rules, entries: seq<HostEntry>, owner: Identity, id: string, generation: Identity,
                 staged: Option<string>): Result<seq<HostEntry>, DnsError>
  {
    if !rules.idOk(id) || !generation.Complete() then Err(InvalidInput)
    else
      var i := IndexOfContainer(entries, id);
      if i == |entries| then Err(Missing)
      else
        match BoundEntry(entries[i], owner, generation, staged)
        case Err(e) => Err(e)
        case Ok(e) => Ok(entries[i := e])
  }

  /** Filters entries by a rule that says which go. */
  function Without(entries: seq<HostEntry>, goes: HostEntry -> bool): seq<HostEntry> {
    if entries == [] then []
    else
      var init, last := entries[..|entries| - 1], entries[|entries| - 1];
      if goes(last) then Without(init, goes) else Without(init, goes) + [last]
  }

  predicate OwnedBy(e: HostEntry, id: string, owner: Identity) {
    e.containerID == id && e.owner == owner
  }

  /** A stopped generation's own entry, or one from before generations were recorded. */
  predicate RetiredBy(e: HostEntry, id: string, generation: Identity) {
    && e.containerID == id
    && (e.generationAware ==> e.generation == generation && !e.generation.Unset())
  }

  function Unregistered(entries: seq<HostEntry>, id: string, owner: Identity): seq<HostEntry> {
    Without(entries, (e: HostEntry) => OwnedBy(e, id, owner))
  }

  function CleanedUp(entries: seq<HostEntry>, id: string, generation: Identity): seq<HostEntry> {
    Without(entries, (e: HostEntry) => RetiredBy(e, id, generation))
  }

  /** What a container's peers see. */
  function Visible(entries: seq<HostEntry>): seq<HostEntry> {
    Without(entries, (e: HostEntry) => e.admissionPending)
  }

  // ---------- Runs ----------

  /** A reserved address; `token` tells attempts for the same container apart. */
  datatype Reservation = Reservation(token: nat, ip: string)

  /** Reservations live in the registrar process that made them. */
  datatype Registry = Registry(entries: seq<HostEntry>, reservations: map<(Identity, string), Reservation>,
                               issued: seq<Reservation>)

  const START := Registry([], map[], [])

  datatype Op =
    | Register(owner: Identity, id: string, hostname: string, ip: string, pending: bool, env: Env)
    | Bind(owner: Identity, id: string, generation: Identity, staged: Option<nat>)
    | Unregister(owner: Identity, id: string)
    | Prune(env: Env)
    | CleanUp(id: string, generation: Identity)
    | Stage(owner: Identity, id: string, ip: string)
    | Release(owner: Identity, id: string, token: nat)

  /** The address an attempt read before taking the registry lock; it may have been replaced since. */
  function StagedAddress(s: Registry, staged: Option<nat>): Option<string> {
    if staged.Some? && staged.value < |s.issued| then Some(s.issued[staged.value].ip) else None
  }

  function OrElse(r: Result<seq<HostEntry>, DnsError>, entries: seq<HostEntry>): seq<HostEntry> {
    if r.Ok? then r.value else entries
  }

  function Step(rules: Rules, s: Registry, op: Op): Registry {
    match op
    case Register(owner, id, hostname, ip, pending, env) =>
      if !owner.Complete() then s
      else s.(entries := OrElse(Registered(rules, env, s.entries, owner, id, hostname, ip, pending), s.entries))
    case Bind(owner, id, generation, staged) =>
      s.(entries := OrElse(Bound(rules, s.entries, owner, id, generation, StagedAddress(s, staged)), s.entries))
    case Unregister(owner, id) =>
      if !owner.Complete() || !rules.idOk(id) then s else s.(entries := Unregistered(s.entries, id, owner))
    case Prune(env) =>
      if Pruned(env, s.entries).Some? then s.(entries := Pruned(env, s.entries).value) else s
    case CleanUp(id, generation) =>
      if !generation.Complete() || !rules.idOk(id) then s else s.(entries := CleanedUp(s.entries, id, generation))
    case Stage(owner, id, ip) =>
      if !rules.idOk(id) || rules.canonicalIP(ip).None? then s
      else
        var r := Reservation(|s.issued|, rules.canonicalIP(ip).value);
        s.(reservations := s.reservations[(owner, id) := r], issued := s.issued + [r])
    case Release(owner, id, token) =>
      if (owner, id) in s.reservations && s.reservations[(owner, id)].token == token
      then s.(reservations := s.reservations - {(owner, id)})
      else s
  }

  function Run(rules: Rules, s: Registry, ops: seq<Op>): Registry
    decreases |ops|
  {
    if ops == [] then s else Run(rules, Step(rules, s, ops[0]), ops[1..])
  }

  // ---------- Filtering keeps the registry valid ----------

  /** One list is another with entries left out. */
  ghost predicate Thinned(kept: seq<HostEntry>, entries: seq<HostEntry>) {
    |kept| <= |entries| && exists at: seq<nat> :: ThinnedAt(kept, entries, at)
  }

  ghost predicate ThinnedAt(kept: seq<HostEntry>, entries: seq<HostEntry>, at: seq<nat>) {
    && |at| == |kept|
    && (forall i | 0 <= i < |at| :: at[i] < |entries| && kept[i] == entries[at[i]])
    && (forall i, j | 0 <= i < j < |at| :: at[i] < at[j])
  }

  /** All the registry promises: what the validator checks, and that what is bound is announced. */
  ghost predicate RegistryOk(rules: Rules, entries: seq<HostEntry>) {
    && Validated(rules, entries)
    && |entries| <= MAX_REGISTRY_ENTRIES
    && (forall i | 0 <= i < |entries| && !entries[i].generation.Unset() :: !entries[i].admissionPending)
  }

  lemma ThinnedOk(rules: Rules, kept: seq<HostEntry>, entries: seq<HostEntry>)
    requires RegistryOk(rules, entries) && Thinned(kept, entries)
    ensures RegistryOk(rules, kept)
  {
    var at: seq<nat> :| ThinnedAt(kept, entries, at);
    forall i, j | 0 <= i < j < |kept|
      ensures !Clash(kept[i], kept[j])
    {
      assert !Clash(entries[at[i]], entries[at[j]]);
    }
  }

  lemma ThinnedPush(kept: seq<HostEntry>, init: seq<HostEntry>, last: HostEntry)
    requires Thinned(kept, init)
    ensures Thinned(kept, init + [last]) && Thinned(kept + [last], init + [last])
  {
    var at: seq<nat> :| ThinnedAt(kept, init, at);
    assert ThinnedAt(kept, init + [last], at);
    assert ThinnedAt(kept + [last], init + [last], at + [|init|]);
  }

  lemma {:induction false} WithoutThins(entries: seq<HostEntry>, goes: HostEntry -> bool)
    ensures Thinned(Without(entries, goes), entries)
    ensures forall e :: e in Without(entries, goes) <==> e in entries && !goes(e)
  {
    if entries == [] {
      assert ThinnedAt([], [], []);
    } else {
      var init, last := entries[..|entries| - 1], entries[|entries| - 1];
      WithoutThins(init, goes);
      ThinnedPush(Without(init, goes), init, last);
      assert entries == init + [last];
    }
  }

  lemma {:induction false} PrunedThins(env: Env, entries: seq<HostEntry>)
    ensures Pruned(env, entries).None? <==> exists e :: e in entries && Active(env, e).None?
    ensures Pruned(env, entries).Some? ==>
              && Thinned(Pruned(env, entries).value, entries)
              && (forall e :: e in Pruned(env, entries).value <==> e in entries && Active(env, e) == Some(true))
  {
    if entries == [] {
      assert ThinnedAt([], [], []);
    } else {
      var init, last := entries[..|entries| - 1], entries[|entries| - 1];
      PrunedThins(env, init);
      assert entries == init + [last];
      if Pruned(env, init).Some? {
        ThinnedPush(Pruned(env, init).value, init, last);
      }
    }
  }

  // ---------- Every step keeps the registry valid ----------

  /** Published addresses come from reservations in canonical form. */
  ghost predicate Inv(rules: Rules, s: Registry) {
    && RegistryOk(rules, s.entries)
    && (forall r | r in s.issued :: rules.ipOk(r.ip) && rules.canonicalIP(r.ip) == Some(r.ip))
    && (forall k | k in s.reservations :: s.reservations[k] in s.issued)
    && (forall i | 0 <= i < |s.issued| :: s.issued[i].token == i)
  }

  /** Changing one entry without touching what tells entries apart. */
  lemma ReplacedOk(rules: Rules, entries: seq<HostEntry>, i: nat, e: HostEntry)
    requires RegistryOk(rules, entries) && i < |entries| && EntryOk(rules, e)
    requires e.containerID == entries[i].containerID && e.hostname == entries[i].hostname
    requires e.generation.Unset() || !e.admissionPending
    ensures RegistryOk(rules, entries[i := e])
  {
    var updated := entries[i := e];
    forall j, k | 0 <= j < k < |updated|
      ensures !Clash(updated[j], updated[k])
    {
      assert !Clash(entries[j], entries[k]);
    }
  }

  lemma RegistrationOk(rules: Rules, entries: seq<HostEntry>, owner: Identity, id: string, hostname: string,
                       ip: string, pending: bool)
    requires Lawful(rules) && RegistryOk(rules, entries)
    requires owner.Complete() && rules.idOk(id) && rules.hostOk(hostname)
    ensures var r := WithRegistration(rules, entries, owner, id, hostname, ip, pending);
            r.Ok? ==> Validated(rules, r.value) && (|r.value| <= MAX_REGISTRY_ENTRIES ==> RegistryOk(rules, r.value))
  {
    if rules.canonicalIP(ip).Some? {
      var i := FirstMatch(entries, id, hostname);
      if i < |entries| && Owns(entries[i], owner, id, hostname, rules.canonicalIP(ip).value) {
        assert EntryOk(rules, entries[i]);
        ReplacedOk(rules, entries, i,
                   entries[i].(generationAware := true, generation := UNBOUND, admissionPending := pending));
      } else if i == |entries| {
        var e := HostEntry(id, hostname, rules.canonicalIP(ip).value, owner, true, UNBOUND, pending);
        assert EntryOk(rules, e);
        PushedOk(rules, entries, e);
      }
    }
  }

  lemma PushedOk(rules: Rules, entries: seq<HostEntry>, e: HostEntry)
    requires RegistryOk(rules, entries) && EntryOk(rules, e) && e.generation.Unset()
    requires forall j | 0 <= j < |entries| :: !Decides(entries[j], e.containerID, e.hostname)
    ensures Validated(rules, entries + [e])
    ensures |entries| < MAX_REGISTRY_ENTRIES ==> RegistryOk(rules, entries + [e])
  {
  }

  lemma PrunedOk(rules: Rules, env: Env, entries: seq<HostEntry>)
    requires RegistryOk(rules, entries) && Pruned(env, entries).Some?
    ensures RegistryOk(rules, Pruned(env, entries).value)
  {
    PrunedThins(env, entries);
    ThinnedOk(rules, Pruned(env, entries).value, entries);
  }

  /** The save after any successful operation passes the validator, and the rest of the invariant holds. */
  lemma RegisteredOk(rules: Rules, env: Env, entries: seq<HostEntry>, owner: Identity, id: string, hostname: string,
                     ip: string, pending: bool)
    requires Lawful(rules) && RegistryOk(rules, entries) && owner.Complete()
    ensures var r := Registered(rules, env, entries, owner, id, hostname, ip, pending);
            r.Ok? ==> RegistryOk(rules, r.value)
  {
    PrunedThins(env, entries);
    if rules.idOk(id) && rules.hostOk(hostname) && Pruned(env, entries).Some? {
      var kept := Pruned(env, entries).value;
      ThinnedOk(rules, kept, entries);
      RegistrationOk(rules, kept, owner, id, hostname, ip, pending);
    }
  }

  lemma BoundOk(rules: Rules, entries: seq<HostEntry>, owner: Identity, id: string, generation: Identity,
                staged: Option<string>)
    requires RegistryOk(rules, entries)
    requires staged.Some? ==> rules.ipOk(staged.value) && rules.canonicalIP(staged.value) == Some(staged.value)
    ensures var r := Bound(rules, entries, owner, id, generation, staged);
            r.Ok? ==> RegistryOk(rules, r.value)
  {
    var r := Bound(rules, entries, owner, id, generation, staged);
    if r.Ok? {
      var i := IndexOfContainer(entries, id);
      var e := BoundEntry(entries[i], owner, generation, staged).value;
      assert EntryOk(rules, entries[i]);
      ReplacedOk(rules, entries, i, e);
    }
  }

  lemma StepKeepsInv(rules: Rules, s: Registry, op: Op)
    requires Lawful(rules) && Inv(rules, s)
    ensures Inv(rules, Step(rules, s, op))
  {
    match op
    case Register(owner, id, hostname, ip, pending, env) =>
      if owner.Complete() {
        RegisteredOk(rules, env, s.entries, owner, id, hostname, ip, pending);
      }
    case Bind(owner, id, generation, staged) =>
      BoundOk(rules, s.entries, owner, id, generation, StagedAddress(s, staged));
    case Unregister(owner, id) =>
      WithoutThins(s.entries, (e: HostEntry) => OwnedBy(e, id, owner));
      ThinnedOk(rules, Unregistered(s.entries, id, owner), s.entries);
    case Prune(env) =>
      PrunedThins(env, s.entries);
      if Pruned(env, s.entries).Some? {
        ThinnedOk(rules, Pruned(env, s.entries).value, s.entries);
      }
    case CleanUp(id, generation) =>
      WithoutThins(s.entries, (e: HostEntry) => RetiredBy(e, id, generation));
      ThinnedOk(rules, CleanedUp(s.entries, id, generation), s.entries);
    case Stage(owner, id, ip) => StageKeepsInv(rules, s, owner, id, ip);
    case Release(owner, id, token) =>
  }

  lemma StageKeepsInv(rules: Rules, s: Registry, owner: Identity, id: string, ip: string)
    requires Lawful(rules) && Inv(rules, s)
    ensures Inv(rules, Step(rules, s, Stage(owner, id, ip)))
  {
    var s' := Step(rules, s, Stage(owner, id, ip));
    if s' != s {
      var r := s'.issued[|s.issued|];
      assert s'.issued == s.issued + [r];
      assert rules.canonicalIP(ip).Some?;
    }
  }

  lemma {:induction false} RunKeepsInv(rules: Rules, s: Registry, ops: seq<Op>)
    requires Lawful(rules) && Inv(rules, s)
    ensures Inv(rules, Run(rules, s, ops))
    decreases |ops|
  {
    if ops != [] {
      StepKeepsInv(rules, s, ops[0]);
      RunKeepsInv(rules, Step(rules, s, ops[0]), ops[1..]);
    }
  }

  lemma StartValid(rules: Rules)
    ensures Inv(rules, START)
  {
  }

  /**
   In every run from the empty registry, each saved list passes the validator:
   containers and host names are unique, identities complete; and what is bound
   to a generation is no longer pending, which the validator does not check.
   */
  lemma EveryRunValid(rules: Rules, ops: seq<Op>)
    requires Lawful(rules)
    ensures RegistryOk(rules, Run(rules, START, ops).entries)
  {
    StartValid(rules);
    RunKeepsInv(rules, START, ops);
  }

  // ---------- Who may remove an entry ----------

  /** The operations that retire an entry bound to a generation. */
  ghost predicate Retires(rules: Rules, s: Registry, op: Op, e: HostEntry) {
    match op
    case Unregister(owner, id) => owner == e.owner && id == e.containerID
    case CleanUp(id, generation) => id == e.containerID && generation == e.generation
    case Register(owner, id, hostname, ip, pending, env) =>
      && owner == e.owner && id == e.containerID && Lower(hostname) == Lower(e.hostname)
      && rules.canonicalIP(ip) == Some(e.ip)
      && rules.hostOk(hostname) && rules.ipOk(ip) && Pruned(env, s.entries).Some?
    case _ => false
  }

  /** No probe of the operation finds the entry's process dead. */
  ghost predicate NotProvenDead(op: Op, e: HostEntry) {
    match op
    case Register(_, _, _, _, _, env) => env.probe(e.generation) != Some(false)
    case Prune(env) => env.probe(e.generation) != Some(false)
    case _ => true
  }

  /**
   An entry bound to a process not proven dead goes away exactly when its own
   registrar unregisters or registers it again, or when that very generation is
   cleaned up: no prune, no other registrar and no other generation's cleanup touches it.
   */
  lemma BoundEntryKept(rules: Rules, s: Registry, op: Op, e: HostEntry)
    requires Lawful(rules) && Inv(rules, s)
    requires e in s.entries && !e.generation.Unset() && NotProvenDead(op, e)
    ensures e in Step(rules, s, op).entries <==> !Retires(rules, s, op, e)
  {
    var i :| 0 <= i < |s.entries| && s.entries[i] == e;
    assert EntryOk(rules, e) && !e.admissionPending;
    match op
    case Register(owner, id, hostname, ip, pending, env) =>
      RegisterEffect(rules, s, owner, id, hostname, ip, pending, env, e);
    case Bind(owner, id, generation, staged) =>
      BindEffect(rules, s.entries, owner, id, generation, StagedAddress(s, staged), i);
    case Unregister(owner, id) =>
      WithoutThins(s.entries, (x: HostEntry) => OwnedBy(x, id, owner));
    case Prune(env) =>
      PrunedThins(env, s.entries);
      assert Active(env, e) == env.probe(e.generation);
      if Pruned(env, s.entries).Some? {
        assert Active(env, e).Some? && Active(env, e).value;
        assert Active(env, e) == Some(true);
      }
    case CleanUp(id, generation) =>
      WithoutThins(s.entries, (x: HostEntry) => RetiredBy(x, id, generation));
    case _ =>
  }

  lemma BindEffect(rules: Rules, entries: seq<HostEntry>, owner: Identity, id: string, generation: Identity,
                   staged: Option<string>, i: nat)
    requires i < |entries| && !entries[i].generation.Unset() && !entries[i].admissionPending
    ensures entries[i] in OrElse(Bound(rules, entries, owner, id, generation, staged), entries)
  {
    var r := Bound(rules, entries, owner, id, generation, staged);
    if r.Ok? {
      assert r.value[i] == entries[i];
    }
  }

  lemma RegisterEffect(rules: Rules, s: Registry, owner: Identity, id: string, hostname: string, ip: string,
                       pending: bool, env: Env, e: HostEntry)
    requires Lawful(rules) && Inv(rules, s)
    requires e in s.entries && !e.generation.Unset() && env.probe(e.generation) != Some(false)
    requires EntryOk(rules, e)
    ensures var op := Register(owner, id, hostname, ip, pending, env);
            e in Step(rules, s, op).entries <==> !Retires(rules, s, op, e)
  {
    PrunedThins(env, s.entries);
    if Pruned(env, s.entries).Some? {
      var kept := Pruned(env, s.entries).value;
      ThinnedOk(rules, kept, s.entries);
      assert Active(env, e) == env.probe(e.generation);
      assert Active(env, e).Some? && Active(env, e).value;
      assert Active(env, e) == Some(true);
      var i :| 0 <= i < |kept| && kept[i] == e;
      RegistrationEffect(rules, kept, owner, id, hostname, ip, pending, i);
    }
  }

  lemma RegistrationEffect(rules: Rules, kept: seq<HostEntry>, owner: Identity, id: string, hostname: string,
                           ip: string,
                           pending: bool, i: nat)
    requires RegistryOk(rules, kept) && i < |kept| && !kept[i].generation.Unset()
    ensures var r := WithRegistration(rules, kept, owner, id, hostname, ip, pending);
            var own := rules.canonicalIP(ip).Some? && Owns(kept[i], owner, id, hostname, rules.canonicalIP(ip).value);
            && (own ==> r.Ok? && |r.value| == |kept| && kept[i] !in r.value)
            && (!own && r.Ok? ==> kept[i] in r.value)
  {
    var r := WithRegistration(rules, kept, owner, id, hostname, ip, pending);
    var m := FirstMatch(kept, id, hostname);
    if m < |kept| && m != i {
      assert !Clash(kept[if m < i then m else i], kept[if m < i then i else m]);
      assert r.Ok? ==> r.value[i] == kept[i];
    } else if m == i && r.Ok? {
      forall j | 0 <= j < |r.value|
        ensures r.value[j] != kept[i]
      {
        assert j != i ==> !Clash(kept[if j < i then j else i], kept[if j < i then i else j]);
      }
    } else if r.Ok? {
      assert r.value[i] == kept[i];
    }
  }

  /** Over a whole run: an entry stays as it is while nobody entitled to it acts and its process lives. */
  lemma {:induction false} EntrySurvives(rules: Rules, s: Registry, ops: seq<Op>, e: HostEntry)
    requires Lawful(rules) && Inv(rules, s)
    requires e in s.entries && !e.generation.Unset()
    requires forall i | 0 <= i < |ops| :: NotProvenDead(ops[i], e) && NotEntitled(ops[i], e)
    ensures e in Run(rules, s, ops).entries
    decreases |ops|
  {
    if ops != [] {
      assert NotProvenDead(ops[0], e) && NotEntitled(ops[0], e);
      StepKeepsInv(rules, s, ops[0]);
      BoundEntryKept(rules, s, ops[0], e);
      EntrySurvives(rules, Step(rules, s, ops[0]), ops[1..], e);
    }
  }

  /** Operations of another registrar, for another container, or about another generation. */
  ghost predicate NotEntitled(op: Op, e: HostEntry) {
    match op
    case Register(owner, id, _, _, _, _) => owner != e.owner || id != e.containerID
    case Unregister(owner, id) => owner != e.owner || id != e.containerID
    case CleanUp(id, generation) => generation != e.generation || id != e.containerID
    case _ => true
  }

  // ---------- Binding and visibility ----------

  /** A successful bind publishes exactly one entry, at the staged address, and changes no other. */
  lemma BindPublishes(rules: Rules, entries: seq<HostEntry>, owner: Identity, id: string, generation: Identity,
                      staged: Option<string>, i: nat)
    requires RegistryOk(rules, entries) && i < |entries| && entries[i].containerID == id
    ensures var r := Bound(rules, entries, owner, id, generation, staged);
            && (r.Ok? <==>
                && rules.idOk(id) && generation.Complete()
                && entries[i].owner == owner && entries[i].generationAware
                && (entries[i].generation.Unset()
                    || (entries[i].generation == generation && (staged.None? || staged.value == entries[i].ip))))
            && (r.Ok? ==>
                && |r.value| == |entries| && r.value[i].generation == generation && !r.value[i].admissionPending
                && r.value[i].ip == (if staged.Some? then staged.value else entries[i].ip)
                && r.value[i].hostname == entries[i].hostname && r.value[i].owner == owner
                && forall j | 0 <= j < |entries| && j != i :: r.value[j] == entries[j])
  {
    assert IndexOfContainer(entries, id) == i;
    assert EntryOk(rules, entries[i]);
  }

  /** Every registration of the run is an admission, to be announced by its bind. */
  ghost predicate AdmissionsOnly(ops: seq<Op>) {
    forall i | 0 <= i < |ops| && ops[i].Register? :: ops[i].pending
  }

  ghost predicate UnboundPending(entries: seq<HostEntry>) {
    forall e | e in entries && e.generation.Unset() :: e.admissionPending
  }

  lemma StepKeepsPending(rules: Rules, s: Registry, op: Op)
    requires UnboundPending(s.entries) && (op.Register? ==> op.pending)
    ensures UnboundPending(Step(rules, s, op).entries)
  {
    match op
    case Register(owner, id, hostname, ip, pending, env) => PrunedThins(env, s.entries);
    case Bind(owner, id, generation, staged) =>
    case Unregister(owner, id) => WithoutThins(s.entries, (e: HostEntry) => OwnedBy(e, id, owner));
    case Prune(env) => PrunedThins(env, s.entries);
    case CleanUp(id, generation) => WithoutThins(s.entries, (e: HostEntry) => RetiredBy(e, id, generation));
    case _ =>
  }

  /** With admissions only, peers see an entry exactly when it is bound to a container process. */
  lemma {:induction false} VisibleMeansBound(rules: Rules, s: Registry, ops: seq<Op>)
    requires Lawful(rules) && Inv(rules, s)
    requires UnboundPending(s.entries) && AdmissionsOnly(ops)
    ensures var entries := Run(rules, s, ops).entries;
            forall e :: e in Visible(entries) <==> e in entries && !e.generation.Unset()
    decreases |ops|
  {
    if ops == [] {
      WithoutThins(s.entries, (e: HostEntry) => e.admissionPending);
    } else {
      StepKeepsInv(rules, s, ops[0]);
      StepKeepsPending(rules, s, ops[0]);
      assert forall i | 0 <= i < |ops[1..]| :: ops[1..][i] == ops[i + 1];
      VisibleMeansBound(rules, Step(rules, s, ops[0]), ops[1..]);
    }
  }

  // ---------- Reservations ----------

  /** A reservation goes away exactly by its own release or a newer reservation for the same container. */
  lemma ReservationKept(rules: Rules, s: Registry, op: Op, key: (Identity, string))
    requires Inv(rules, s) && key in s.reservations
    ensures var s' := Step(rules, s, op);
            (key in s'.reservations && s'.reservations[key] == s.reservations[key])
            <==> match op
                 case Stage(owner, id, ip) => (owner, id) != key || !rules.idOk(id) || rules.canonicalIP(ip).None?
                 case Release(owner, id, token) => (owner, id) != key || token != s.reservations[key].token
                 case _ => true
    ensures key in Step(rules, s, op).reservations ==>
              s.reservations[key].token <= Step(rules, s, op).reservations[key].token
  {
    var i :| 0 <= i < |s.issued| && s.issued[i] == s.reservations[key];
  }
}
