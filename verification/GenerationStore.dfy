/**
 The durable record of one container (`internal/state`): its lifecycle, and the
 tokens that say which host resources its current process generation still
 owns. Every operation is one step under the store's lock.
 */
module GenerationStore {
  import opened ProcessIdentity
  import opened Wrappers

  const UNKNOWN_EXIT := -1

  /** A stopped record keeps the identity of the generation whose stop produced it. */
  datatype Record = Created | Running(generation: Identity) | Stopped(exited: Option<Identity>, exitCode: int)

  datatype CgroupOwnership = CgroupOwnership(name: string, generation: Identity)

  datatype Mapping = Mapping(hostPort: int, containerPort: int, containerIP: string, protocol: string)

  datatype NetworkOwnership = NetworkOwnership(owner: string, generation: Identity, vethHost: string,
                                               mappings: seq<Mapping>)

  datatype Store = Store(record: Record, revision: nat, cgroup: Option<CgroupOwnership>,
                         network: Option<NetworkOwnership>)

  datatype Cleared = Removed | NoMatch | Refused

  /** A stopped container starts again only once nothing of its last generation is pending. */
  function MarkRunning(s: Store, g: Identity): (Store, bool) {
    if !g.Complete() then (s, false)
    else if s.record.Running? && s.record.generation != g then (s, false)
    else if !s.record.Running? && (s.cgroup.Some? || s.network.Some?) then (s, false)
    else (s.(record := Running(g), revision := s.revision + 1), true)
  }

  /**
   Stops the record if it runs this generation. A stop already recorded with an
   unknown exit code takes a known one, once, for the same generation.
   */
  function MarkStopped(s: Store, g: Identity, code: int): (Store, bool) {
    if !g.Complete() then (s, false)
    else
      match s.record
      case Created => (s, false)
      case Stopped(exited, exitCode) =>
        if exitCode != UNKNOWN_EXIT || code == UNKNOWN_EXIT || exited != Some(g) then (s, false)
        else (s.(record := Stopped(exited, code), revision := s.revision + 1), true)
      case Running(generation) =>
        if generation != g then (s, false)
        else (s.(record := Stopped(Some(g), code), revision := s.revision + 1), true)
  }

  /** A start that failed before there was a process. */
  function MarkStoppedIfCreated(s: Store, code: int): (Store, bool) {
    if !s.record.Created? || s.cgroup.Some? || s.network.Some? then (s, false)
    else (s.(record := Stopped(None, code), revision := s.revision + 1), true)
  }

  function MarkCgroupOwned(s: Store, o: CgroupOwnership): (Store, bool) {
    if s.record != Running(o.generation) then (s, false)
    else if s.cgroup.Some? then (s, s.cgroup == Some(o))
    else (s.(cgroup := Some(o)), true)
  }

  function ClearCgroup(s: Store, o: CgroupOwnership): (Store, Cleared) {
    if s.cgroup != Some(o) then (s, NoMatch)
    else if s.record.Running? then (s, Refused)
    else (s.(cgroup := None), Removed)
  }

  function MarkNetworkOwned(s: Store, o: NetworkOwnership): (Store, bool) {
    if s.record != Running(o.generation) then (s, false)
    else if s.network.Some? then (s, s.network == Some(o))
    else (s.(network := Some(o)), true)
  }

  function ClearNetwork(s: Store, o: NetworkOwnership): (Store, Cleared) {
    if s.network != Some(o) then (s, NoMatch)
    else if s.record.Running? && s.record.generation != o.generation then (s, Refused)
    else (s.(network := None), Removed)
  }

  /** The generation whose exit produced this very revision, if the record is still there. */
  function ExitedAt(s: Store, revision: nat): Option<Identity> {
    if s.record.Stopped? && s.revision == revision then s.record.exited else None
  }
}
