/**
 One run of a process. A process ID alone is used again by the kernel; together
 with the start time it names a generation once and for all.
 */
module ProcessIdentity {

  /** A process and its start time, or nothing at all. */
  datatype Identity = Identity(pid: int, start: nat) {
    predicate Unset() { pid == 0 && start == 0 }

    predicate Complete() { pid > 0 && start != 0 }
  }
}
