/** The cgroup name of a container's process generation (`internal/cgroups/identity.go`, `validate.go`). */
module CgroupNames {
  import opened Decimals
  import opened ProcessIdentity
  import opened Wrappers

  const MANAGED_CGROUP_PREFIX := "minicontainer-"
  const MAX_CGROUP_NAME_LEN := 255

  predicate NameChar(c: char) {
    'a' <= c <= 'z' || 'A' <= c <= 'Z' || '0' <= c <= '9' || c == '-' || c == '_' || c == '.'
  }

  predicate ValidCgroupName(name: string) {
    && name != "" && |name| <= MAX_CGROUP_NAME_LEN
    && (forall c | c in name :: NameChar(c))
    && name != "." && name != ".."
  }

  /** The name has the container, the PID and the start time; None when no valid name can be derived. */
  function NameForContainerProcess(containerID: string, g: Identity): Option<string> {
    if containerID == "" || !g.Complete() then None
    else
      var name := MANAGED_CGROUP_PREFIX + containerID + "-" + Decimal(g.pid) + "-" + Decimal(g.start);
      if ValidCgroupName(name) then Some(name) else None
  }

  /** The dash in front of a part without dashes is the last one. */
  lemma DashIsLast(a: string, d: string)
    requires '-' !in d
    ensures (a + "-" + d)[|a|] == '-'
    ensures forall k | |a| < k < |a + "-" + d| :: (a + "-" + d)[k] != '-'
  {
    assert forall k | |a| < k < |a + "-" + d| :: (a + "-" + d)[k] == d[k - |a| - 1];
  }

  /** So it splits a name in one way. */
  lemma LastDash(a: string, d: string, b: string, e: string)
    requires a + "-" + d == b + "-" + e && '-' !in d && '-' !in e
    ensures a == b && d == e
  {
    var s := a + "-" + d;
    DashIsLast(a, d);
    DashIsLast(b, e);
    assert |a| == |b|;
    assert a == s[..|a|] && b == s[..|a|];
    assert d == s[|a| + 1..] && e == s[|a| + 1..];
  }

  /** A name belongs to one generation of one container, even when container IDs have dashes and digits. */
  lemma NameIsExact(c: string, g: Identity, d: string, h: Identity)
    requires NameForContainerProcess(c, g).Some? && NameForContainerProcess(c, g) == NameForContainerProcess(d, h)
    ensures c == d && g == h
  {
    DecimalDigits(g.pid);
    DecimalDigits(g.start);
    DecimalDigits(h.pid);
    DecimalDigits(h.start);
    var p, q := MANAGED_CGROUP_PREFIX + c, MANAGED_CGROUP_PREFIX + d;
    LastDash(p + "-" + Decimal(g.pid), Decimal(g.start), q + "-" + Decimal(h.pid), Decimal(h.start));
    LastDash(p, Decimal(g.pid), q, Decimal(h.pid));
    DecimalInjective(g.pid, h.pid);
    DecimalInjective(g.start, h.start);
    assert c == p[|MANAGED_CGROUP_PREFIX|..] && d == q[|MANAGED_CGROUP_PREFIX|..];
  }

  /** A derived name is the prefix, the container, and the two numbers in decimal, with dashes between. */
  lemma NameParts(c: string, g: Identity) returns (pid: string, start: string)
    requires NameForContainerProcess(c, g).Some?
    ensures NameForContainerProcess(c, g) == Some("minicontainer-" + c + "-" + pid + "-" + start)
    ensures Number(pid) == g.pid && Number(start) == g.start && c != "" && g.pid > 0 && g.start > 0
  {
    pid, start := Decimal(g.pid), Decimal(g.start);
    DecimalValue(g.pid);
    DecimalValue(g.start);
  }

  /** A name can be derived exactly if the parts are there, fit into 255 bytes, and the container's ID is plain. */
  lemma NameDerivable(c: string, g: Identity)
    ensures NameForContainerProcess(c, g).Some? <==>
            && c != "" && g.pid > 0 && g.start > 0 && (forall ch | ch in c :: NameChar(ch))
            && 16 + |c| + |Decimal(g.pid)| + |Decimal(g.start)| <= 255
  {
    if c != "" && g.Complete() {
      var name := MANAGED_CGROUP_PREFIX + c + "-" + Decimal(g.pid) + "-" + Decimal(g.start);
      DecimalDigits(g.pid);
      DecimalDigits(g.start);
      assert |MANAGED_CGROUP_PREFIX| == 14 && |"-"| == 1 && |"."| == 1 && |".."| == 2;
      assert forall ch | ch in MANAGED_CGROUP_PREFIX :: NameChar(ch);
      assert forall ch :: ch in name <==> ch in MANAGED_CGROUP_PREFIX || ch in c || ch == '-'
                                          || ch in Decimal(g.pid) || ch in Decimal(g.start);
    }
  }
}
