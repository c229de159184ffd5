/**
 Hard links in a process that cannot link by descriptor
 (`linkPinnedHardlinkSource` in `internal/image/hardlink_secure_linux.go`). It
 can link files another way, but a link to a symlink fails. If the system then
 says that there is no such file, the extractor takes the source for missing.
 */
module RootlessLinks {
  import opened Wrappers
  import opened Tree
  import opened DeferredLinks
  import opened LayerStream

  // ---------- One attempt ----------

  predicate IsSymlink(fs: Tree, p: Path) {
    p in fs && fs[p].Leaf? && fs[p].inode.kind.Symlink?
  }

  /** All is well with the attempt but that its source is a symlink. */
  ghost predicate HitsSymlink(fs: Tree, l: Link) {
    TryLink(Native, fs, l).Linked? && IsSymlink(fs, l.source)
  }

  lemma AttemptExactly(k: Linking, fs: Tree, l: Link)
    ensures TryLink(k, fs, l) == TryLink(Native, fs, l) <==> k.Native? || !HitsSymlink(fs, l)
    ensures k.Hidden? && HitsSymlink(fs, l) ==> TryLink(k, fs, l) == SourceMissing(WithParents(fs, l.target))
    ensures k.Forbidden? && HitsSymlink(fs, l) ==> TryLink(k, fs, l).LinkFailed?
  {
  }

  // ---------- The retry loop without such attempts ----------

  /** No waiting link has a symlink for its source. */
  ghost predicate SourcesPlain(fs: Tree, q: seq<Link>) {
    forall l | l in q :: !IsSymlink(fs, l.source)
  }

  /** A link made from a plain source makes no symlink. */
  lemma LinkPlain(fs: Tree, l: Link, x: seq<Link>)
    requires !IsSymlink(fs, l.source) && !TryLink(Native, fs, l).LinkFailed? && SourcesPlain(fs, x)
    ensures SourcesPlain(TryLink(Native, fs, l).fs, x)
  {
  }

  lemma {:induction false} PassPlain(k: Linking, fs: Tree, q: seq<Link>, x: seq<Link>)
    requires SourcesPlain(fs, q) && SourcesPlain(fs, x)
    ensures Pass(k, fs, q) == Pass(Native, fs, q)
    ensures Pass(k, fs, q).Done? ==> SourcesPlain(Pass(k, fs, q).fs, x)
    ensures Pass(k, fs, q).Done? ==> forall l | l in Pass(k, fs, q).kept :: l in q
    decreases |q|
  {
    if q != [] {
      AttemptExactly(k, fs, q[0]);
      if !TryLink(Native, fs, q[0]).LinkFailed? {
        LinkPlain(fs, q[0], q[1..]);
        LinkPlain(fs, q[0], x);
        PassPlain(k, TryLink(Native, fs, q[0]).fs, q[1..], x);
      }
    }
  }

  lemma {:induction false} ResolvePlain(k: Linking, fs: Tree, q: seq<Link>)
    requires SourcesPlain(fs, q)
    ensures Resolve(k, fs, q) == Resolve(Native, fs, q)
    decreases |q|
  {
    PassPlain(k, fs, q, q);
    var r := Pass(k, fs, q);
    if r.Done? && |r.kept| < |q| {
      ResolvePlain(k, r.fs, r.kept);
    }
  }

  // ---------- The retry loop with one ----------

  /** A waiting link has a symlink for its source that no other link is about to replace. */
  ghost predicate WaitsForSymlink(fs: Tree, q: seq<Link>, l: Link) {
    l in q && IsSymlink(fs, l.source) && forall x | x in q :: x.target != l.source
  }

  /** No attempt touches a leaf but its own target. */
  lemma AttemptSpares(k: Linking, fs: Tree, l: Link, p: Path)
    requires !TryLink(k, fs, l).LinkFailed? && IsSymlink(fs, p) && l.target != p
    ensures IsSymlink(TryLink(k, fs, l).fs, p)
  {
  }

  lemma {:induction false} PassSpares(k: Linking, fs: Tree, q: seq<Link>, p: Path)
    requires Pass(k, fs, q).Done? && IsSymlink(fs, p) && forall x | x in q :: x.target != p
    ensures IsSymlink(Pass(k, fs, q).fs, p)
    ensures forall x | x in Pass(k, fs, q).kept :: x in q
    decreases |q|
  {
    if q != [] {
      AttemptSpares(k, fs, q[0], p);
      PassSpares(k, TryLink(k, fs, q[0]).fs, q[1..], p);
    }
  }

  lemma {:induction false} PassKeepsWaiting(k: Linking, fs: Tree, q: seq<Link>, l: Link)
    requires !k.Native? && Pass(k, fs, q).Done? && WaitsForSymlink(fs, q, l)
    ensures l in Pass(k, fs, q).kept
    decreases |q|
  {
    if q[0] != l {
      AttemptSpares(k, fs, q[0], l.source);
      PassKeepsWaiting(k, TryLink(k, fs, q[0]).fs, q[1..], l);
    }
  }

  lemma {:induction false} ResolveKeepsWaiting(k: Linking, fs: Tree, q: seq<Link>, l: Link)
    requires !k.Native? && Resolve(k, fs, q).Done? && WaitsForSymlink(fs, q, l)
    ensures l in Resolve(k, fs, q).kept && IsSymlink(Resolve(k, fs, q).fs, l.source)
    decreases |q|
  {
    PassSpares(k, fs, q, l.source);
    PassKeepsWaiting(k, fs, q, l);
    var r := Pass(k, fs, q);
    if |r.kept| < |q| {
      ResolveKeepsWaiting(k, r.fs, r.kept, l);
    }
  }

  // ---------- One entry ----------

  /**
   What can be seen before an entry: it links to a symlink itself, or it is a
   symlink that a waiting link names as its source.
   */
  ghost predicate EntryHits(fs: Tree, q: seq<Link>, target: Path, body: Body) {
    match body
    case HardLink(Some(source), meta) => HitsSymlink(fs, Link(target, source, meta))
    case Object(inode) => inode.kind.Symlink? && exists l :: l in CancelForEntry(q, target, body) && l.source == target
    case _ => false
  }

  /** What the entry placed is the only leaf a waiting link can have found. */
  lemma PlacedSources(fs: Tree, q: seq<Link>, target: Path, body: Body, l: Link)
    requires IsTree(fs) && QueueInv(fs, q) && Placed(Native, fs, target, body).Some?
    requires l in CancelForEntry(q, target, body)
    ensures IsSymlink(Placed(Native, fs, target, body).value, l.source)
            <==> l.source == target && IsSymlink(Placed(Native, fs, target, body).value, target)
  {
    PlacedKeeps(Native, fs, target, body);
    assert LookupPath(fs, l.source) == NotExist;
  }

  lemma PlainEntry(k: Linking, fs: Tree, q: seq<Link>, target: Path, body: Body)
    requires IsTree(fs) && QueueInv(fs, q) && !EntryHits(fs, q, target, body)
    ensures ApplyEntry(k, fs, q, target, body) == ApplyEntry(Native, fs, q, target, body)
  {
    if body.HardLink? && body.source.Some? {
      AttemptExactly(k, fs, Link(target, body.source.value, body.meta));
    }
    if Placed(Native, fs, target, body).Some? {
      var fs', q' := Placed(Native, fs, target, body).value, CancelForEntry(q, target, body);
      forall l | l in q'
        ensures !IsSymlink(fs', l.source)
      {
        PlacedSources(fs, q, target, body, l);
      }
      ResolvePlain(k, fs', q');
    }
  }

  lemma HitEntry(k: Linking, fs: Tree, q: seq<Link>, target: Path, body: Body)
    requires IsTree(fs) && QueueInv(fs, q) && EntryHits(fs, q, target, body)
    requires !k.Native? && ApplyEntry(k, fs, q, target, body).Done?
    ensures var r := ApplyEntry(k, fs, q, target, body);
            !AllMissing(r.fs, r.kept)
  {
    var r, q' := ApplyEntry(k, fs, q, target, body), CancelForEntry(q, target, body);
    if body.HardLink? {
      var l := Link(target, body.source.value, body.meta);
      assert r == Done(WithParents(fs, target), q' + [l]);
      assert l in r.kept && l.source in r.fs;
    } else {
      var l :| l in q' && l.source == target;
      var fs' := CreateNode(fs, target, body).value;
      UnshadowedCancelled(q, target, true);
      assert WaitsForSymlink(fs', q', l);
      ResolveKeepsWaiting(k, fs', q', l);
      assert l in r.kept && l.source in r.fs;
    }
  }

  /**
   A process that cannot link by descriptor does with an entry what another one
   does, unless the entry hits a symlink; and an entry it handles leaves only
   links waiting whose source is absent exactly if it does not.
   */
  lemma EntryExactly(k: Linking, fs: Tree, q: seq<Link>, target: Path, body: Body)
    requires IsTree(fs) && QueueInv(fs, q)
    ensures k.Native? || !EntryHits(fs, q, target, body) ==>
              ApplyEntry(k, fs, q, target, body) == ApplyEntry(Native, fs, q, target, body)
    ensures var r := ApplyEntry(k, fs, q, target, body);
            r.Done? ==> (QueueInv(r.fs, r.kept) <==> k.Native? || !EntryHits(fs, q, target, body))
  {
    if k.Native? || !EntryHits(fs, q, target, body) {
      if !k.Native? {
        PlainEntry(k, fs, q, target, body);
      }
      if ApplyEntry(k, fs, q, target, body).Done? {
        ApplyEntryKeeps(fs, q, target, body);
      }
    } else if ApplyEntry(k, fs, q, target, body).Done? {
      HitEntry(k, fs, q, target, body);
    }
  }

  // ---------- A layer ----------

  /** No entry of the stream hits a symlink. */
  ghost predicate NoHits(k: Linking, s: State, actions: seq<Action>)
    decreases |actions|
  {
    actions == [] ||
    ((actions[0].Put? ==> !EntryHits(s.fs, s.queue, actions[0].path, actions[0].body))
     && (Step(k, s, actions[0]).Some? ==> NoHits(k, Step(k, s, actions[0]).value, actions[1..])))
  }

  /** Between any two entries all waiting sources are absent, and the queue is in order. */
  ghost predicate AlwaysMissing(k: Linking, s: State, actions: seq<Action>)
    decreases |actions|
  {
    && QueueInv(s.fs, s.queue)
    && (actions != [] && Step(k, s, actions[0]).Some? ==> AlwaysMissing(k, Step(k, s, actions[0]).value, actions[1..]))
  }

  lemma StepExactly(k: Linking, s: State, a: Action)
    requires Inv(s)
    ensures k.Native? || !a.Put? || !EntryHits(s.fs, s.queue, a.path, a.body) ==> Step(k, s, a) == Step(Native, s, a)
    ensures !k.Native? && a.Put? && EntryHits(s.fs, s.queue, a.path, a.body) && Step(k, s, a).Some? ==>
              !QueueInv(Step(k, s, a).value.fs, Step(k, s, a).value.queue)
  {
    if a.Put? {
      EntryExactly(k, s.fs, s.queue, a.path, a.body);
    }
  }

  /**
   Over a whole stream: the queue holds only links whose source is absent at all
   times if and only if the process can link by descriptor or no entry hits a
   symlink, and in that case the stream does what it does natively.
   */
  lemma {:induction false} StreamExactly(k: Linking, s: State, actions: seq<Action>)
    requires Inv(s)
    ensures k.Native? || NoHits(k, s, actions) ==> Stream(k, s, actions) == Stream(Native, s, actions)
    ensures Stream(k, s, actions).Some? ==> (AlwaysMissing(k, s, actions) <==> k.Native? || NoHits(k, s, actions))
    decreases |actions|
  {
    if actions != [] {
      var a := actions[0];
      StepExactly(k, s, a);
      if Step(k, s, a) == Step(Native, s, a) && Step(k, s, a).Some? {
        StepKeepsInv(s, a);
        StreamExactly(k, Step(k, s, a).value, actions[1..]);
      }
    }
  }

  /** Without such entries the whole layer has the result it has natively. */
  lemma LayerAsNative(k: Linking, fs: Tree, actions: seq<Action>)
    requires IsTree(fs) && (k.Native? || NoHits(k, State(fs, [], []), actions))
    ensures ApplyActions(k, fs, actions) == ApplyActions(Native, fs, actions)
  {
    var s0 := State(fs, [], []);
    StreamExactly(k, s0, actions);
    if Stream(Native, s0, actions).Some? {
      var s := Stream(Native, s0, actions).value;
      StreamKeepsInv(s0, actions);
      forall l | l in s.queue
        ensures !IsSymlink(s.fs, l.source)
      {
        assert LookupPath(s.fs, l.source) == NotExist;
      }
      ResolvePlain(k, s.fs, s.queue);
    }
  }

  // ---------- A layer that fails ----------

  /** A symlink and a hard link to it: fine natively, but otherwise the link waits for what is there. */
  lemma SymlinkLinkFails(inode: Inode)
    requires inode.kind.Symlink?
    ensures var s: Path, l: Path := ["s"], ["d", "l"];
            var actions := [Put(s, Object(inode)), Put(l, HardLink(Some(s), inode.meta))];
            && ApplyActions(Native, map[], actions)
                == Some(State(map[s := Leaf(inode), ["d"] := Dir, l := Leaf(inode)], [], []))
            && Stream(Hidden, State(map[], [], []), actions)
               == Some(State(map[s := Leaf(inode), ["d"] := Dir], [Link(l, s, inode.meta)], []))
            && ApplyActions(Hidden, map[], actions) == None
            && ApplyActions(Forbidden, map[], actions) == None
  {
    TwoPuts(Native, inode);
    TwoPuts(Hidden, inode);
    TwoPuts(Forbidden, inode);
    SecondPut(inode);
    StillWaiting(inode);
    ResolveIdle(map[["s"] := Leaf(inode), ["d"] := Dir, ["d", "l"] := Leaf(inode)], []);
  }

  lemma TwoPuts(k: Linking, inode: Inode)
    ensures var s: Path, l: Path := ["s"], ["d", "l"];
            var first, second := Put(s, Object(inode)), Put(l, HardLink(Some(s), inode.meta));
            Stream(k, State(map[], [], []), [first, second]) == Step(k, State(map[s := Leaf(inode)], [], []), second)
  {
    var s: Path, l: Path := ["s"], ["d", "l"];
    var first, second := Put(s, Object(inode)), Put(l, HardLink(Some(s), inode.meta));
    FirstPut(k, inode);
    var s1 := State(map[s := Leaf(inode)], [], []);
    assert [first, second][1..] == [second] && [second][1..] == [];
    assert Stream(k, s1, [second]) == Step(k, s1, second);
  }

  lemma FirstPut(k: Linking, inode: Inode)
    ensures Step(k, State(map[], [], []), Put(["s"], Object(inode))) == Some(State(map[["s"] := Leaf(inode)], [], []))
  {
    TopLevel(map[], ["s"]);
    assert CancelSubtree([], ["s"], true) == [];
  }

  lemma ParentOfLink(inode: Inode)
    ensures var one: Tree := map[["s"] := Leaf(inode)];
            && !LeafAbove(one, ["s"]) && !LeafAbove(one, ["d", "l"])
            && WithParents(one, ["d", "l"]) == map[["s"] := Leaf(inode), ["d"] := Dir]
  {
    var one: Tree := map[["s"] := Leaf(inode)];
    TopLevel(one, ["s"]);
    assert ["s"][0] != ["d", "l"][0];
    assert forall q | [] < q < ["d", "l"] :: q == ["d", "l"][..|q|] == ["d"];
    assert ["d"] == ["d", "l"][..1];
    assert WithParents(one, ["d", "l"]).Keys == {["s"], ["d"]};
  }

  lemma SecondPut(inode: Inode)
    requires inode.kind.Symlink?
    ensures var s: Path, l: Path := ["s"], ["d", "l"];
            var s1, second := State(map[s := Leaf(inode)], [], []), Put(l, HardLink(Some(s), inode.meta));
            && Step(Native, s1, second) == Some(State(map[s := Leaf(inode), ["d"] := Dir, l := Leaf(inode)], [], []))
            && Step(Hidden, s1, second)
                == Some(State(map[s := Leaf(inode), ["d"] := Dir], [Link(l, s, inode.meta)], []))
            && Step(Forbidden, s1, second) == None
  {
    var s: Path, l: Path := ["s"], ["d", "l"];
    var one: Tree := map[s := Leaf(inode)];
    ParentOfLink(inode);
    assert l != s;
    assert CancelSubtree([], l, true) == [];
    assert [] + [Link(l, s, inode.meta)] == [Link(l, s, inode.meta)];
  }

  lemma StillWaiting(inode: Inode)
    requires inode.kind.Symlink?
    ensures var s: Path, l: Path := ["s"], ["d", "l"];
            Finish(Hidden, State(map[s := Leaf(inode), ["d"] := Dir], [Link(l, s, inode.meta)], [])) == None
  {
    var s: Path, l: Path := ["s"], ["d", "l"];
    var two: Tree := map[s := Leaf(inode), ["d"] := Dir];
    var q := [Link(l, s, inode.meta)];
    assert WaitsForSymlink(two, q, q[0]);
    if Resolve(Hidden, two, q).Done? {
      ResolveKeepsWaiting(Hidden, two, q, q[0]);
    }
  }
}
