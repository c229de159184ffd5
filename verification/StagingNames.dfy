/**
 The staging names that hard links leave behind (`publishPinnedHardlinkSource`
 in `internal/image/hardlink_secure_linux.go`). A name is left in the target's
 directory when the target already is a name of the source's inode. The names
 are random, so the model records the target instead: the name lies beside it.
 */
module StagingNames {
  import opened Wrappers
  import opened Tree
  import opened DeferredLinks
  import opened LayerStream
  import opened Whiteouts

  // ---------- In the retry loop ----------

  /** The targets beside which one pass over the queue leaves a name. */
  ghost function PassLeft(k: Linking, fs: Tree, q: seq<Link>): seq<Path>
    decreases |q|
  {
    if q == [] then []
    else match TryLink(k, fs, q[0])
      case Linked(fs', left) => (if left then [q[0].target] else []) + PassLeft(k, fs', q[1..])
      case SourceMissing(fs') => PassLeft(k, fs', q[1..])
      case LinkFailed => []
  }

  ghost function ResolveLeft(k: Linking, fs: Tree, q: seq<Link>): seq<Path>
    decreases |q|
  {
    PassLeft(k, fs, q) +
    match Pass(k, fs, q)
    case Failed => []
    case Done(fs', kept) => if |kept| == |q| then [] else ResolveLeft(k, fs', kept)
  }

  /** The target already is a name of the inode at the end of its source chain. */
  ghost predicate Held(fs: Tree, m: map<Path, Link>, t: Path) {
    t in Ends(fs, m) && t in fs && fs[t] == Leaf(Ends(fs, m)[t])
  }

  lemma LeftIsHeld(fs: Tree, m: map<Path, Link>, leaves: map<Path, Inode>, l: Link)
    requires Loop(fs, m, leaves) && l.target in m && m[l.target] == l && l.target !in leaves
    requires TryLink(Native, Overlay(fs, leaves), l).Linked?
    ensures TryLink(Native, Overlay(fs, leaves), l).left <==> Held(fs, m, l.target)
  {
    var g := Overlay(fs, leaves);
    assert l.source in g && g[l.source].Leaf?;
    FoundIsEnd(fs, m, leaves, l);
  }

  lemma {:induction false} PassLeaves(fs: Tree, m: map<Path, Link>, leaves: map<Path, Inode>, q: seq<Link>)
    requires Loop(fs, m, leaves) && Remaining(m, leaves, q)
    requires Pass(Native, Overlay(fs, leaves), q).Done?
    ensures var g := Overlay(fs, leaves);
            && Targets(Pass(Native, g, q).kept) <= Targets(q)
            && forall t :: t in PassLeft(Native, g, q)
                <==> Held(fs, m, t) && t in Targets(q) && t !in Targets(Pass(Native, g, q).kept)
    decreases |q|
  {
    if q == [] {
      return;
    }
    var g, t0 := Overlay(fs, leaves), q[0].target;
    RemainingTail(m, leaves, q);
    if TryLink(Native, g, q[0]).Linked? {
      var mid := LinkStep(fs, m, leaves, q[0]);
      RemainingResolved(m, leaves, mid, q[1..], t0);
      PassLeaves(fs, m, mid, q[1..]);
      LeftIsHeld(fs, m, leaves, q[0]);
    } else {
      PassLeaves(fs, m, leaves, q[1..]);
      TargetsOfCons(q[0], Pass(Native, g, q[1..]).kept);
    }
  }

  lemma TargetsOfCons(l: Link, q: seq<Link>)
    ensures Targets([l] + q) == Targets(q) + {l.target}
  {
    assert l in [l] + q;
    assert forall x :: x in [l] + q <==> x == l || x in q;
  }

  lemma {:induction false} ResolveLeaves(fs: Tree, m: map<Path, Link>, leaves: map<Path, Inode>, q: seq<Link>)
    requires Loop(fs, m, leaves) && Remaining(m, leaves, q) && m.Keys == leaves.Keys + Targets(q)
    requires Resolve(Native, Overlay(fs, leaves), q).Done?
    ensures var g := Overlay(fs, leaves);
            && Targets(Resolve(Native, g, q).kept) <= Targets(q)
            && forall t :: t in ResolveLeft(Native, g, q)
                <==> Held(fs, m, t) && t in Targets(q) && t !in Targets(Resolve(Native, g, q).kept)
    decreases |q|
  {
    var g := Overlay(fs, leaves);
    PassLeaves(fs, m, leaves, q);
    if |Pass(Native, g, q).kept| == |q| {
      PassStuck(g, q);
    } else {
      var leaves' := PassSound(fs, m, leaves, q);
      FinishedRemaining(fs, m, leaves, q, leaves');
      ResolveLeaves(fs, m, leaves', Filtered(q, leaves'.Keys));
    }
  }

  /** The loop leaves a name beside exactly the targets that were held before it began, in whatever order it runs. */
  lemma ResolveLeavesExactly(fs: Tree, q: seq<Link>)
    requires IsTree(fs) && DistinctTargets(q) && Ready(fs, Pending(q))
    requires Resolve(Native, fs, q).Done?
    ensures forall t :: t in ResolveLeft(Native, fs, q) <==> Held(fs, Pending(q), t)
  {
    var m := Pending(q);
    assert Overlay(fs, map[]) == fs;
    assert m.Keys == Targets(q);
    forall l | l in q
      ensures l.target in m && m[l.target] == l
    {
    }
    ResolveLeaves(fs, m, map[], q);
    ResolveCharacterised(fs, q);
  }

  // ---------- In one entry ----------

  /** The targets beside which an entry leaves a name: its own, and those of links it releases. */
  ghost function EntryLeft(k: Linking, fs: Tree, q: seq<Link>, target: Path, body: Body): seq<Path> {
    var q' := CancelForEntry(q, target, body);
    match body
    case HardLink(None, _) => []
    case HardLink(Some(source), meta) =>
      (match TryLink(k, fs, Link(target, source, meta))
       case Linked(fs', left) => (if left then [target] else []) + ResolveLeft(k, fs', q')
       case _ => [])
    case _ =>
      (match CreateNode(fs, target, body)
       case Some(fs') => ResolveLeft(k, fs', q')
       case None => [])
  }

  /** The name an entry that places its object leaves beside its own path. */
  ghost function OwnName(k: Linking, fs: Tree, target: Path, body: Body): seq<Path>
    requires Placed(k, fs, target, body).Some?
  {
    if body.HardLink? && TryLink(k, fs, Link(target, body.source.value, body.meta)).left then [target] else []
  }

  /** An entry that is not refused or queued places its object and retries the waiting links. */
  lemma EntryRetries(k: Linking, fs: Tree, q: seq<Link>, target: Path, body: Body)
    requires Placed(k, fs, target, body).Some?
    ensures ApplyEntry(k, fs, q, target, body)
        == Resolve(k, Placed(k, fs, target, body).value, CancelForEntry(q, target, body))
  {
  }

  lemma EntryUnfolds(k: Linking, fs: Tree, q: seq<Link>, target: Path, body: Body)
    requires Placed(k, fs, target, body).Some?
    ensures EntryLeft(k, fs, q, target, body) ==
            OwnName(k, fs, target, body)
                + ResolveLeft(k, Placed(k, fs, target, body).value, CancelForEntry(q, target, body))
  {
    var rest := ResolveLeft(k, Placed(k, fs, target, body).value, CancelForEntry(q, target, body));
    assert [] + rest == rest;
  }

  /** What can be seen before an entry: it links its target to the inode the target has. */
  ghost predicate OwnHeld(fs: Tree, target: Path, body: Body) {
    && body.HardLink? && body.source.Some?
    && target in fs && body.source.value in fs && fs[target].Leaf? && fs[body.source.value] == fs[target]
  }

  /** Or it makes a tree in which a waiting target has the inode its chain now reaches. */
  ghost predicate WaitingHeld(fs: Tree, q: seq<Link>, target: Path, body: Body, t: Path) {
    Placed(Native, fs, target, body).Some? &&
    var q' := CancelForEntry(q, target, body);
    DistinctTargets(q') && Held(Placed(Native, fs, target, body).value, Pending(q'), t)
  }

  ghost predicate Leaves(s: State, a: Action, t: Path) {
    && a.Put?
    && ((t == a.path && OwnHeld(s.fs, a.path, a.body)) || WaitingHeld(s.fs, s.queue, a.path, a.body, t))
  }

  /** An entry that waits leaves nothing. */
  lemma WaitingLeavesNone(s: State, a: Action)
    requires Inv(s) && a.Put? && Step(Native, s, a).Some? && Placed(Native, s.fs, a.path, a.body).None?
    ensures EntryLeft(Native, s.fs, s.queue, a.path, a.body) == [] && !OwnHeld(s.fs, a.path, a.body)
  {
    if OwnHeld(s.fs, a.path, a.body) {
      ExistingHasNoLeafAbove(s.fs, a.body.source.value);
    }
  }

  lemma OwnLeft(fs: Tree, target: Path, body: Body)
    requires Placed(Native, fs, target, body).Some?
    ensures OwnName(Native, fs, target, body) == if OwnHeld(fs, target, body) then [target] else []
  {
    if body.HardLink? {
      var l := Link(target, body.source.value, body.meta);
      assert l.source in fs && fs[l.source].Leaf?;
    }
  }

  lemma ReleasedLeft(s: State, a: Action, t: Path)
    requires Inv(s) && a.Put? && Step(Native, s, a).Some? && Placed(Native, s.fs, a.path, a.body).Some?
    ensures var q' := CancelForEntry(s.queue, a.path, a.body);
            t in ResolveLeft(Native, Placed(Native, s.fs, a.path, a.body).value, q') <==>
              WaitingHeld(s.fs, s.queue, a.path, a.body, t)
  {
    var fs' := Placed(Native, s.fs, a.path, a.body).value;
    var q' := CancelForEntry(s.queue, a.path, a.body);
    PlacedKeeps(Native, s.fs, a.path, a.body);
    EntryMakesReady(s.fs, s.queue, a.path, a.body, fs');
    EntryRetries(Native, s.fs, s.queue, a.path, a.body);
    ResolveLeavesExactly(fs', q');
  }

  /** An entry leaves a name beside exactly these targets. */
  lemma EntryLeavesExactly(s: State, a: Action, t: Path)
    requires Inv(s) && a.Put? && Step(Native, s, a).Some?
    ensures t in EntryLeft(Native, s.fs, s.queue, a.path, a.body) <==> Leaves(s, a, t)
  {
    if Placed(Native, s.fs, a.path, a.body).None? {
      WaitingLeavesNone(s, a);
    } else {
      OwnLeft(s.fs, a.path, a.body);
      ReleasedLeft(s, a, t);
      EntryUnfolds(Native, s.fs, s.queue, a.path, a.body);
    }
  }

  // ---------- In a layer ----------

  /** The name beside `t` goes with the directory it is in. */
  predicate Swept(a: Action, t: Path)
    requires t != []
  {
    match a
    case Clear(dir) => dir <= t[..|t| - 1]
    case Remove(root) => root <= t[..|t| - 1]
    case _ => false
  }

  /** The names still there, given as their targets. */
  function Unswept(left: seq<Path>, a: Action): (r: seq<Path>)
    ensures forall t :: t in r <==> t in left && (t == [] || !Swept(a, t))
  {
    if left == [] then []
    else if left[0] != [] && Swept(a, left[0]) then Unswept(left[1..], a)
    else [left[0]] + Unswept(left[1..], a)
  }

  ghost function StepLeft(k: Linking, s: State, a: Action): seq<Path> {
    if a.Put? then EntryLeft(k, s.fs, s.queue, a.path, a.body) else []
  }

  /** The names a stream has left by its end, on top of those left before. */
  ghost function StreamLeft(k: Linking, s: State, left: seq<Path>, actions: seq<Action>): seq<Path>
    decreases |actions|
  {
    if actions == [] then left
    else match Step(k, s, actions[0])
      case None => left
      case Some(s') => StreamLeft(k, s', Unswept(left, actions[0]) + StepLeft(k, s, actions[0]), actions[1..])
  }

  /** And with the last retry, after which nothing is swept any more. */
  ghost function LayerLeft(k: Linking, fs: Tree, left: seq<Path>, actions: seq<Action>): seq<Path> {
    var s0 := State(fs, [], []);
    StreamLeft(k, s0, left, actions) +
    match Stream(k, s0, actions)
    case None => []
    case Some(s) => ResolveLeft(k, s.fs, s.queue)
  }

  ghost predicate SweptBySome(actions: seq<Action>, t: Path) {
    t != [] && exists i | 0 <= i < |actions| :: Swept(actions[i], t)
  }

  /** The state an action of the stream finds. */
  ghost function Before(s: State, actions: seq<Action>, i: nat): Option<State>
    requires i <= |actions|
  {
    Stream(Native, s, actions[..i])
  }

  /** Beside `t` the `i`th action leaves a name that no later whiteout sweeps away. */
  ghost predicate LeavesForGood(s: State, actions: seq<Action>, i: int, t: Path) {
    && 0 <= i < |actions| && Before(s, actions, i).Some?
    && Leaves(Before(s, actions, i).value, actions[i], t)
    && !SweptBySome(actions[i + 1..], t)
  }

  ghost predicate SomeLeavesForGood(s: State, actions: seq<Action>, t: Path) {
    exists i :: LeavesForGood(s, actions, i, t)
  }

  lemma SweptCons(a: Action, rest: seq<Action>, t: Path)
    ensures SweptBySome([a] + rest, t) <==> (t != [] && Swept(a, t)) || SweptBySome(rest, t)
  {
    if t == [] {
      return;
    }
    var all := [a] + rest;
    assert all[0] == a;
    if SweptBySome(rest, t) {
      var i :| 0 <= i < |rest| && Swept(rest[i], t);
      assert Swept(all[i + 1], t);
    }
    if SweptBySome(all, t) && !Swept(a, t) {
      var i :| 0 <= i < |all| && Swept(all[i], t);
      assert Swept(rest[i - 1], t);
    }
  }

  lemma LeavesForGoodCons(s: State, actions: seq<Action>, i: int, t: Path)
    requires actions != [] && Step(Native, s, actions[0]).Some? && 0 < i
    ensures LeavesForGood(s, actions, i, t)
        <==> LeavesForGood(Step(Native, s, actions[0]).value, actions[1..], i - 1, t)
  {
    if i < |actions| {
      assert actions[..i][0] == actions[0] && actions[..i][1..] == actions[1..][..i - 1];
      assert actions[i + 1..] == actions[1..][i..];
    }
  }

  lemma LeavesFirst(s: State, actions: seq<Action>, t: Path)
    requires actions != []
    ensures LeavesForGood(s, actions, 0, t) <==> Leaves(s, actions[0], t) && !SweptBySome(actions[1..], t)
  {
    assert actions[..0] == [];
  }

  lemma LeavesLater(s: State, actions: seq<Action>, i: int, t: Path)
    requires actions != [] && Step(Native, s, actions[0]).Some? && 0 < i && LeavesForGood(s, actions, i, t)
    ensures SomeLeavesForGood(Step(Native, s, actions[0]).value, actions[1..], t)
  {
    LeavesForGoodCons(s, actions, i, t);
  }

  lemma LaterLeaves(s: State, actions: seq<Action>, i: int, t: Path)
    requires actions != [] && Step(Native, s, actions[0]).Some?
    requires LeavesForGood(Step(Native, s, actions[0]).value, actions[1..], i, t)
    ensures SomeLeavesForGood(s, actions, t)
  {
    LeavesForGoodCons(s, actions, i + 1, t);
    assert LeavesForGood(s, actions, i + 1, t);
  }

  /** The first action leaves the name for good, or a later one does. */
  lemma SomeLeavesCons(s: State, actions: seq<Action>, t: Path)
    requires actions != [] && Step(Native, s, actions[0]).Some?
    ensures SomeLeavesForGood(s, actions, t) <==>
              LeavesForGood(s, actions, 0, t) || SomeLeavesForGood(Step(Native, s, actions[0]).value, actions[1..], t)
  {
    if i :| LeavesForGood(s, actions, i, t) && i > 0 {
      LeavesLater(s, actions, i, t);
    }
    if i :| LeavesForGood(Step(Native, s, actions[0]).value, actions[1..], i, t) {
      LaterLeaves(s, actions, i, t);
    }
  }

  lemma {:induction false} StreamLeavesExactly(s: State, left: seq<Path>, actions: seq<Action>, t: Path)
    requires Inv(s) && Stream(Native, s, actions).Some?
    ensures t in StreamLeft(Native, s, left, actions) <==>
              || (t in left && !SweptBySome(actions, t))
              || SomeLeavesForGood(s, actions, t)
    decreases |actions|
  {
    if actions == [] {
      return;
    }
    var a, rest := actions[0], actions[1..];
    var s' := Step(Native, s, a).value;
    var left' := Unswept(left, a) + StepLeft(Native, s, a);
    StepKeepsInv(s, a);
    StreamLeavesExactly(s', left', rest, t);
    assert [a] + rest == actions;
    SweptCons(a, rest, t);
    if a.Put? {
      EntryLeavesExactly(s, a, t);
    }
    LeavesFirst(s, actions, t);
    SomeLeavesCons(s, actions, t);
    assert t in left' <==> (t in left && (t == [] || !Swept(a, t))) || Leaves(s, a, t);
  }

  /**
   A layer that applies leaves a name beside a target exactly when some entry
   finds that target already holding the inode it is about to give it, and no
   later whiteout removes the directory of the target or empties it.
   */
  lemma LayerLeavesExactly(fs: Tree, left: seq<Path>, actions: seq<Action>, t: Path)
    requires IsTree(fs) && ApplyActions(Native, fs, actions).Some?
    ensures t in LayerLeft(Native, fs, left, actions) <==>
              || (t in left && !SweptBySome(actions, t))
              || SomeLeavesForGood(State(fs, [], []), actions, t)
  {
    var s0 := State(fs, [], []);
    FinishOfStream(fs, actions);
    var s := Stream(Native, s0, actions).value;
    assert ResolveLeft(Native, s.fs, []) == [];
    StreamLeavesExactly(s0, left, actions, t);
  }

  /** A layer leaves no name exactly when no entry of it does so for good. */
  lemma LayerLeavesNone(fs: Tree, actions: seq<Action>)
    requires IsTree(fs) && ApplyActions(Native, fs, actions).Some?
    ensures LayerLeft(Native, fs, [], actions) == []
        <==> forall i, t :: !LeavesForGood(State(fs, [], []), actions, i, t)
  {
    var left := LayerLeft(Native, fs, [], actions);
    forall i, t | LeavesForGood(State(fs, [], []), actions, i, t)
      ensures t in left
    {
      LayerLeavesExactly(fs, [], actions, t);
    }
    FirstIn(left);
    if left != [] {
      LayerLeavesExactly(fs, [], actions, left[0]);
    }
  }

  lemma FirstIn(left: seq<Path>)
    ensures left == [] || left[0] in left
  {
  }

  // ---------- Layers that leave nothing ----------

  ghost predicate IsLeaf(fs: Tree, p: Path) {
    p in fs && fs[p].Leaf?
  }

  /** No hard link of the layer is named like a leaf of the tree or like an earlier entry. */
  ghost predicate FreshTargets(used: iset<Path>, actions: seq<Action>) {
    actions == [] ||
    var a := actions[0];
    && (a.Put? && a.body.HardLink? ==> a.path !in used)
    && FreshTargets(if a.Put? then used + iset{a.path} else used, actions[1..])
  }

  /** All leaves have a used name, and no link waits to replace a leaf. */
  ghost predicate Untouched(s: State, used: iset<Path>) {
    && (forall p | IsLeaf(s.fs, p) :: p in used)
    && (forall l | l in s.queue :: l.target in used && !IsLeaf(s.fs, l.target))
  }

  lemma UntouchedEntry(s: State, used: iset<Path>, a: Action)
    requires Inv(s) && Untouched(s, used) && a.Put? && Step(Native, s, a).Some?
    requires a.body.HardLink? ==> a.path !in used
    ensures Untouched(Step(Native, s, a).value, used + iset{a.path})
    ensures forall t :: !Leaves(s, a, t)
  {
    var q' := CancelForEntry(s.queue, a.path, a.body);
    UntouchedQueue(s, used, a);
    if Placed(Native, s.fs, a.path, a.body).Some? {
      var fs' := Placed(Native, s.fs, a.path, a.body).value;
      PlacedKeeps(Native, s.fs, a.path, a.body);
      PlacedLeaves(s.fs, a.path, a.body);
      UnshadowedCancelled(s.queue, a.path, true);
      EntryMakesReady(s.fs, s.queue, a.path, a.body, fs');
      UntouchedResolve(fs', q', used + iset{a.path});
    }
  }

  /** What waits after cancelling is not the entry's own path. */
  lemma UntouchedQueue(s: State, used: iset<Path>, a: Action)
    requires Untouched(s, used) && a.Put?
    ensures forall l | l in CancelForEntry(s.queue, a.path, a.body) ::
              l.target in used && l.target != a.path && !IsLeaf(s.fs, l.target)
  {
  }

  lemma UntouchedResolve(fs: Tree, q: seq<Link>, used: iset<Path>)
    requires IsTree(fs) && DistinctTargets(q) && Ready(fs, Pending(q))
    requires forall p | IsLeaf(fs, p) :: p in used
    requires forall l | l in q :: l.target in used && !IsLeaf(fs, l.target)
    ensures forall t :: !Held(fs, Pending(q), t)
    ensures Resolve(Native, fs, q).Done?
        ==> Untouched(State(Resolve(Native, fs, q).fs, Resolve(Native, fs, q).kept, []), used)
  {
    var m := Pending(q);
    forall t | t in m
      ensures t in used && !IsLeaf(fs, t)
    {
      assert m[t] in q && m[t].target == t;
    }
    ResolveCharacterised(fs, q);
  }

  lemma PlacedLeaves(fs: Tree, target: Path, body: Body)
    requires IsTree(fs) && Placed(Native, fs, target, body).Some?
    ensures forall p | p != target :: IsLeaf(Placed(Native, fs, target, body).value, p) <==> IsLeaf(fs, p)
  {
  }

  lemma {:induction false} FreshStream(s: State, used: iset<Path>, actions: seq<Action>)
    requires Inv(s) && Untouched(s, used) && Stream(Native, s, actions).Some?
    requires FreshTargets(used, actions)
    ensures forall t :: t !in StreamLeft(Native, s, [], actions)
    decreases |actions|
  {
    if actions == [] {
      return;
    }
    var a, rest := actions[0], actions[1..];
    var s' := Step(Native, s, a).value;
    StepKeepsInv(s, a);
    if a.Put? {
      UntouchedEntry(s, used, a);
      FirstIn(StepLeft(Native, s, a));
      if StepLeft(Native, s, a) != [] {
        EntryLeavesExactly(s, a, StepLeft(Native, s, a)[0]);
        assert false;
      }
      FreshStream(s', used + iset{a.path}, rest);
    } else {
      FreshStream(s', used, rest);
    }
    assert Unswept([], a) + StepLeft(Native, s, a) == [];
  }

  /**
   It is enough to look at the names: when no hard link is named like a leaf the
   tree has or like an earlier entry of the layer, no staging name is left.
   */
  lemma FreshTargetsLeaveNone(fs: Tree, actions: seq<Action>)
    requires IsTree(fs) && ApplyActions(Native, fs, actions).Some?
    requires FreshTargets((iset p | IsLeaf(fs, p)), actions)
    ensures LayerLeft(Native, fs, [], actions) == []
  {
    var s0 := State(fs, [], []);
    FinishOfStream(fs, actions);
    FreshStream(s0, (iset p | IsLeaf(fs, p)), actions);
    FirstIn(StreamLeft(Native, s0, [], actions));
    assert ResolveLeft(Native, Stream(Native, s0, actions).value.fs, []) == [];
  }

  // ---------- A layer that leaves one ----------

  lemma FirstWaits(inode: Inode)
    ensures var b: Path, s: Path := ["b"], ["s"];
            var s0 := State(map[b := Leaf(inode)], [], []);
            var first := Put(b, HardLink(Some(s), inode.meta));
            && Step(Native, s0, first) == Some(State(s0.fs, [Link(b, s, inode.meta)], []))
            && StepLeft(Native, s0, first) == []
  {
    var fs: Tree := map[["b"] := Leaf(inode)];
    assert ["b"][0] != ["s"][0];
    TopLevel(fs, ["s"]);
    assert TryLink(Native, fs, Link(["b"], ["s"], inode.meta)).SourceMissing?;
    assert CancelForEntry([], ["b"], HardLink(Some(["s"]), inode.meta)) == [];
    assert [] + [Link(["b"], ["s"], inode.meta)] == [Link(["b"], ["s"], inode.meta)];
  }

  lemma SecondResolves(inode: Inode)
    ensures var b: Path, s: Path := ["b"], ["s"];
            var s1 := State(map[b := Leaf(inode)], [Link(b, s, inode.meta)], []);
            var second := Put(s, HardLink(Some(b), inode.meta));
            && Step(Native, s1, second) == Some(State(map[b := Leaf(inode), s := Leaf(inode)], [], []))
            && StepLeft(Native, s1, second) == [b]
  {
    var b: Path, s: Path := ["b"], ["s"];
    var fs: Tree := map[b := Leaf(inode)];
    var both: Tree := map[b := Leaf(inode), s := Leaf(inode)];
    var toS, toB := Link(b, s, inode.meta), Link(s, b, inode.meta);
    assert b[0] != s[0];
    TopLevel(fs, b);
    TopLevel(fs, s);
    TopLevel(both, b);
    TopLevel(both, s);
    assert TryLink(Native, fs, toB) == Linked(both, false);
    assert both[b := Leaf(inode)] == both;
    assert TryLink(Native, both, toS) == Linked(both, true);
    assert [toS][1..] == [];
    assert Pass(Native, both, [toS]) == Done(both, []);
    assert Resolve(Native, both, []) == Done(both, []);
    assert PassLeft(Native, both, [toS]) == [b];
    assert ResolveLeft(Native, both, []) == [];
    assert !(s <= b);
    assert CancelSubtree([], s, true) == [];
    assert CancelForEntry([toS], s, HardLink(Some(b), inode.meta)) == [toS];
  }

  /** The tree has `b`; the layer links `b` to `s` before `s` exists, and then `s` to `b`. */
  lemma LinkPairLeavesName(inode: Inode)
    ensures var fs: Tree := map[["b"] := Leaf(inode)];
            var actions :=
                [Put(["b"], HardLink(Some(["s"]), inode.meta)), Put(["s"], HardLink(Some(["b"]), inode.meta))];
            && IsTree(fs)
            && ApplyActions(Native, fs, actions) == Some(State(map[["b"] := Leaf(inode), ["s"] := Leaf(inode)], [], []))
            && LayerLeft(Native, fs, [], actions) == [["b"]]
  {
    var b, s: Path := ["b"], ["s"];
    var fs: Tree := map[b := Leaf(inode)];
    var toS, toB := Link(b, s, inode.meta), Link(s, b, inode.meta);
    var first, second := Put(b, HardLink(Some(s), inode.meta)), Put(s, HardLink(Some(b), inode.meta));
    var s0, s1 := State(fs, [], []), State(fs, [toS], []);
    var both: Tree := map[b := Leaf(inode), s := Leaf(inode)];
    FirstWaits(inode);
    SecondResolves(inode);
    assert [first, second][1..] == [second] && [second][1..] == [];
    assert Stream(Native, s1, [second]) == Some(State(both, [], []));
    assert StreamLeft(Native, s1, [], [second]) == [b];
    assert ResolveLeft(Native, both, []) == [];
    ResolveIdle(both, []);
  }
}
