/**
 When the two readings of a layer agree. For layers without hard links, whose
 every node comes from the last entry or whiteout that concerns its path, the
 condition is exact and can be read off the layer alone.
 */
module WhiteoutsExact {
  import opened Wrappers
  import opened Tree
  import opened DeferredLinks
  import opened LayerStream
  import opened Whiteouts

  ghost predicate NoLinks(actions: seq<Action>) {
    forall i | 0 <= i < |actions| && actions[i].Put? :: !actions[i].body.HardLink?
  }

  /** The entry is at `p` or below it, and so makes something at `p`. */
  predicate Touches(a: Action, p: Path) {
    a.Put? && p <= a.path
  }

  function NodeOf(a: Action, p: Path): Node
    requires Touches(a, p)
  {
    if p == a.path && a.body.Object? then Leaf(a.body.inode) else Dir
  }

  function At(fs: Tree, p: Path): Option<Node> {
    if p in fs then Some(fs[p]) else None
  }

  // ---------- What decides a path ----------

  /** The node the last entry touching `p` makes there, whatever whiteouts say. */
  function Made(actions: seq<Action>, p: Path): Option<Node>
    decreases |actions|
  {
    if actions == [] then None
    else
      var a := actions[|actions| - 1];
      if Touches(a, p) then Some(NodeOf(a, p)) else Made(actions[..|actions| - 1], p)
  }

  /** The last action that concerns `p` is a whiteout. */
  predicate Erased(actions: seq<Action>, p: Path)
    decreases |actions|
  {
    actions != [] &&
    var a := actions[|actions| - 1];
    (Hits(a, p) || (!Touches(a, p) && Erased(actions[..|actions| - 1], p)))
  }

  /** The node at `p` after the stream: made, erased, or as it was. */
  function NodeAt(fs: Tree, actions: seq<Action>, p: Path): Option<Node> {
    if Erased(actions, p) then None
    else if Made(actions, p).Some? then Made(actions, p)
    else At(fs, p)
  }

  // ---------- The condition ----------

  /** The entry may be put where there is such a node at `p`, on its way or at its end. */
  predicate Compatible(n: Node, a: Action, p: Path)
    requires a.Put?
  {
    if p != a.path then n.Dir?
    else if a.body.Directory? then n.Dir? || n.inode.kind.Symlink?
    else n.Leaf?
  }

  ghost predicate FitsOn(before: seq<Action>, a: Action)
    requires a.Put?
  {
    forall p | [] < p <= a.path && Made(before, p).Some? :: Compatible(Made(before, p).value, a, p)
  }

  /** Every entry fits on what earlier entries make, were nothing of it ever erased. */
  ghost predicate Fits(actions: seq<Action>)
    decreases |actions|
  {
    actions == [] ||
    var init, a := actions[..|actions| - 1], actions[|actions| - 1];
    (Fits(init) && (a.Put? ==> FitsOn(init, a)))
  }

  ghost predicate TouchedAgain(actions: seq<Action>, i: nat)
    requires i < |actions| && actions[i].Put?
  {
    exists j | i < j < |actions| ::
        Touches(actions[j], actions[i].path) && !HitBySome(actions[j + 1..], actions[i].path)
  }

  /** An entry erased later is made again, itself or by one below it, after the last whiteout that erases it. */
  ghost predicate Restored(actions: seq<Action>) {
    forall i | 0 <= i < |actions| && actions[i].Put? && HitBySome(actions[i + 1..], actions[i].path) ::
      TouchedAgain(actions, i)
  }

  ghost predicate PutAgain(actions: seq<Action>, i: nat)
    requires i < |actions| && actions[i].Put?
  {
    exists j | 0 <= j < |actions| :: actions[j] == actions[i] && !HitBySome(actions[j + 1..], actions[i].path)
  }

  /** A directory entry erased later comes again as a directory entry. */
  ghost predicate DirsRestored(actions: seq<Action>) {
    forall i | 0 <= i < |actions| && actions[i].Put? && actions[i].body.Directory?
        && HitBySome(actions[i + 1..], actions[i].path) ::
      PutAgain(actions, i)
  }

  // ---------- One step and one path ----------

  lemma StepAt(s: State, a: Action, p: Path)
    requires IsTree(s.fs) && s.queue == [] && Step(Native, s, a).Some? && (a.Put? ==> !a.body.HardLink?) && p != []
    ensures var s' := Step(Native, s, a).value;
            && s'.queue == [] && IsTree(s'.fs) && (a.Put? ==> a.path != [])
            && At(s'.fs, p) == if Hits(a, p) then None else if Touches(a, p) then Some(NodeOf(a, p)) else At(s.fs, p)
  {
    match a
    case Clear(dir) => RemoveSubtreeIsTree(s.fs, dir);
    case Remove(root) => RemoveSubtreeIsTree(s.fs, root);
    case Put(q, body) =>
      PutStep(s, a);
      CreateNodeKeeps(s.fs, q, body);
      CreatedAt(s.fs, a, p);
    case Refuse =>
  }

  lemma CreatedAt(fs: Tree, a: Action, p: Path)
    requires IsTree(fs) && a.Put? && !a.body.HardLink? && CreateNode(fs, a.path, a.body).Some? && p != []
    ensures At(CreateNode(fs, a.path, a.body).value, p) == if Touches(a, p) then Some(NodeOf(a, p)) else At(fs, p)
  {
    var fs' := CreateNode(fs, a.path, a.body).value;
    CreateNodeKeeps(fs, a.path, a.body);
    if p == a.path {
      assert p in fs' && fs'[p] == NodeOf(a, p);
    } else if p < a.path {
      assert a.path in fs';
      AboveIsDir(fs', p, a.path);
      assert NodeOf(a, p) == Dir;
    } else {
      assert !(p <= a.path);
      assert p in fs' <==> p in fs;
    }
  }

  /** Without links an entry is only created; nothing waits for it. */
  lemma PutStep(s: State, a: Action)
    requires s.queue == [] && a.Put? && !a.body.HardLink?
    ensures Step(Native, s, a) == match CreateNode(s.fs, a.path, a.body)
                          case None => None
                          case Some(fs') =>
                            Some(State(fs', [], if a.body.Directory? then s.dirs + [a.path] else s.dirs))
  {
    assert CancelForEntry([], a.path, a.body) == [];
    if CreateNode(s.fs, a.path, a.body).Some? {
      var fs' := CreateNode(s.fs, a.path, a.body).value;
      assert Resolve(Native, fs', []) == Done(fs', []);
    }
  }

  lemma {:induction false} StreamSnoc(k: Linking, s: State, actions: seq<Action>, a: Action)
    ensures Stream(k, s, actions + [a]) ==
            match Stream(k, s, actions) case None => None case Some(s') => Step(k, s', a)
    decreases |actions|
  {
    if actions == [] {
      assert actions + [a] == [a] && [a][1..] == [];
      assert Step(k, s, a).Some? ==> Stream(k, Step(k, s, a).value, []) == Step(k, s, a);
    } else {
      assert (actions + [a])[1..] == actions[1..] + [a];
      if Step(k, s, actions[0]).Some? {
        StreamSnoc(k, Step(k, s, actions[0]).value, actions[1..], a);
      }
    }
  }

  /** After a stream every path has the node its last action left there. */
  lemma {:induction false} StreamAt(fs: Tree, actions: seq<Action>, p: Path)
    requires IsTree(fs) && NoLinks(actions) && p != []
    requires Stream(Native, State(fs, [], []), actions).Some?
    ensures var s := Stream(Native, State(fs, [], []), actions).value;
            s.queue == [] && IsTree(s.fs) && At(s.fs, p) == NodeAt(fs, actions, p)
    decreases |actions|
  {
    if actions != [] {
      var init, a := actions[..|actions| - 1], actions[|actions| - 1];
      assert actions == init + [a];
      StreamSnoc(Native, State(fs, [], []), init, a);
      StreamAt(fs, init, p);
      StepAt(Stream(Native, State(fs, [], []), init).value, a, p);
    }
  }

  // ---------- The entries alone ----------

  lemma {:induction false} RestSnoc(actions: seq<Action>, a: Action)
    ensures Rest(actions + [a]) == Rest(actions) + if a.Clear? || a.Remove? then [] else [a]
    decreases |actions|
  {
    if actions == [] {
      assert actions + [a] == [a] && [a][1..] == [];
      assert Rest([a][1..]) == [];
    } else {
      assert (actions + [a])[1..] == actions[1..] + [a];
      RestSnoc(actions[1..], a);
    }
  }

  lemma {:induction false} RestHasNoLinks(actions: seq<Action>)
    requires NoLinks(actions)
    ensures NoLinks(Rest(actions))
  {
    if actions != [] {
      assert forall i | 0 <= i < |actions[1..]| :: actions[1..][i] == actions[i + 1];
      RestHasNoLinks(actions[1..]);
    }
  }

  lemma LastDecides(init: seq<Action>, a: Action, p: Path)
    ensures Made(init + [a], p) == if Touches(a, p) then Some(NodeOf(a, p)) else Made(init, p)
    ensures Erased(init + [a], p) <==> Hits(a, p) || (!Touches(a, p) && Erased(init, p))
  {
    assert (init + [a])[..|init|] == init && (init + [a])[|init|] == a;
  }

  /** Leaving out the whiteouts keeps what entries make and erases nothing. */
  lemma {:induction false} RestDecides(actions: seq<Action>, p: Path)
    ensures Made(Rest(actions), p) == Made(actions, p) && !Erased(Rest(actions), p)
    decreases |actions|
  {
    if actions != [] {
      var init, a := actions[..|actions| - 1], actions[|actions| - 1];
      assert actions == init + [a];
      RestSnoc(init, a);
      RestDecides(init, p);
      LastDecides(init, a, p);
      if a.Put? || a.Refuse? {
        LastDecides(Rest(init), a, p);
      } else {
        assert Rest(init) + [] == Rest(init);
      }
    }
  }

  lemma {:induction false} HitSnoc(init: seq<Action>, a: Action, p: Path)
    ensures HitBySome(init + [a], p) <==> HitBySome(init, p) || Hits(a, p)
  {
    var both := init + [a];
    if HitBySome(init, p) {
      var i :| 0 <= i < |init| && Hits(init[i], p);
      assert Hits(both[i], p);
    }
    assert both[|init|] == a;
  }

  /** A path no entry touches is erased exactly if some whiteout names it. */
  lemma {:induction false} UntouchedErased(actions: seq<Action>, p: Path)
    requires Made(actions, p).None?
    ensures Erased(actions, p) <==> HitBySome(actions, p)
    decreases |actions|
  {
    if actions != [] {
      var init, a := actions[..|actions| - 1], actions[|actions| - 1];
      assert actions == init + [a];
      HitSnoc(init, a, p);
      UntouchedErased(init, p);
    }
  }

  // ---------- When the entries alone succeed ----------

  lemma CreateFits(fs: Tree, a: Action)
    requires IsTree(fs) && a.Put? && !a.body.HardLink?
    ensures CreateNode(fs, a.path, a.body).Some? <==>
              && !a.body.Unsupported? && a.path != []
              && forall p | [] < p <= a.path && p in fs :: Compatible(fs[p], a, p)
  {
    if LeafAbove(fs, a.path) {
      var q :| q < a.path && q in fs && fs[q].Leaf?;
      assert q != [] && !Compatible(fs[q], a, q);
    }
    if a.path != [] && a.path in fs {
      assert [] < a.path <= a.path;
    }
  }

  /** A lower tree of which only what no whiteout names is left. */
  ghost predicate Spared(fs: Tree, base: Tree, actions: seq<Action>) {
    forall p | p in base :: p in fs && base[p] == fs[p] && !HitBySome(actions, p)
  }

  lemma SparedInit(fs: Tree, base: Tree, init: seq<Action>, a: Action)
    requires Spared(fs, base, init + [a])
    ensures Spared(fs, base, init)
  {
    forall p | p in base
      ensures !HitBySome(init, p)
    {
      HitSnoc(init, a, p);
    }
  }

  /** If the stream succeeds, the entries alone do so exactly if each fits on the earlier ones. */
  lemma {:induction false} RestSucceeds(fs: Tree, base: Tree, actions: seq<Action>)
    requires IsTree(fs) && IsTree(base) && NoLinks(actions) && Spared(fs, base, actions)
    requires Stream(Native, State(fs, [], []), actions).Some?
    ensures Stream(Native, State(base, [], []), Rest(actions)).Some? <==> Fits(actions)
    decreases |actions|
  {
    if actions != [] {
      var init, a := actions[..|actions| - 1], actions[|actions| - 1];
      assert actions == init + [a];
      StreamSnoc(Native, State(fs, [], []), init, a);
      SparedInit(fs, base, init, a);
      RestSnoc(init, a);
      RestSucceeds(fs, base, init);
      if a.Put? {
        StreamSnoc(Native, State(base, [], []), Rest(init), a);
        if Fits(init) {
          LastFits(fs, base, init, a);
        }
      } else {
        assert Rest(init) + [] == Rest(init);
      }
    }
  }

  lemma LastFits(fs: Tree, base: Tree, init: seq<Action>, a: Action)
    requires IsTree(fs) && IsTree(base) && NoLinks(init) && Spared(fs, base, init)
    requires a.Put? && !a.body.HardLink?
    requires Stream(Native, State(fs, [], []), init).Some?
        && Step(Native, Stream(Native, State(fs, [], []), init).value, a).Some?
    requires Stream(Native, State(base, [], []), Rest(init)).Some?
    ensures Step(Native, Stream(Native, State(base, [], []), Rest(init)).value, a).Some? <==> FitsOn(init, a)
  {
    var s, t := Stream(Native, State(fs, [], []), init).value, Stream(Native, State(base, [], []), Rest(init)).value;
    var top: Path := ["x"];
    StreamAt(fs, init, top);
    RestDecides(init, top);
    RestHasNoLinks(init);
    StreamAt(base, Rest(init), top);
    PutStep(s, a);
    PutStep(t, a);
    CreateFits(s.fs, a);
    CreateFits(t.fs, a);
    forall p | p != []
      ensures Made(init, p).Some? ==> At(t.fs, p) == Made(init, p)
      ensures Made(init, p).None? && p in t.fs ==> At(s.fs, p) == At(t.fs, p)
    {
      BothAt(fs, base, init, p);
    }
    forall p | [] < p <= a.path && p in t.fs && FitsOn(init, a)
      ensures Compatible(t.fs[p], a, p)
    {
      assert Made(init, p).None? ==> p in s.fs && s.fs[p] == t.fs[p];
    }
    forall p | [] < p <= a.path && Made(init, p).Some?
      ensures p in t.fs && t.fs[p] == Made(init, p).value
    {
    }
  }

  /** One path in the streamed tree and in the tree of the entries alone. */
  lemma BothAt(fs: Tree, base: Tree, actions: seq<Action>, p: Path)
    requires IsTree(fs) && IsTree(base) && NoLinks(actions) && Spared(fs, base, actions) && p != []
    requires Stream(Native, State(fs, [], []), actions).Some?
        && Stream(Native, State(base, [], []), Rest(actions)).Some?
    ensures var s, t :=
        Stream(Native, State(fs, [], []), actions).value, Stream(Native, State(base, [], []), Rest(actions)).value;
            && At(s.fs, p) == NodeAt(fs, actions, p)
            && At(t.fs, p) == (if Made(actions, p).Some? then Made(actions, p) else At(base, p))
            && (Made(actions, p).None? && p in t.fs ==> At(s.fs, p) == At(t.fs, p))
  {
    StreamAt(fs, actions, p);
    RestDecides(actions, p);
    RestHasNoLinks(actions);
    StreamAt(base, Rest(actions), p);
    if Made(actions, p).None? {
      UntouchedErased(actions, p);
    }
  }

  // ---------- When the trees are equal ----------

  /** Entries touched a path, and the last of them was undone. */
  ghost predicate Hidden(actions: seq<Action>, p: Path) {
    Made(actions, p).Some? && Erased(actions, p)
  }

  ghost predicate Lasts(actions: seq<Action>, j: int, p: Path) {
    0 <= j < |actions| && Touches(actions[j], p) && !HitBySome(actions[j + 1..], p)
  }

  lemma LastsSnoc(init: seq<Action>, a: Action, j: int, p: Path)
    ensures Lasts(init + [a], j, p) <==> (Lasts(init, j, p) && !Hits(a, p)) || (j == |init| && Touches(a, p))
  {
    var both := init + [a];
    if 0 <= j < |init| {
      assert both[j + 1..] == init[j + 1..] + [a];
      HitSnoc(init[j + 1..], a, p);
    } else if j == |init| {
      assert both[j] == a && both[j + 1..] == [];
    }
  }

  /** Positions instead of recursion: something is made exactly if some entry touches the path. */
  lemma {:induction false} MadeByTouch(actions: seq<Action>, p: Path)
    ensures Made(actions, p).Some? <==> exists j :: 0 <= j < |actions| && Touches(actions[j], p)
    decreases |actions|
  {
    if actions != [] {
      var init, a := actions[..|actions| - 1], actions[|actions| - 1];
      MadeByTouch(init, p);
      assert forall j | 0 <= j < |init| :: actions[j] == init[j];
      assert actions[|init|] == a;
    }
  }

  /** It is made for good exactly if some touch is not undone. */
  lemma {:induction false} MadeForGood(actions: seq<Action>, p: Path)
    ensures Made(actions, p).Some? && !Erased(actions, p) <==> exists j :: Lasts(actions, j, p)
    decreases |actions|
  {
    if actions != [] {
      var init, a := actions[..|actions| - 1], actions[|actions| - 1];
      assert actions == init + [a];
      MadeForGood(init, p);
      LastDecides(init, a, p);
      forall j
        ensures Lasts(actions, j, p) <==> (Lasts(init, j, p) && !Hits(a, p)) || (j == |init| && Touches(a, p))
      {
        LastsSnoc(init, a, j, p);
      }
      if j :| Lasts(init, j, p) {
        assert !Hits(a, p) ==> Lasts(actions, j, p);
      }
      assert Touches(a, p) ==> Lasts(actions, |init|, p);
    }
  }

  lemma RestoredHidesNothing(actions: seq<Action>, p: Path)
    requires Restored(actions) && p != []
    ensures !Hidden(actions, p)
  {
    MadeByTouch(actions, p);
    MadeForGood(actions, p);
    if Hidden(actions, p) {
      var i :| 0 <= i < |actions| && Touches(actions[i], p);
      var q := actions[i].path;
      assert !Lasts(actions, i, p);
      HitDownward(actions[i + 1..], p, q);
      assert TouchedAgain(actions, i);
      var j :| i < j < |actions| && Touches(actions[j], q) && !HitBySome(actions[j + 1..], q);
      if HitBySome(actions[j + 1..], p) {
        HitDownward(actions[j + 1..], p, q);
      }
      assert Lasts(actions, j, p);
      assert false;
    }
  }

  lemma UnrestoredHides(actions: seq<Action>, i: nat)
    requires i < |actions| && actions[i].Put? && HitBySome(actions[i + 1..], actions[i].path)
        && !TouchedAgain(actions, i)
    ensures Hidden(actions, actions[i].path)
  {
    var p := actions[i].path;
    MadeByTouch(actions, p);
    MadeForGood(actions, p);
    assert Touches(actions[i], p);
    forall j
      ensures !Lasts(actions, j, p)
    {
      if 0 <= j <= i && HitBySome(actions[i + 1..], p) {
        var k :| 0 <= k < |actions[i + 1..]| && Hits(actions[i + 1..][k], p);
        assert actions[j + 1..][k + i - j] == actions[i + 1..][k];
      }
    }
  }

  lemma TreesEqualExactly(fs: Tree, actions: seq<Action>)
    requires IsTree(fs) && NoLinks(actions)
    requires IsTree(Without(fs, actions))
    requires Stream(Native, State(fs, [], []), actions).Some?
    requires Stream(Native, State(Without(fs, actions), [], []), Rest(actions)).Some?
    ensures Stream(Native, State(fs, [], []), actions).value.fs
            == Stream(Native, State(Without(fs, actions), [], []), Rest(actions)).value.fs
            <==> Restored(actions)
  {
    var base := Without(fs, actions);
    var s, t := Stream(Native, State(fs, [], []), actions).value.fs,
        Stream(Native, State(base, [], []), Rest(actions)).value.fs;
    forall p | p != []
      ensures At(s, p) == At(t, p) <==> !Hidden(actions, p)
    {
      SameAtExactly(fs, actions, p);
    }
    if Restored(actions) {
      forall p | p != []
        ensures At(s, p) == At(t, p)
      {
        RestoredHidesNothing(actions, p);
      }
      RootNowhere(fs, actions);
      assert forall p :: (p in s <==> p in t) && (p in s ==> s[p] == t[p]) by {
        forall p
          ensures (p in s <==> p in t) && (p in s ==> s[p] == t[p])
        {
          assert p != [] ==> At(s, p) == At(t, p);
        }
      }
      assert s.Keys == t.Keys;
    } else {
      var i :| 0 <= i < |actions| && actions[i].Put? && HitBySome(actions[i + 1..], actions[i].path)
          && !TouchedAgain(actions, i);
      PathsNamed(fs, actions, i);
      UnrestoredHides(actions, i);
      assert At(s, actions[i].path) != At(t, actions[i].path);
    }
  }

  lemma SameAtExactly(fs: Tree, actions: seq<Action>, p: Path)
    requires IsTree(fs) && NoLinks(actions) && p != []
    requires IsTree(Without(fs, actions))
    requires Stream(Native, State(fs, [], []), actions).Some?
    requires Stream(Native, State(Without(fs, actions), [], []), Rest(actions)).Some?
    ensures At(Stream(Native, State(fs, [], []), actions).value.fs, p)
            == At(Stream(Native, State(Without(fs, actions), [], []), Rest(actions)).value.fs, p)
            <==> !Hidden(actions, p)
  {
    BothAt(fs, Without(fs, actions), actions, p);
    if Made(actions, p).None? {
      UntouchedErased(actions, p);
    }
  }

  lemma RootNowhere(fs: Tree, actions: seq<Action>)
    requires IsTree(fs) && NoLinks(actions)
    requires IsTree(Without(fs, actions))
    requires Stream(Native, State(fs, [], []), actions).Some?
    requires Stream(Native, State(Without(fs, actions), [], []), Rest(actions)).Some?
    ensures [] !in Stream(Native, State(fs, [], []), actions).value.fs
    ensures [] !in Stream(Native, State(Without(fs, actions), [], []), Rest(actions)).value.fs
  {
    BothTrees(fs, actions);
  }

  lemma BothTrees(fs: Tree, actions: seq<Action>)
    requires IsTree(fs) && NoLinks(actions)
    requires IsTree(Without(fs, actions))
    requires Stream(Native, State(fs, [], []), actions).Some?
    requires Stream(Native, State(Without(fs, actions), [], []), Rest(actions)).Some?
    ensures IsTree(Stream(Native, State(fs, [], []), actions).value.fs)
    ensures IsTree(Stream(Native, State(Without(fs, actions), [], []), Rest(actions)).value.fs)
  {
    var top: Path := ["x"];
    StreamAt(fs, actions, top);
    RestDecides(actions, top);
    RestHasNoLinks(actions);
    StreamAt(Without(fs, actions), Rest(actions), top);
  }

  /** An entry for the root itself makes the layer fail. */
  lemma {:induction false} PathsNamed(fs: Tree, actions: seq<Action>, i: nat)
    requires IsTree(fs) && NoLinks(actions) && Stream(Native, State(fs, [], []), actions).Some?
    requires i < |actions| && actions[i].Put?
    ensures actions[i].path != []
    decreases |actions|
  {
    var init, a := actions[..|actions| - 1], actions[|actions| - 1];
    assert actions == init + [a];
    StreamSnoc(Native, State(fs, [], []), init, a);
    if i < |init| {
      PathsNamed(fs, init, i);
    } else {
      StreamAt(fs, init, ["x"]);
      StepAt(Stream(Native, State(fs, [], []), init).value, a, ["x"]);
    }
  }

  // ---------- When the recorded directories are the same ----------

  predicate IsDirEntry(a: Action, d: Path) {
    a == Put(d, Directory)
  }

  lemma {:induction false} RestMembers(actions: seq<Action>)
    ensures forall a :: a in Rest(actions) <==> a in actions && !a.Clear? && !a.Remove?
    decreases |actions|
  {
    if actions != [] {
      RestMembers(actions[1..]);
      assert actions == [actions[0]] + actions[1..];
    }
  }

  lemma RestHitsNothing(actions: seq<Action>, p: Path)
    ensures forall k: nat | k <= |Rest(actions)| :: !HitBySome(Rest(actions)[k..], p)
  {
    RestMembers(actions);
    forall k: nat | k <= |Rest(actions)|
      ensures !HitBySome(Rest(actions)[k..], p)
    {
      var tail := Rest(actions)[k..];
      forall i | 0 <= i < |tail|
        ensures !Hits(tail[i], p)
      {
        assert tail[i] in Rest(actions);
      }
    }
  }

  lemma RecordedByEntries(base: Tree, actions: seq<Action>, d: Path)
    requires Stream(Native, State(base, [], []), Rest(actions)).Some?
    ensures d in Stream(Native, State(base, [], []), Rest(actions)).value.dirs <==> Put(d, Directory) in actions
  {
    var rest := Rest(actions);
    RecordedDirs(State(base, [], []), rest, d);
    RestMembers(actions);
    RestHitsNothing(actions, d);
    if Put(d, Directory) in actions {
      var i :| 0 <= i < |rest| && rest[i] == Put(d, Directory);
      assert RecordsAt(rest, i, d);
    }
    if i :| RecordsAt(rest, i, d) {
      assert rest[i] in rest;
    }
  }

  lemma RecordedByStream(fs: Tree, actions: seq<Action>, d: Path)
    requires Stream(Native, State(fs, [], []), actions).Some?
    ensures d in Stream(Native, State(fs, [], []), actions).value.dirs <==> Recorded(actions, d)
  {
    RecordedDirs(State(fs, [], []), actions, d);
  }

  lemma DirsEqualExactly(fs: Tree, base: Tree, actions: seq<Action>)
    requires Stream(Native, State(fs, [], []), actions).Some?
    requires Stream(Native, State(base, [], []), Rest(actions)).Some?
    ensures (forall d :: d in Stream(Native, State(fs, [], []), actions).value.dirs
                         <==> d in Stream(Native, State(base, [], []), Rest(actions)).value.dirs)
            <==> DirsRestored(actions)
  {
    var ds, dt :=
        Stream(Native, State(fs, [], []), actions).value.dirs,
        Stream(Native, State(base, [], []), Rest(actions)).value.dirs;
    forall d
      ensures d in ds <==> Recorded(actions, d)
      ensures d in dt <==> Put(d, Directory) in actions
    {
      RecordedByStream(fs, actions, d);
      RecordedByEntries(base, actions, d);
    }
    RestoredMeansRecorded(actions);
  }

  /** Every directory entry is recorded at the end exactly if those erased later come again. */
  lemma RestoredMeansRecorded(actions: seq<Action>)
    ensures DirsRestored(actions) <==> forall d | Put(d, Directory) in actions :: Recorded(actions, d)
  {
    if DirsRestored(actions) {
      forall d | Put(d, Directory) in actions
        ensures Recorded(actions, d)
      {
        var i :| 0 <= i < |actions| && actions[i] == Put(d, Directory);
        RestoredRecorded(actions, i, d);
      }
    }
    if forall d | Put(d, Directory) in actions :: Recorded(actions, d) {
      forall i | 0 <= i < |actions| && actions[i].Put? && actions[i].body.Directory?
          && HitBySome(actions[i + 1..], actions[i].path)
        ensures PutAgain(actions, i)
      {
        assert actions[i] == Put(actions[i].path, Directory);
        RecordedPutAgain(actions, i, actions[i].path);
      }
    }
  }

  lemma RestoredRecorded(actions: seq<Action>, i: nat, d: Path)
    requires i < |actions| && actions[i] == Put(d, Directory)
    requires HitBySome(actions[i + 1..], d) ==> PutAgain(actions, i)
    ensures Recorded(actions, d)
  {
    if HitBySome(actions[i + 1..], d) {
      var j :| 0 <= j < |actions| && actions[j] == actions[i] && !HitBySome(actions[j + 1..], d);
      assert RecordsAt(actions, j, d);
    } else {
      assert RecordsAt(actions, i, d);
    }
  }

  lemma RecordedPutAgain(actions: seq<Action>, i: nat, d: Path)
    requires i < |actions| && actions[i] == Put(d, Directory) && Recorded(actions, d)
    ensures PutAgain(actions, i)
  {
    var j :| RecordsAt(actions, j, d);
    assert actions[j] == actions[i];
  }

  // ---------- The exact condition ----------

  /** Both trees and both sets of recorded directories are the same. */
  ghost predicate SameResult(a: Option<State>, b: Option<State>) {
    && a.Some? && b.Some? && a.value.fs == b.value.fs
    && forall d :: d in a.value.dirs <==> d in b.value.dirs
  }

  lemma WithoutIsTree(fs: Tree, actions: seq<Action>)
    requires IsTree(fs)
    ensures IsTree(Without(fs, actions))
  {
    var w := Without(fs, actions);
    forall a, b | a in w && [] < b < a
      ensures b in w && w[b].Dir?
    {
      AboveIsDir(fs, b, a);
      if HitBySome(actions, b) {
        HitDownward(actions, b, a);
      }
    }
    TreeFromAncestors(w);
  }

  lemma ApplyIsStream(fs: Tree, actions: seq<Action>)
    requires IsTree(fs) && NoLinks(actions)
    ensures ApplyActions(Native, fs, actions) == Stream(Native, State(fs, [], []), actions)
  {
    if Stream(Native, State(fs, [], []), actions).Some? {
      StreamAt(fs, actions, ["x"]);
      var s := Stream(Native, State(fs, [], []), actions).value;
      assert Resolve(Native, s.fs, []) == Done(s.fs, []);
    }
  }

  /**
   For a layer without hard links that applies: reading it as a stream and
   deleting everything its whiteouts name first give the same tree and the same
   directories for the metadata pass if and only if every entry fits on what the
   earlier ones made, and whatever is erased later is made again after that.
   */
  lemma TwoPhaseExactly(fs: Tree, actions: seq<Action>)
    requires IsTree(fs) && NoLinks(actions) && ApplyActions(Native, fs, actions).Some?
    ensures SameResult(ApplyActions(Native, fs, actions), ApplyActions(Native, Without(fs, actions), Rest(actions)))
            <==> Fits(actions) && Restored(actions) && DirsRestored(actions)
  {
    var base := Without(fs, actions);
    WithoutIsTree(fs, actions);
    RestDecides(actions, ["x"]);
    RestHasNoLinks(actions);
    ApplyIsStream(fs, actions);
    ApplyIsStream(base, Rest(actions));
    RestSucceeds(fs, base, actions);
    if Fits(actions) {
      TreesEqualExactly(fs, actions);
      DirsEqualExactly(fs, base, actions);
    }
  }
}
