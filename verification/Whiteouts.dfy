/**
 The meaning of whiteouts in a layer stream. The section "Whiteouts" of the OCI
 Image Format Specification's "Image Layer Filesystem Changeset" lets a whiteout
 hide resources of lower layers only. `applyLayerReader` acts on whiteouts in
 stream order, on whatever the tree holds by then.
 */
module Whiteouts {
  import opened Wrappers
  import opened Tree
  import opened DeferredLinks
  import opened LayerStream

  /** The whiteout `a` deletes the path `p`. */
  predicate Hits(a: Action, p: Path) {
    match a
    case Clear(dir) => dir < p
    case Remove(root) => root <= p
    case _ => false
  }

  predicate HitBySome(actions: seq<Action>, p: Path) {
    exists i | 0 <= i < |actions| :: Hits(actions[i], p)
  }

  /** The lower tree with everything any of the whiteouts names deleted. */
  ghost function Without(fs: Tree, actions: seq<Action>): (r: Tree)
    ensures forall p {:trigger p in r} :: p in r <==> p in fs && !HitBySome(actions, p)
    ensures forall p {:trigger r[p]} | p in r :: r[p] == fs[p]
  {
    map p | p in fs && !HitBySome(actions, p) :: fs[p]
  }

  /** The entries of the stream that are not whiteouts. */
  function Rest(actions: seq<Action>): seq<Action> {
    if actions == [] then []
    else if actions[0].Clear? || actions[0].Remove? then Rest(actions[1..])
    else [actions[0]] + Rest(actions[1..])
  }

  /** The paths an entry names: its target and, for a link, its source. */
  predicate Names(a: Action, p: Path) {
    && a.Put?
    && (a.path == p || (a.body.HardLink? && a.body.source == Some(p)))
  }

  /** No entry names a path that a later whiteout of the layer deletes. */
  ghost predicate LowerOnly(actions: seq<Action>) {
    forall i, p | 0 <= i < |actions| && Names(actions[i], p) :: !HitBySome(actions[i + 1..], p)
  }

  // ---------- Deleting first commutes with one entry ----------

  lemma HitDownward(actions: seq<Action>, p: Path, q: Path)
    requires p <= q && HitBySome(actions, p)
    ensures HitBySome(actions, q)
  {
    var i :| 0 <= i < |actions| && Hits(actions[i], p);
    assert Hits(actions[i], q);
  }

  lemma LookupWithout(fs: Tree, ws: seq<Action>, p: Path)
    requires !HitBySome(ws, p)
    ensures LookupPath(Without(fs, ws), p) == LookupPath(fs, p)
    ensures LeafAbove(Without(fs, ws), p) <==> LeafAbove(fs, p)
    ensures p in Without(fs, ws) <==> p in fs
  {
    var w := Without(fs, ws);
    forall q | q <= p
      ensures q in w <==> q in fs
    {
      if HitBySome(ws, q) { HitDownward(ws, q, p); }
    }
    assert forall q | q < p :: (q in w && w[q].Leaf?) == (q in fs && fs[q].Leaf?);
  }

  lemma PlacedWithout(fs: Tree, ws: seq<Action>, p: Path, n: Node)
    requires !HitBySome(ws, p)
    ensures WithParents(Without(fs, ws), p)[p := n] == Without(WithParents(fs, p)[p := n], ws)
  {
    var a, b := WithParents(Without(fs, ws), p)[p := n], Without(WithParents(fs, p)[p := n], ws);
    forall q
      ensures (q in a <==> q in b) && (q in a ==> a[q] == b[q])
    {
      if q <= p && HitBySome(ws, q) { HitDownward(ws, q, p); }
    }
    assert a.Keys == b.Keys;
  }

  ghost function LinkResultWithout(r: LinkResult, ws: seq<Action>): LinkResult {
    match r
    case Linked(fs, left) => Linked(Without(fs, ws), left)
    case SourceMissing(fs) => SourceMissing(Without(fs, ws))
    case LinkFailed => LinkFailed
  }

  ghost function OutcomeWithout(r: Outcome, ws: seq<Action>): Outcome {
    if r.Done? then Done(Without(r.fs, ws), r.kept) else r
  }

  ghost predicate LinkUntouched(l: Link, ws: seq<Action>) {
    !HitBySome(ws, l.target) && !HitBySome(ws, l.source)
  }

  lemma TryLinkWithout(fs: Tree, ws: seq<Action>, l: Link)
    requires LinkUntouched(l, ws)
    ensures TryLink(Native, Without(fs, ws), l) == LinkResultWithout(TryLink(Native, fs, l), ws)
  {
    LookupWithout(fs, ws, l.source);
    LookupWithout(fs, ws, l.target);
    if TryLink(Native, fs, l).Linked? {
      PlacedWithout(fs, ws, l.target, fs[l.source]);
    }
  }

  lemma CreateNodeWithout(fs: Tree, ws: seq<Action>, p: Path, body: Body)
    requires !HitBySome(ws, p) && !body.HardLink?
    ensures CreateNode(Without(fs, ws), p, body) ==
            match CreateNode(fs, p, body)
            case Some(fs') => Some(Without(fs', ws))
            case None => None
  {
    LookupWithout(fs, ws, p);
    if body.Directory? {
      PlacedWithout(fs, ws, p, Dir);
      if p in fs {
        assert Without(fs[p := Dir], ws) == Without(fs, ws)[p := Dir];
      }
    } else if body.Object? {
      PlacedWithout(fs, ws, p, Leaf(body.inode));
    }
  }

  lemma {:induction false} PassWithout(fs: Tree, ws: seq<Action>, q: seq<Link>)
    requires forall l | l in q :: LinkUntouched(l, ws)
    ensures Pass(Native, Without(fs, ws), q) == OutcomeWithout(Pass(Native, fs, q), ws)
    decreases |q|
  {
    if q != [] {
      TryLinkWithout(fs, ws, q[0]);
      var t := TryLink(Native, fs, q[0]);
      PassWithout(if t.Linked? then t.fs else fs, ws, q[1..]);
    }
  }

  lemma {:induction false} PassKeptSubset(fs: Tree, q: seq<Link>)
    requires Pass(Native, fs, q).Done?
    ensures forall l | l in Pass(Native, fs, q).kept :: l in q
    decreases |q|
  {
    if q != [] {
      var t := TryLink(Native, fs, q[0]);
      PassKeptSubset(if t.Linked? then t.fs else fs, q[1..]);
    }
  }

  lemma {:induction false} ResolveWithout(fs: Tree, ws: seq<Action>, q: seq<Link>)
    requires forall l | l in q :: LinkUntouched(l, ws)
    ensures Resolve(Native, Without(fs, ws), q) == OutcomeWithout(Resolve(Native, fs, q), ws)
    ensures Resolve(Native, fs, q).Done? ==> forall l | l in Resolve(Native, fs, q).kept :: l in q
    decreases |q|
  {
    PassWithout(fs, ws, q);
    var r := Pass(Native, fs, q);
    if r.Done? {
      PassKeptSubset(fs, q);
      if |r.kept| < |q| {
        ResolveWithout(r.fs, ws, r.kept);
      }
    }
  }

  // ---------- Deleting first commutes with the stream ----------

  /** Nothing the state still refers to is deleted by the whiteouts to come. */
  ghost predicate StateUntouched(s: State, ws: seq<Action>) {
    && (forall l | l in s.queue :: LinkUntouched(l, ws))
    && (forall d | d in s.dirs :: !HitBySome(ws, d))
  }

  ghost function StateWithout(s: State, ws: seq<Action>): State {
    State(Without(s.fs, ws), s.queue, s.dirs)
  }

  lemma PutWithout(s: State, ws: seq<Action>, a: Action)
    requires a.Put? && StateUntouched(s, ws)
    requires forall p | Names(a, p) :: !HitBySome(ws, p)
    requires Step(Native, s, a).Some?
    ensures Step(Native, StateWithout(s, ws), a) == Some(StateWithout(Step(Native, s, a).value, ws))
    ensures StateUntouched(Step(Native, s, a).value, ws)
  {
    var q' := CancelForEntry(s.queue, a.path, a.body);
    assert Names(a, a.path);
    if a.body.HardLink? {
      assert Names(a, a.body.source.value);
      var l := Link(a.path, a.body.source.value, a.body.meta);
      TryLinkWithout(s.fs, ws, l);
      if TryLink(Native, s.fs, l).Linked? {
        ResolveWithout(TryLink(Native, s.fs, l).fs, ws, q');
      }
    } else {
      CreateNodeWithout(s.fs, ws, a.path, a.body);
      ResolveWithout(CreateNode(s.fs, a.path, a.body).value, ws, q');
    }
  }

  lemma {:induction false} CancelNothing(q: seq<Link>, root: Path, includeRoot: bool)
    requires forall l | l in q :: !Within(root, l.target, includeRoot)
    ensures CancelSubtree(q, root, includeRoot) == q
    decreases |q|
  {
    if q != [] {
      assert q[0] in q;
      CancelNothing(q[1..], root, includeRoot);
    }
  }

  lemma {:induction false} CancelNoDirs(dirs: seq<Path>, root: Path, includeRoot: bool)
    requires forall d | d in dirs :: !Within(root, d, includeRoot)
    ensures CancelDirs(dirs, root, includeRoot) == dirs
    decreases |dirs|
  {
    if dirs != [] {
      assert dirs[0] in dirs;
      CancelNoDirs(dirs[1..], root, includeRoot);
    }
  }

  lemma HitSplit(actions: seq<Action>, p: Path)
    requires actions != []
    ensures HitBySome(actions, p) <==> Hits(actions[0], p) || HitBySome(actions[1..], p)
  {
    var tail := actions[1..];
    if HitBySome(tail, p) {
      var i :| 0 <= i < |tail| && Hits(tail[i], p);
      assert Hits(actions[i + 1], p);
    }
    if HitBySome(actions, p) && !Hits(actions[0], p) {
      var i :| 0 <= i < |actions| && Hits(actions[i], p);
      assert Hits(tail[i - 1], p);
    }
  }

  lemma HitTail(actions: seq<Action>)
    requires actions != []
    ensures forall p :: HitBySome(actions, p) <==> Hits(actions[0], p) || HitBySome(actions[1..], p)
  {
    forall p
      ensures HitBySome(actions, p) <==> Hits(actions[0], p) || HitBySome(actions[1..], p)
    {
      HitSplit(actions, p);
    }
  }

  /** A whiteout step deletes its own set and leaves the rest of the state alone. */
  lemma WhiteoutStep(s: State, actions: seq<Action>)
    requires actions != [] && (actions[0].Clear? || actions[0].Remove?)
    requires StateUntouched(s, actions) && Step(Native, s, actions[0]).Some?
    ensures var s' := Step(Native, s, actions[0]).value;
            && StateWithout(s, actions) == StateWithout(s', actions[1..])
            && StateUntouched(s', actions[1..])
  {
    HitTail(actions);
    var a := actions[0];
    var s' := Step(Native, s, a).value;
    var root, incl := if a.Clear? then a.dir else a.path, a.Remove?;
    assert forall p :: Hits(a, p) <==> Within(root, p, incl);
    CancelNothing(s.queue, root, incl);
    CancelNoDirs(s.dirs, root, incl);
    assert Without(s.fs, actions) == Without(s'.fs, actions[1..]);
  }

  lemma {:induction false} StreamTwoPhase(s: State, actions: seq<Action>)
    requires Stream(Native, s, actions).Some?
    requires StateUntouched(s, actions) && LowerOnly(actions)
    ensures Stream(Native, StateWithout(s, actions), Rest(actions)) == Stream(Native, s, actions)
    decreases |actions|
  {
    if actions == [] {
      assert Without(s.fs, actions) == s.fs;
      return;
    }
    var a, tail := actions[0], actions[1..];
    var s' := Step(Native, s, a).value;
    forall i, p | 0 <= i < |tail| && Names(tail[i], p)
      ensures !HitBySome(tail[i + 1..], p)
    {
      assert tail[i] == actions[i + 1] && tail[i + 1..] == actions[i + 2..];
    }
    HitTail(actions);
    if a.Put? {
      forall p | Names(a, p)
        ensures !HitBySome(tail, p)
      {
        assert tail == actions[0 + 1..];
      }
      PutWithout(s, tail, a);
      assert StateWithout(s, actions) == StateWithout(s, tail) by {
        assert Without(s.fs, actions) == Without(s.fs, tail);
      }
      assert Rest(actions)[0] == a && Rest(actions)[1..] == Rest(tail);
    } else {
      WhiteoutStep(s, actions);
    }
    StreamTwoPhase(s', tail);
  }

  /**
   When a layer applies and its whiteouts only concern lower layers, the result
   is the one of the two-phase reading: first delete everything the whiteouts
   name from the lower tree, then apply the other entries.
   */
  lemma StreamRefinesTwoPhase(fs: Tree, actions: seq<Action>)
    requires IsTree(fs) && LowerOnly(actions)
    requires ApplyActions(Native, fs, actions).Some?
    ensures ApplyActions(Native, Without(fs, actions), Rest(actions)) == ApplyActions(Native, fs, actions)
  {
    var s0 := State(fs, [], []);
    FinishOfStream(fs, actions);
    StreamTwoPhase(s0, actions);
  }

  /**
   Without that condition the two readings differ: an opaque whiteout that comes
   after an entry of its own layer also deletes that entry.
   */
  lemma StreamHidesOwnEntry(inode: Inode)
    ensures var actions := [Put(["a"], Directory), Put(["a", "x"], Object(inode)), Clear(["a"])];
            && ApplyActions(Native, map[], actions).Some?
            && ApplyActions(Native, Without(map[], actions), Rest(actions)).Some?
            && ["a", "x"] !in ApplyActions(Native, map[], actions).value.fs
            && ["a", "x"] in ApplyActions(Native, Without(map[], actions), Rest(actions)).value.fs
  {
    var p, q: Path := ["a"], ["a", "x"];
    var put1, put2 := Put(p, Directory), Put(q, Object(inode));
    var actions := [put1, put2, Clear(p)];
    var fs0: Tree := map[];
    assert Without(fs0, actions) == fs0;
    var s0 := State(fs0, [], []);
    var fs1 := WithParents(fs0, p)[p := Dir];
    var s1 := State(fs1, [], [p]);
    assert !LeafAbove(fs0, p) && Resolve(Native, fs1, []) == Done(fs1, []);
    assert ApplyEntry(Native, fs0, [], p, Directory) == Done(fs1, []);
    assert [] + [p] == [p];
    assert Step(Native, s0, put1) == Some(s1);
    var fs2 := WithParents(fs1, q)[q := Leaf(inode)];
    assert !LeafAbove(fs1, q) by {
      forall r | r < q && r in fs1 ensures fs1[r].Dir? {
        assert r == p;
      }
    }
    assert q !in fs1 && Resolve(Native, fs2, []) == Done(fs2, []);
    var s2 := State(fs2, [], [p]);
    assert Step(Native, s1, put2) == Some(s2);
    var s3 := Step(Native, s2, Clear(p)).value;
    assert s3.queue == [];
    StreamThree(s0, put1, put2, Clear(p));
    RestOfThree(put1, put2, Clear(p));
    StreamTwo(s0, put1, put2);
    assert Resolve(Native, s3.fs, []) == Done(s3.fs, []);
  }

  lemma StreamTwo(s: State, a: Action, b: Action)
    requires Step(Native, s, a).Some?
    ensures Stream(Native, s, [a, b]) == Step(Native, Step(Native, s, a).value, b)
  {
    var both, last := [a, b], [b];
    assert both[1..] == last && last[1..] == [];
    assert Stream(Native, s, both) == Stream(Native, Step(Native, s, a).value, last);
    var s' := Step(Native, s, a).value;
    assert Step(Native, s', b).Some? ==> Stream(Native, s', last) == Stream(Native, Step(Native, s', b).value, []);
  }

  lemma RestOfThree(a: Action, b: Action, c: Action)
    requires a.Put? && b.Put? && c.Clear?
    ensures Rest([a, b, c]) == [a, b]
  {
    var three, two, one := [a, b, c], [b, c], [c];
    assert three[1..] == two && two[1..] == one && one[1..] == [];
    assert Rest(one) == [] && Rest(two) == [b] + Rest(one);
  }

  lemma StreamThree(s: State, a: Action, b: Action, c: Action)
    requires Step(Native, s, a).Some? && Step(Native, Step(Native, s, a).value, b).Some?
    ensures Stream(Native, s, [a, b, c]) == Step(Native, Step(Native, Step(Native, s, a).value, b).value, c)
  {
    assert [a, b, c][1..] == [b, c];
    StreamTwo(Step(Native, s, a).value, b, c);
  }

  // ---------- Deferred directory metadata ----------

  /** The `i`th entry is a directory entry for `d`, and no later whiteout removes `d`. */
  ghost predicate RecordsAt(actions: seq<Action>, i: int, d: Path) {
    0 <= i < |actions| && actions[i] == Put(d, Directory) && !HitBySome(actions[i + 1..], d)
  }

  ghost predicate Recorded(actions: seq<Action>, d: Path) {
    exists i :: RecordsAt(actions, i, d)
  }

  /**
   The records left for the metadata pass are exactly the directory entries that
   no later whiteout of the layer deletes.
   */
  lemma {:induction false} RecordedDirs(s: State, actions: seq<Action>, d: Path)
    requires Stream(Native, s, actions).Some?
    ensures d in Stream(Native, s, actions).value.dirs <==>
              || (d in s.dirs && !HitBySome(actions, d))
              || Recorded(actions, d)
    decreases |actions|
  {
    if actions == [] {
      return;
    }
    var a, tail := actions[0], actions[1..];
    var s' := Step(Native, s, a).value;
    RecordedDirs(s', tail, d);
    HitSplit(actions, d);
    if i :| RecordsAt(tail, i, d) {
      RecordsLater(actions, i + 1, d);
    }
    if i :| RecordsAt(actions, i, d) && i > 0 {
      RecordsLater(actions, i, d);
      assert RecordsAt(tail, i - 1, d);
    }
    assert RecordsAt(actions, 0, d) <==> a == Put(d, Directory) && !HitBySome(tail, d);
  }

  lemma RecordsLater(actions: seq<Action>, i: int, d: Path)
    requires 0 < i <= |actions|
    ensures RecordsAt(actions, i, d) <==> RecordsAt(actions[1..], i - 1, d)
  {
    if i < |actions| {
      assert actions[1..][i - 1..][1..] == actions[i + 1..];
      assert actions[1..][i - 1 + 1..] == actions[i + 1..];
    }
  }
}
