/**
 Applying one image layer (`internal/image/oci.go`, `deferred_hardlink.go`) as
 functions on values: entries and whiteouts in stream order, the queue of
 pending hard links, and the directories whose metadata is restored at the end.
 */
module LayerStream {
  import opened Wrappers
  import opened Tree
  import opened DeferredLinks

  /** `HardLink(None, _)` is a link whose link name the path check refuses. */
  datatype Body =
    | Directory
    | Object(inode: Inode)
    | HardLink(source: Option<Path>, meta: Metadata)
    | Unsupported

  /**
   A tar entry with its name split into directory and last component. A name
   the path check refuses is marked `unsafe`; the root entry "./" has base ".".
   */
  datatype Entry = Entry(dir: Path, base: string, unsafe: bool, body: Body)

  const WHITEOUT_PREFIX := ".wh."
  const WHITEOUT_OPAQUE := ".wh..wh..opq"

  datatype Action = Refuse | Clear(dir: Path) | Remove(path: Path) | Put(path: Path, body: Body)

  /** Joins a whiteout's directory and name as a lexical path join does. */
  function JoinWhiteout(dir: Path, deleted: string): Option<Path> {
    if deleted == "" || deleted == "." then Some(dir)
    else if deleted == ".." then
      if dir == [] then None else Some(dir[..|dir| - 1])
    else Some(dir + [deleted])
  }

  function Classify(e: Entry): Action {
    if e.unsafe then Refuse
    else if e.base == WHITEOUT_OPAQUE then Clear(e.dir)
    else if WHITEOUT_PREFIX <= e.base then
      match JoinWhiteout(e.dir, e.base[|WHITEOUT_PREFIX|..])
      case None => Refuse
      case Some(p) => Remove(p)
    else Put(if e.base == "." then e.dir else e.dir + [e.base], e.body)
  }

  /**
   A whiteout names the entry beside it that is called what follows the prefix,
   exactly if that is a proper name. `.wh.` and `.wh..` name their own directory
   and `.wh...` the one above it, or nothing at the root.
   */
  lemma WhiteoutNames(e: Entry)
    requires !e.unsafe && WHITEOUT_PREFIX <= e.base && e.base != WHITEOUT_OPAQUE
    ensures var name := e.base[|WHITEOUT_PREFIX|..];
            && (Classify(e) == Remove(e.dir + [name]) <==> name != "" && name != "." && name != "..")
            && (Classify(e) == Remove(e.dir) <==> name == "" || name == ".")
            && (e.dir != [] ==> (Classify(e) == Remove(e.dir[..|e.dir| - 1]) <==> name == ".."))
            && (Classify(e) == Refuse <==> name == ".." && e.dir == [])
  {
    var name := e.base[|WHITEOUT_PREFIX|..];
    assert |e.dir + [name]| == |e.dir| + 1 && e.dir == (e.dir + [name])[..|e.dir|];
    assert |"."| == 1 && |".."| == 2;
    if e.dir != [] {
      assert |e.dir[..|e.dir| - 1]| == |e.dir| - 1;
    }
  }

  /** Such a whiteout in a directory of the layer removes that directory. */
  lemma WhiteoutOfDirectory(d: string)
    ensures Classify(Entry([d], ".wh.", false, Unsupported)) == Remove([d])
    ensures Classify(Entry([d], ".wh...", false, Unsupported)) == Remove([])
  {
    assert ".wh."[4..] == "" && ".wh..."[4..] == "..";
    assert |".wh."| == 4 && |".wh..."| == 6 && |WHITEOUT_OPAQUE| == 12;
    assert WHITEOUT_PREFIX == ".wh..."[..4];
    assert [d][..0] == [];
  }

  // ---------- Files ----------

  /** Creates one entry that is not a hard link; None when it is refused. */
  ghost function CreateNode(fs: Tree, p: Path, body: Body): Option<Tree>
    requires !body.HardLink?
  {
    if body.Unsupported? || p == [] || LeafAbove(fs, p) then None
    else match body
      case Directory =>
        if p !in fs then Some(WithParents(fs, p)[p := Dir])
        else if fs[p].Dir? then Some(fs)
        else if fs[p].inode.kind.Symlink? then Some(fs[p := Dir])
        else None
      case Object(inode) =>
        if p in fs && fs[p].Dir? then None
        else Some(WithParents(fs, p)[p := Leaf(inode)])
  }

  /** Removes a whiteout's target. Only a missing parent is tolerated. */
  ghost function RemoveTarget(fs: Tree, p: Path): Option<Tree> {
    if p == [] || LeafAbove(fs, p) then None else Some(RemoveSubtree(fs, p))
  }

  // ---------- One entry ----------

  datatype State = State(fs: Tree, queue: seq<Link>, dirs: seq<Path>)

  function Within(root: Path, p: Path, includeRoot: bool): bool {
    root <= p && (includeRoot || p != root)
  }

  function CancelTarget(q: seq<Link>, target: Path): (r: seq<Link>)
    ensures forall l :: l in r <==> l in q && l.target != target
  {
    if q == [] then []
    else if q[0].target == target then CancelTarget(q[1..], target)
    else [q[0]] + CancelTarget(q[1..], target)
  }

  function CancelSubtree(q: seq<Link>, root: Path, includeRoot: bool): (r: seq<Link>)
    ensures forall l :: l in r <==> l in q && !Within(root, l.target, includeRoot)
  {
    if q == [] then []
    else if Within(root, q[0].target, includeRoot) then CancelSubtree(q[1..], root, includeRoot)
    else [q[0]] + CancelSubtree(q[1..], root, includeRoot)
  }

  function CancelDirs(dirs: seq<Path>, root: Path, includeRoot: bool): (r: seq<Path>)
    ensures forall d :: d in r <==> d in dirs && !Within(root, d, includeRoot)
  {
    if dirs == [] then []
    else if Within(root, dirs[0], includeRoot) then CancelDirs(dirs[1..], root, includeRoot)
    else [dirs[0]] + CancelDirs(dirs[1..], root, includeRoot)
  }

  function CancelForEntry(q: seq<Link>, target: Path, body: Body): seq<Link> {
    if body.Directory? then CancelTarget(q, target) else CancelSubtree(q, target, true)
  }

  /** A later entry first cancels what it shadows, then waiting links are retried. */
  ghost function ApplyEntry(k: Linking, fs: Tree, q: seq<Link>, target: Path, body: Body): Outcome {
    var q' := CancelForEntry(q, target, body);
    match body
    case HardLink(None, _) => Failed
    case HardLink(Some(source), meta) =>
      (match TryLink(k, fs, Link(target, source, meta))
       case Linked(fs', _) => Resolve(k, fs', q')
       case SourceMissing(fs') => Done(fs', q' + [Link(target, source, meta)])
       case LinkFailed => Failed)
    case _ =>
      (match CreateNode(fs, target, body)
       case Some(fs') => Resolve(k, fs', q')
       case None => Failed)
  }

  ghost function Step(k: Linking, s: State, a: Action): Option<State> {
    match a
    case Refuse => None
    case Clear(dir) =>
      Some(State(RemoveBelow(s.fs, dir), CancelSubtree(s.queue, dir, false), CancelDirs(s.dirs, dir, false)))
    case Remove(p) =>
      (match RemoveTarget(s.fs, p)
       case None => None
       case Some(fs') => Some(State(fs', CancelSubtree(s.queue, p, true), CancelDirs(s.dirs, p, true))))
    case Put(p, body) =>
      (match ApplyEntry(k, s.fs, s.queue, p, body)
       case Failed => None
       case Done(fs', q') => Some(State(fs', q', if body.Directory? then s.dirs + [p] else s.dirs)))
  }

  ghost function Stream(k: Linking, s: State, actions: seq<Action>): Option<State>
    decreases |actions|
  {
    if actions == [] then Some(s)
    else match Step(k, s, actions[0])
      case None => None
      case Some(s') => Stream(k, s', actions[1..])
  }

  /** After the last entry every pending link must resolve. */
  ghost function Finish(k: Linking, s: State): Option<State> {
    match Resolve(k, s.fs, s.queue)
    case Failed => None
    case Done(fs', kept) => if kept == [] then Some(State(fs', [], s.dirs)) else None
  }

  function Actions(entries: seq<Entry>): seq<Action> {
    seq(|entries|, i requires 0 <= i < |entries| => Classify(entries[i]))
  }

  /** Entries, then the queue; the metadata pass follows on the result's `dirs`. */
  ghost function ApplyActions(k: Linking, fs: Tree, actions: seq<Action>): Option<State> {
    match Stream(k, State(fs, [], []), actions)
    case None => None
    case Some(s) => Finish(k, s)
  }

  ghost function ApplyLayer(k: Linking, fs: Tree, entries: seq<Entry>): Option<State> {
    ApplyActions(k, fs, Actions(entries))
  }

  // ---------- Trees and directories are kept ----------

  ghost predicate KeepsDirs(fs: Tree, fs': Tree) {
    forall p | p in fs && fs[p].Dir? :: p in fs' && fs'[p].Dir?
  }

  lemma CreateNodeKeeps(fs: Tree, p: Path, body: Body)
    requires IsTree(fs) && !body.HardLink? && CreateNode(fs, p, body).Some?
    ensures IsTree(CreateNode(fs, p, body).value)
    ensures KeepsDirs(fs, CreateNode(fs, p, body).value)
    ensures body.Directory? ==> IsDir(CreateNode(fs, p, body).value, p)
    ensures forall q | q in CreateNode(fs, p, body).value && q !in fs :: q == p || [] < q < p
  {
    var n := if body.Directory? then Dir else Leaf(body.inode);
    PlacedIsTree(fs, p, n);
    if p in fs {
      assert WithParents(fs, p) == fs by {
        forall q | [] < q < p
          ensures q in fs
        {
          AboveIsDir(fs, q, p);
        }
      }
    }
  }

  lemma TryLinkKeeps(k: Linking, fs: Tree, l: Link)
    requires IsTree(fs) && !TryLink(k, fs, l).LinkFailed?
    ensures IsTree(TryLink(k, fs, l).fs) && KeepsDirs(fs, TryLink(k, fs, l).fs)
    ensures forall q | q in TryLink(k, fs, l).fs && q !in fs :: q == l.target || [] < q < l.target
  {
    if TryLink(k, fs, l).Linked? {
      PlacedIsTree(fs, l.target, Leaf(fs[l.source].inode));
    } else if TryLink(k, fs, l).fs != fs {
      WithParentsIsTree(fs, l.target);
    }
  }

  lemma {:induction false} PassKeeps(k: Linking, fs: Tree, q: seq<Link>)
    requires IsTree(fs) && Pass(k, fs, q).Done?
    ensures IsTree(Pass(k, fs, q).fs) && KeepsDirs(fs, Pass(k, fs, q).fs)
    decreases |q|
  {
    if q != [] {
      TryLinkKeeps(k, fs, q[0]);
      PassKeeps(k, TryLink(k, fs, q[0]).fs, q[1..]);
    }
  }

  lemma {:induction false} ResolveKeeps(k: Linking, fs: Tree, q: seq<Link>)
    requires IsTree(fs) && Resolve(k, fs, q).Done?
    ensures IsTree(Resolve(k, fs, q).fs) && KeepsDirs(fs, Resolve(k, fs, q).fs)
    decreases |q|
  {
    PassKeeps(k, fs, q);
    var r := Pass(k, fs, q);
    if |r.kept| < |q| {
      ResolveKeeps(k, r.fs, r.kept);
    }
  }

  // ---------- The queue between entries ----------

  /** No later target equals or contains an earlier one. */
  ghost predicate Unshadowed(q: seq<Link>) {
    q == [] || ((forall l | l in q[1..] :: !(l.target <= q[0].target)) && Unshadowed(q[1..]))
  }

  ghost predicate AllMissing(fs: Tree, q: seq<Link>) {
    forall l | l in q :: LookupPath(fs, l.source) == NotExist
  }

  ghost predicate QueueInv(fs: Tree, q: seq<Link>) {
    AllMissing(fs, q) && Unshadowed(q)
  }

  /** `Unshadowed` by positions. */
  lemma {:induction false} UnshadowedAt(q: seq<Link>, i: nat, j: nat)
    requires Unshadowed(q) && i < j < |q|
    ensures !(q[j].target <= q[i].target)
    decreases |q|
  {
    assert q[j] == q[1..][j - 1];
    if i > 0 {
      assert q[i] == q[1..][i - 1];
      UnshadowedAt(q[1..], i - 1, j - 1);
    }
  }

  lemma UnshadowedDistinct(q: seq<Link>)
    requires Unshadowed(q)
    ensures DistinctTargets(q)
  {
    forall i, j | 0 <= i < j < |q|
      ensures q[i].target != q[j].target
    {
      UnshadowedAt(q, i, j);
    }
  }

  lemma {:induction false} UnshadowedFiltered(q: seq<Link>, gone: set<Path>)
    requires Unshadowed(q)
    ensures Unshadowed(Filtered(q, gone))
    decreases |q|
  {
    if q != [] { UnshadowedFiltered(q[1..], gone); }
  }

  lemma {:induction false} UnshadowedCancelled(q: seq<Link>, p: Path, includeRoot: bool)
    requires Unshadowed(q)
    ensures Unshadowed(CancelTarget(q, p)) && Unshadowed(CancelSubtree(q, p, includeRoot))
    decreases |q|
  {
    if q != [] { UnshadowedCancelled(q[1..], p, includeRoot); }
  }

  lemma {:induction false} UnshadowedAppend(q: seq<Link>, l: Link)
    requires Unshadowed(q) && forall x | x in q :: !(l.target <= x.target)
    ensures Unshadowed(q + [l])
    decreases |q|
  {
    if q != [] {
      UnshadowedAppend(q[1..], l);
      assert (q + [l])[1..] == q[1..] + [l];
    }
  }

  /** After the fixpoint every kept link's source is missing. */
  lemma {:induction false} ResolveLeavesMissing(fs: Tree, q: seq<Link>)
    requires Resolve(Native, fs, q).Done?
    ensures AllMissing(Resolve(Native, fs, q).fs, Resolve(Native, fs, q).kept)
    decreases |q|
  {
    var r := Pass(Native, fs, q);
    if |r.kept| == |q| {
      PassStuck(fs, q);
      forall l | l in q
        ensures LookupPath(fs, l.source) == NotExist
      {
        MissingMeans(fs, l);
      }
    } else {
      ResolveLeavesMissing(r.fs, r.kept);
    }
  }

  /** With all sources missing the loop changes nothing. */
  lemma ResolveIdle(fs: Tree, q: seq<Link>)
    requires AllMissing(fs, q)
    ensures Resolve(Native, fs, q) == Done(fs, q)
  {
    PassAllMissing(fs, q);
  }

  /** Links whose sources were missing are ready in a tree that gained one name and directories above it. */
  lemma MissingMakesReady(fs: Tree, q: seq<Link>, target: Path, fs': Tree)
    requires DistinctTargets(q) && AllMissing(fs, q) && forall l | l in q :: l.target != target
    requires forall p | p in fs' && p !in fs :: p == target || (p in fs' && fs'[p].Dir?)
    ensures Ready(fs', Pending(q))
  {
    var m := Pending(q);
    forall t, u | t in m && u in m && m[t].source == u && u in fs'
      ensures fs'[u].Dir?
    {
      assert m[t] in q && m[u] in q;
      assert LookupPath(fs, u) == NotExist;
    }
  }

  /** What `ApplyEntry` hands to the fixpoint loop satisfies its assumption. */
  lemma EntryMakesReady(fs: Tree, q: seq<Link>, target: Path, body: Body, fs': Tree)
    requires QueueInv(fs, q)
    requires forall p | p in fs' && p !in fs :: p == target || [] < p < target
    requires forall p | [] < p < target && p in fs' :: fs'[p].Dir?
    ensures var q' := CancelForEntry(q, target, body);
            Unshadowed(q') && DistinctTargets(q') && Ready(fs', Pending(q'))
  {
    var q' := CancelForEntry(q, target, body);
    UnshadowedCancelled(q, target, true);
    UnshadowedDistinct(q');
    MissingMakesReady(fs, q', target, fs');
  }

  /** The part of `ApplyEntry` before the fixpoint loop, when it is reached. */
  ghost function Placed(k: Linking, fs: Tree, target: Path, body: Body): Option<Tree> {
    match body
    case HardLink(None, _) => None
    case HardLink(Some(source), meta) =>
      var t := TryLink(k, fs, Link(target, source, meta));
      if t.Linked? then Some(t.fs) else None
    case _ => CreateNode(fs, target, body)
  }

  lemma PlacedKeeps(k: Linking, fs: Tree, target: Path, body: Body)
    requires IsTree(fs) && Placed(k, fs, target, body).Some?
    ensures target != []
    ensures IsTree(Placed(k, fs, target, body).value) && KeepsDirs(fs, Placed(k, fs, target, body).value)
    ensures forall q | q in Placed(k, fs, target, body).value && q !in fs :: q == target || [] < q < target
    ensures forall q | [] < q < target ::
        q in Placed(k, fs, target, body).value && Placed(k, fs, target, body).value[q].Dir?
    ensures target in Placed(k, fs, target, body).value
    ensures body.Directory? ==> IsDir(Placed(k, fs, target, body).value, target)
  {
    if body.HardLink? {
      TryLinkKeeps(k, fs, Link(target, body.source.value, body.meta));
    } else {
      CreateNodeKeeps(fs, target, body);
    }
    var fs' := Placed(k, fs, target, body).value;
    forall q | [] < q < target
      ensures q in fs' && fs'[q].Dir?
    {
      AboveIsDir(fs', q, target);
    }
  }

  lemma ApplyEntryKeeps(fs: Tree, q: seq<Link>, target: Path, body: Body)
    requires IsTree(fs) && QueueInv(fs, q) && ApplyEntry(Native, fs, q, target, body).Done?
    ensures var r := ApplyEntry(Native, fs, q, target, body);
            && IsTree(r.fs) && QueueInv(r.fs, r.kept) && KeepsDirs(fs, r.fs)
            && (body.Directory? ==> target != [] && IsDir(r.fs, target))
  {
    var q' := CancelForEntry(q, target, body);
    UnshadowedCancelled(q, target, true);
    if Placed(Native, fs, target, body).None? {
      UnshadowedAppend(q', Link(target, body.source.value, body.meta));
    } else {
      var fs' := Placed(Native, fs, target, body).value;
      PlacedKeeps(Native, fs, target, body);
      EntryMakesReady(fs, q, target, body, fs');
      ResolveCharacterised(fs', q');
      ResolveKeeps(Native, fs', q');
      ResolveLeavesMissing(fs', q');
      UnshadowedFiltered(q', Ends(fs', Pending(q')).Keys);
    }
  }

  // ---------- Whatever the process can link ----------

  ghost predicate DirsExist(fs: Tree, dirs: seq<Path>) {
    forall d | d in dirs :: d in fs && fs[d].Dir?
  }

  lemma EntryKeepsTree(k: Linking, fs: Tree, q: seq<Link>, target: Path, body: Body)
    requires IsTree(fs) && ApplyEntry(k, fs, q, target, body).Done?
    ensures var r := ApplyEntry(k, fs, q, target, body);
            && IsTree(r.fs) && KeepsDirs(fs, r.fs) && (body.Directory? ==> target != [] && IsDir(r.fs, target))
  {
    if Placed(k, fs, target, body).None? {
      TryLinkKeeps(k, fs, Link(target, body.source.value, body.meta));
    } else {
      PlacedKeeps(k, fs, target, body);
      ResolveKeeps(k, Placed(k, fs, target, body).value, CancelForEntry(q, target, body));
    }
  }

  /** The tree stays a tree with every recorded directory in it. */
  lemma {:induction false} StreamKeepsTree(k: Linking, s: State, actions: seq<Action>)
    requires IsTree(s.fs) && DirsExist(s.fs, s.dirs) && Stream(k, s, actions).Some?
    ensures IsTree(Stream(k, s, actions).value.fs)
    ensures DirsExist(Stream(k, s, actions).value.fs, Stream(k, s, actions).value.dirs)
    decreases |actions|
  {
    if actions != [] {
      var a := actions[0];
      if a.Put? {
        EntryKeepsTree(k, s.fs, s.queue, a.path, a.body);
      } else {
        RemoveSubtreeIsTree(s.fs, if a.Clear? then a.dir else a.path);
      }
      StreamKeepsTree(k, Step(k, s, a).value, actions[1..]);
    }
  }

  /** Directory finalization finds every recorded directory. */
  ghost predicate Finalizable(fs: Tree, dirs: seq<Path>) {
    forall d | d in dirs :: LookupPath(fs, d) == Found(Dir)
  }

  lemma ExistingFinalizable(fs: Tree, dirs: seq<Path>)
    requires IsTree(fs) && DirsExist(fs, dirs)
    ensures Finalizable(fs, dirs)
  {
    forall d | d in dirs
      ensures LookupPath(fs, d) == Found(Dir)
    {
      ExistingHasNoLeafAbove(fs, d);
    }
  }

  /** So the metadata pass after a layer that applies cannot miss one. */
  lemma FinishKeepsDirs(k: Linking, fs: Tree, actions: seq<Action>)
    requires IsTree(fs) && ApplyActions(k, fs, actions).Some?
    ensures var r := ApplyActions(k, fs, actions).value;
            IsTree(r.fs) && Finalizable(r.fs, r.dirs)
  {
    var s0 := State(fs, [], []);
    StreamKeepsTree(k, s0, actions);
    var s := Stream(k, s0, actions).value;
    ResolveKeeps(k, s.fs, s.queue);
    ExistingFinalizable(Resolve(k, s.fs, s.queue).fs, s.dirs);
  }

  // ---------- The invariant of the archive loop ----------

  ghost predicate Inv(s: State) {
    IsTree(s.fs) && QueueInv(s.fs, s.queue) && DirsExist(s.fs, s.dirs)
  }

  lemma RemovalKeepsMissing(fs: Tree, fs': Tree, p: Path)
    requires IsTree(fs) && LookupPath(fs, p) == NotExist
    requires forall q | q in fs' :: q in fs && fs'[q] == fs[q]
    ensures LookupPath(fs', p) == NotExist
  {
    forall q | q < p && q in fs'
      ensures fs'[q].Dir?
    {
      assert !(q in fs && fs[q].Leaf?);
    }
  }

  /**
   Every entry handled without error keeps the tree a tree, keeps the queue's
   sources missing and its targets unshadowed, and keeps every recorded
   directory a directory.
   */
  lemma StepKeepsInv(s: State, a: Action)
    requires Inv(s) && Step(Native, s, a).Some?
    ensures Inv(Step(Native, s, a).value)
  {
    var s' := Step(Native, s, a).value;
    match a
    case Put(p, body) =>
      ApplyEntryKeeps(s.fs, s.queue, p, body);
    case Clear(dir) =>
      RemoveSubtreeIsTree(s.fs, dir);
      UnshadowedCancelled(s.queue, dir, false);
      forall l | l in s'.queue ensures LookupPath(s'.fs, l.source) == NotExist {
        RemovalKeepsMissing(s.fs, s'.fs, l.source);
      }
    case Remove(p) =>
      RemoveSubtreeIsTree(s.fs, p);
      UnshadowedCancelled(s.queue, p, true);
      forall l | l in s'.queue ensures LookupPath(s'.fs, l.source) == NotExist {
        RemovalKeepsMissing(s.fs, s'.fs, l.source);
      }
  }

  lemma {:induction false} StreamKeepsInv(s: State, actions: seq<Action>)
    requires Inv(s) && Stream(Native, s, actions).Some?
    ensures Inv(Stream(Native, s, actions).value)
    decreases |actions|
  {
    if actions != [] {
      StepKeepsInv(s, actions[0]);
      StreamKeepsInv(Step(Native, s, actions[0]).value, actions[1..]);
    }
  }

  /**
   After the stream the queue is idle, so finishing succeeds exactly when the
   queue is empty, and the directory metadata pass then finds every directory.
   */
  lemma FinishOfStream(fs: Tree, actions: seq<Action>)
    requires IsTree(fs)
    ensures var r := Stream(Native, State(fs, [], []), actions);
            && (r.Some? ==> Inv(r.value))
            && (ApplyActions(Native, fs, actions).Some? <==> r.Some? && r.value.queue == [])
            && (ApplyActions(Native, fs, actions).Some? ==>
                  && ApplyActions(Native, fs, actions) == r
                  && IsTree(r.value.fs)
                  && Finalizable(r.value.fs, r.value.dirs))
  {
    var s0 := State(fs, [], []);
    var r := Stream(Native, s0, actions);
    if r.Some? {
      StreamKeepsInv(s0, actions);
      ResolveIdle(r.value.fs, r.value.queue);
      ExistingFinalizable(r.value.fs, r.value.dirs);
    }
  }
}
