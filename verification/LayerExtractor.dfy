/**
 The extractor in the program's own form: a root filesystem changed in place, a
 queue object whose methods filter and replace its entries, and the loop over
 the layer stream. Each method is tied to the functions of `DeferredLinks` and
 `LayerStream`, about which the theorems are stated.
 */
module LayerExtractor {
  import opened Wrappers
  import opened Tree
  import opened DeferredLinks
  import opened LayerStream
  import opened StagingNames

  datatype OpenStatus = Opened | ParentMissing | ParentNotDir | OutsideRoot

  datatype LinkStatus = LinkCreated | LinkMissing | LinkRefused

  // ---------- Lemmas on the walk to a parent ----------

  lemma ParentsOfExisting(fs: Tree, p: Path)
    requires IsTree(fs) && p in fs
    ensures WithParents(fs, p) == fs
  {
    forall q | [] < q < p
      ensures q in fs
    {
      AboveIsDir(fs, q, p);
    }
    assert WithParents(fs, p).Keys == fs.Keys;
  }

  /** What is above the next directory is above this one, or this one itself. */
  lemma BeforeNext(part: Path, next: Path, q: Path)
    requires part < next && |next| == |part| + 1 && q < next
    ensures q < part || q == part
  {
    assert q == next[..|q|] && part == next[..|part|];
    if |q| < |part| {
      assert part[..|q|] == q;
    }
  }

  lemma WithParentsNext(fs: Tree, part: Path, next: Path)
    requires [] < part < next && |next| == |part| + 1
    ensures part in fs ==> WithParents(fs, next) == WithParents(fs, part)
    ensures part !in fs ==> WithParents(fs, next) == WithParents(fs, part)[part := Dir]
  {
    var a, b := WithParents(fs, next), WithParents(fs, part);
    forall q
      ensures q in a <==> q in b || q == part
    {
      if q < next {
        BeforeNext(part, next, q);
      }
      assert q < part ==> q < next;
    }
    assert part in fs ==> a.Keys == b.Keys;
    assert part !in fs ==> a.Keys == b.Keys + {part};
  }

  /** One step of the walk: the component is created, in the way, or a directory. */
  lemma WalkStep(fs: Tree, nodes: Tree, target: Path, k: nat)
    requires IsTree(fs) && k + 1 < |target|
    requires nodes == WithParents(fs, target[..k + 1]) && !LeafAbove(fs, target[..k + 1])
    ensures var part, next := target[..k + 1], target[..k + 2];
            if part !in nodes then
              && part !in fs && !LeafAbove(fs, next)
              && nodes[part := Dir] == WithParents(fs, next) && IsTree(nodes[part := Dir])
            else if nodes[part].Leaf? then nodes == fs && LeafAbove(fs, target)
            else nodes == WithParents(fs, next) && !LeafAbove(fs, next)
  {
    var part, next := target[..k + 1], target[..k + 2];
    assert part < target && part < next;
    forall q | q in fs && q < next
      ensures q < part || q == part
    {
      BeforeNext(part, next, q);
    }
    WithParentsNext(fs, part, next);
    if part in fs {
      ParentsOfExisting(fs, part);
    } else {
      WithParentsIsTree(fs, next);
    }
  }

  /** Below a missing path nothing exists, so no leaf can be in the way there. */
  lemma MissingBelow(fs: Tree, part: Path, target: Path)
    requires IsTree(fs) && part !in fs && [] < part < target && !LeafAbove(fs, part)
    ensures !LeafAbove(fs, target)
    ensures !ParentIsDir(fs, target)
  {
    forall q | q < target && q in fs
      ensures |q| < |part|
      ensures q < part
    {
      PrefixOfPrefix(part, q, target);
      assert |q| == |part| && part <= q ==> q == part;
      if part < q { AboveIsDir(fs, part, q); }
    }
    assert target[..|target| - 1] < target;
  }

  lemma NothingBelowLeaf(fs: Tree, p: Path)
    requires IsTree(fs) && p != [] && (LeafAbove(fs, p) || p !in fs || fs[p].Leaf?)
    ensures RemoveBelow(fs, p) == fs
  {
    forall q | q in fs
      ensures !(p < q)
    {
      if p < q {
        AboveIsDir(fs, p, q);
        ExistingHasNoLeafAbove(fs, p);
      }
    }
  }

  /** The extraction root. `staged` lists the targets beside which a staging name was left. */
  class RootFS {
    const linking: Linking
    var nodes: Tree
    var staged: seq<Path>

    constructor (fs: Tree, linking: Linking)
      ensures nodes == fs && staged == [] && this.linking == linking
    {
      this.linking := linking;
      nodes := fs;
      staged := [];
    }

    /** Opens one directory on the way to `target`, or creates it. */
    method EnterComponent(target: Path, k: nat, create: bool, ghost fs: Tree) returns (r: OpenStatus)
      requires k + 1 < |target| && IsTree(fs) && IsTree(nodes)
      requires nodes == WithParents(fs, target[..k + 1]) && !LeafAbove(fs, target[..k + 1])
      requires !create ==> nodes == fs
      modifies this`nodes
      ensures r != OutsideRoot
      ensures r == Opened ==>
                && IsTree(nodes) && IsDir(nodes, target[..k + 1])
                && nodes == WithParents(fs, target[..k + 2]) && !LeafAbove(fs, target[..k + 2])
                && (!create ==> nodes == fs)
      ensures r == ParentMissing ==> !create && nodes == fs && !LeafAbove(fs, target) && !ParentIsDir(fs, target)
      ensures r == ParentNotDir ==> nodes == fs && LeafAbove(fs, target)
    {
      var part := target[..k + 1];
      WalkStep(fs, nodes, target, k);
      if part !in nodes {
        if !create {
          MissingBelow(fs, part, target);
          return ParentMissing;
        }
        nodes := nodes[part := Dir];
      } else if nodes[part].Leaf? {
        return ParentNotDir;
      }
      return Opened;
    }

    /** Walks to the parent of `target`, creating missing parents on request. */
    method OpenParent(target: Path, create: bool) returns (r: OpenStatus)
      requires IsTree(nodes)
      modifies this`nodes
      ensures r == OutsideRoot <==> target == []
      ensures r == ParentNotDir <==> LeafAbove(old(nodes), target)
      ensures r == ParentMissing
          <==> !create && target != [] && !LeafAbove(old(nodes), target) && !ParentIsDir(old(nodes), target)
      ensures nodes == if create && r == Opened then WithParents(old(nodes), target) else old(nodes)
    {
      if target == [] {
        return OutsideRoot;
      }
      ghost var fs := nodes;
      TopLevel(fs, target[..1]);
      var k := 0;
      while k < |target| - 1
        invariant 0 <= k < |target|
        invariant IsTree(nodes) && IsDir(nodes, target[..k])
        invariant nodes == WithParents(fs, target[..k + 1])
        invariant !create ==> nodes == fs
        invariant !LeafAbove(fs, target[..k + 1])
      {
        var entered := EnterComponent(target, k, create, fs);
        if entered != Opened {
          return entered;
        }
        k := k + 1;
      }
      assert target[..k] == target[..|target| - 1] && target[..k + 1] == target;
      return Opened;
    }

    /**
     One attempt at a hard link: the source is inspected before any change. The
     staged name is renamed to the target, which does nothing when both already
     are names of the same inode.
     */
    method CreateHardlink(l: Link) returns (r: LinkStatus)
      requires IsTree(nodes)
      modifies this
      ensures match TryLink(linking, old(nodes), l)
              case Linked(fs', left) =>
                && r == LinkCreated && nodes == fs' && IsTree(nodes)
                && staged == old(staged) + if left then [l.target] else []
              case SourceMissing(fs') => r == LinkMissing && nodes == fs' && IsTree(nodes) && staged == old(staged)
              case LinkFailed => r == LinkRefused
    {
      var source := OpenParent(l.source, false);
      if source == ParentMissing {
        ghost var parent := l.source[..|l.source| - 1];
        if l.source in nodes { AboveIsDir(nodes, parent, l.source); }
        return LinkMissing;
      }
      if source != Opened {
        return LinkRefused;
      }
      if l.source !in nodes {
        return LinkMissing;
      }
      if nodes[l.source].Dir? || !MetadataMatches(l.meta, nodes[l.source].inode.meta) {
        return LinkRefused;
      }
      var inode := nodes[l.source].inode;
      ghost var fs := nodes;
      var dest := OpenParent(l.target, true);
      if dest != Opened {
        return LinkRefused;
      }
      if l.target in nodes && nodes[l.target].Dir? {
        return LinkRefused;
      }
      if inode.kind.Symlink? && linking != Native {
        if linking == Hidden { TryLinkKeeps(linking, fs, l); }
        return if linking == Hidden then LinkMissing else LinkRefused;
      }
      TryLinkKeeps(linking, fs, l);
      if l.target in nodes && nodes[l.target] == Leaf(inode) {
        staged := staged + [l.target];
      }
      nodes := nodes[l.target := Leaf(inode)];
      return LinkCreated;
    }

    /** Creates a directory, file, symlink or special node. */
    method CreateEntry(p: Path, body: Body) returns (ok: bool)
      requires IsTree(nodes) && !body.HardLink?
      modifies this`nodes
      ensures ok == CreateNode(old(nodes), p, body).Some?
      ensures ok ==> nodes == CreateNode(old(nodes), p, body).value && IsTree(nodes)
    {
      if body.Unsupported? {
        return false;
      }
      ghost var fs := nodes;
      var parent := OpenParent(p, true);
      if parent != Opened {
        return false;
      }
      if p in fs { ParentsOfExisting(fs, p); }
      if CreateNode(fs, p, body).Some? { CreateNodeKeeps(fs, p, body); }
      match body
      case Directory =>
        if p in nodes {
          if nodes[p].Dir? {
            return true;
          }
          if !nodes[p].inode.kind.Symlink? {
            return false;
          }
        }
        nodes := nodes[p := Dir];
        return true;
      case Object(inode) =>
        if p in nodes && nodes[p].Dir? {
          return false;
        }
        nodes := nodes[p := Leaf(inode)];
        return true;
    }

    /** Removes a whiteout's target; a missing parent is not an error. */
    method RemoveWhiteout(p: Path) returns (ok: bool)
      requires IsTree(nodes)
      modifies this
      ensures ok == RemoveTarget(old(nodes), p).Some?
      ensures ok ==> nodes == RemoveTarget(old(nodes), p).value && IsTree(nodes)
      ensures ok ==> staged == Unswept(old(staged), Remove(p))
    {
      var parent := OpenParent(p, false);
      if parent == ParentMissing {
        ghost var above := p[..|p| - 1];
        forall q | q in nodes
          ensures !(p <= q)
        {
          if p <= q && above != [] { AboveIsDir(nodes, above, q); }
        }
        assert RemoveSubtree(nodes, p) == nodes;
        staged := Unswept(staged, Remove(p));
        return true;
      }
      if parent != Opened {
        return false;
      }
      RemoveSubtreeIsTree(nodes, p);
      nodes := RemoveSubtree(nodes, p);
      staged := Unswept(staged, Remove(p));
      return true;
    }

    /** Empties a directory; anything that is not one is left alone. */
    method ClearOpaque(dir: Path)
      requires IsTree(nodes)
      modifies this
      ensures nodes == RemoveBelow(old(nodes), dir) && IsTree(nodes)
      ensures staged == Unswept(old(staged), Clear(dir))
    {
      RemoveSubtreeIsTree(nodes, dir);
      staged := Unswept(staged, Clear(dir));
      if dir != [] {
        var parent := OpenParent(dir, false);
        if parent == ParentMissing {
          NothingBelowLeaf(nodes, dir);
          return;
        }
        if parent != Opened || dir !in nodes || nodes[dir].Leaf? {
          NothingBelowLeaf(nodes, dir);
          return;
        }
      }
      nodes := RemoveBelow(nodes, dir);
    }
  }

  // ---------- The queue ----------

  /** The links kept so far in front of what the rest of the pass yields. */
  ghost function After(kept: seq<Link>, rest: Outcome): Outcome {
    if rest.Done? then Done(rest.fs, kept + rest.kept) else Failed
  }

  lemma PassStep(k: Linking, fs: Tree, q: seq<Link>, i: nat, kept: seq<Link>)
    requires i < |q|
    ensures match TryLink(k, fs, q[i])
            case Linked(fs', _) => After(kept, Pass(k, fs, q[i..])) == After(kept, Pass(k, fs', q[i + 1..]))
            case SourceMissing(fs') => After(kept, Pass(k, fs, q[i..]))
                == After(kept + [q[i]], Pass(k, fs', q[i + 1..]))
            case LinkFailed => Pass(k, fs, q[i..]).Failed?
  {
    assert q[i..][0] == q[i] && q[i..][1..] == q[i + 1..];
    if TryLink(k, fs, q[i]).SourceMissing? && Pass(k, TryLink(k, fs, q[i]).fs, q[i + 1..]).Done? {
      var rest := Pass(k, TryLink(k, fs, q[i]).fs, q[i + 1..]).kept;
      assert kept + ([q[i]] + rest) == (kept + [q[i]]) + rest;
    }
  }

  lemma PassLeftStep(k: Linking, fs: Tree, q: seq<Link>, i: nat, staged: seq<Path>)
    requires i < |q|
    ensures match TryLink(k, fs, q[i])
            case Linked(fs', left) =>
              staged + PassLeft(k, fs, q[i..])
                  == (staged + if left then [q[i].target] else []) + PassLeft(k, fs', q[i + 1..])
            case SourceMissing(fs') => PassLeft(k, fs, q[i..]) == PassLeft(k, fs', q[i + 1..])
            case LinkFailed => true
  {
    assert q[i..][0] == q[i] && q[i..][1..] == q[i + 1..];
    var t := TryLink(k, fs, q[i]);
    if t.Linked? {
      Regroup(staged, if t.left then [q[i].target] else [], PassLeft(k, t.fs, q[i + 1..]));
    }
  }

  lemma PassEnds(k: Linking, fs: Tree, q: seq<Link>, i: nat, kept: seq<Link>, staged: seq<Path>)
    requires i == |q|
    ensures After(kept, Pass(k, fs, q[i..])) == Done(fs, kept) && staged + PassLeft(k, fs, q[i..]) == staged
  {
    assert q[i..] == [] && kept + [] == kept;
  }

  lemma Regroup(a: seq<Path>, b: seq<Path>, c: seq<Path>)
    ensures a + (b + c) == (a + b) + c
  {
  }

  lemma ResolveLeftUnfolds(k: Linking, fs: Tree, q: seq<Link>, staged: seq<Path>)
    ensures match Pass(k, fs, q)
            case Failed => true
            case Done(fs', kept) =>
              staged + ResolveLeft(k, fs, q) ==
              (staged + PassLeft(k, fs, q)) + if |kept| == |q| then [] else ResolveLeft(k, fs', kept)
  {
  }

  lemma CancelTargetStep(kept: seq<Link>, q: seq<Link>, i: nat, target: Path)
    requires i < |q|
    ensures kept + LayerStream.CancelTarget(q[i..], target) ==
            (if q[i].target == target then kept else kept + [q[i]]) + LayerStream.CancelTarget(q[i + 1..], target)
  {
    assert q[i..][0] == q[i] && q[i..][1..] == q[i + 1..];
  }

  lemma CancelSubtreeStep(kept: seq<Link>, q: seq<Link>, i: nat, root: Path, includeRoot: bool)
    requires i < |q|
    ensures kept + LayerStream.CancelSubtree(q[i..], root, includeRoot) ==
            (if Within(root, q[i].target, includeRoot) then kept else kept + [q[i]])
            + LayerStream.CancelSubtree(q[i + 1..], root, includeRoot)
  {
    assert q[i..][0] == q[i] && q[i..][1..] == q[i + 1..];
  }

  /** The links waiting for their source. */
  class DeferredHardlinks {
    var entries: seq<Link>

    constructor ()
      ensures entries == []
    {
      entries := [];
    }

    method CancelTarget(target: Path)
      modifies this
      ensures entries == LayerStream.CancelTarget(old(entries), target)
    {
      var kept: seq<Link> := [];
      var i := 0;
      assert entries[0..] == entries;
      while i < |entries|
        invariant 0 <= i <= |entries| && entries == old(entries)
        invariant kept + LayerStream.CancelTarget(entries[i..], target) == LayerStream.CancelTarget(entries, target)
      {
        CancelTargetStep(kept, entries, i, target);
        if entries[i].target != target {
          kept := kept + [entries[i]];
        }
        i := i + 1;
      }
      entries := kept;
    }

    method CancelSubtree(root: Path, includeRoot: bool)
      modifies this
      ensures entries == LayerStream.CancelSubtree(old(entries), root, includeRoot)
    {
      var kept: seq<Link> := [];
      var i := 0;
      assert entries[0..] == entries;
      while i < |entries|
        invariant 0 <= i <= |entries| && entries == old(entries)
        invariant kept + LayerStream.CancelSubtree(entries[i..], root, includeRoot)
               == LayerStream.CancelSubtree(entries, root, includeRoot)
      {
        CancelSubtreeStep(kept, entries, i, root, includeRoot);
        var within := root <= entries[i].target;
        if !includeRoot && root == entries[i].target {
          within := false;
        }
        if !within {
          kept := kept + [entries[i]];
        }
        i := i + 1;
      }
      entries := kept;
    }

    method CancelForEntry(target: Path, body: Body)
      modifies this
      ensures entries == LayerStream.CancelForEntry(old(entries), target, body)
    {
      if body.Directory? {
        CancelTarget(target);
      } else {
        CancelSubtree(target, true);
      }
    }

    method Add(l: Link)
      modifies this
      ensures entries == old(entries) + [l]
    {
      entries := entries + [l];
    }

    /** Retries the waiting links until a whole pass resolves none. */
    method ResolveAvailable(root: RootFS) returns (ok: bool)
      requires IsTree(root.nodes)
      modifies this, root
      ensures ok == Resolve(root.linking, old(root.nodes), old(entries)).Done?
      ensures ok ==> Done(root.nodes, entries) == Resolve(root.linking, old(root.nodes), old(entries))
      ensures ok ==> IsTree(root.nodes)
      ensures ok ==> root.staged == old(root.staged) + ResolveLeft(root.linking, old(root.nodes), old(entries))
    {
      ghost var goal, left :=
          Resolve(root.linking, root.nodes, entries), root.staged + ResolveLeft(root.linking, root.nodes, entries);
      while true
        invariant IsTree(root.nodes) && Resolve(root.linking, root.nodes, entries) == goal
        invariant root.staged + ResolveLeft(root.linking, root.nodes, entries) == left
        decreases |entries|
      {
        var progress := false;
        var kept: seq<Link> := [];
        ghost var pass, round := Pass(root.linking, root.nodes, entries), entries;
        ghost var passLeft := root.staged + PassLeft(root.linking, root.nodes, entries);
        ResolveLeftUnfolds(root.linking, root.nodes, entries, root.staged);
        assert entries[0..] == entries && After([], pass) == pass;
        var i := 0;
        while i < |entries|
          invariant 0 <= i <= |entries| && entries == round
          invariant IsTree(root.nodes) && |kept| <= i && (progress <==> |kept| < i)
          invariant pass == After(kept, Pass(root.linking, root.nodes, entries[i..]))
          invariant passLeft == root.staged + PassLeft(root.linking, root.nodes, entries[i..])
        {
          PassStep(root.linking, root.nodes, entries, i, kept);
          PassLeftStep(root.linking, root.nodes, entries, i, root.staged);
          var status := root.CreateHardlink(entries[i]);
          if status == LinkRefused {
            return false;
          }
          if status == LinkCreated {
            progress := true;
          } else {
            kept := kept + [entries[i]];
          }
          i := i + 1;
        }
        PassEnds(root.linking, root.nodes, entries, i, kept, root.staged);
        assert pass == Done(root.nodes, kept) && passLeft == root.staged;
        entries := kept;
        if !progress {
          return true;
        }
      }
    }

    /** A link that is still waiting at the end of the archive is an error. */
    method Finish(root: RootFS) returns (ok: bool)
      requires IsTree(root.nodes)
      modifies this, root
      ensures var r := Resolve(root.linking, old(root.nodes), old(entries));
              && ok == (r.Done? && r.kept == [])
              && (ok ==> root.nodes == r.fs && entries == [])
      ensures ok ==> root.staged == old(root.staged) + ResolveLeft(root.linking, old(root.nodes), old(entries))
    {
      ok := ResolveAvailable(root);
      return ok && |entries| == 0;
    }

    method ApplyTarEntry(target: Path, body: Body, root: RootFS) returns (ok: bool)
      requires IsTree(root.nodes)
      modifies this, root
      ensures ok == ApplyEntry(root.linking, old(root.nodes), old(entries), target, body).Done?
      ensures ok ==>
                Done(root.nodes, entries) == ApplyEntry(root.linking, old(root.nodes), old(entries), target, body)
      ensures ok ==>
                root.staged == old(root.staged) + EntryLeft(root.linking, old(root.nodes), old(entries), target, body)
      ensures ok ==> IsTree(root.nodes)
    {
      ghost var fs, q, staged := root.nodes, entries, root.staged;
      CancelForEntry(target, body);
      if body.HardLink? {
        if body.source.None? {
          return false;
        }
        var l := Link(target, body.source.value, body.meta);
        var status := root.CreateHardlink(l);
        if status == LinkRefused {
          return false;
        }
        if status == LinkMissing {
          Add(l);
          return true;
        }
      } else {
        var created := root.CreateEntry(target, body);
        if !created {
          return false;
        }
      }
      EntryRetries(root.linking, fs, q, target, body);
      EntryUnfolds(root.linking, fs, q, target, body);
      Regroup(staged, OwnName(root.linking, fs, target, body), ResolveLeft(root.linking, root.nodes, entries));
      ok := ResolveAvailable(root);
    }
  }

  // ---------- The layer ----------

  lemma CancelDirsStep(kept: seq<Path>, items: seq<Path>, i: nat, target: Path, includeRoot: bool)
    requires i < |items|
    ensures kept + CancelDirs(items[i..], target, includeRoot) ==
            (if Within(target, items[i], includeRoot) then kept else kept + [items[i]])
            + CancelDirs(items[i + 1..], target, includeRoot)
  {
    assert items[i..][0] == items[i] && items[i..][1..] == items[i + 1..];
  }

  method CancelDirectoryMetadata(items: seq<Path>, target: Path, includeRoot: bool) returns (kept: seq<Path>)
    ensures kept == CancelDirs(items, target, includeRoot)
  {
    kept := [];
    var i := 0;
    assert items[0..] == items;
    while i < |items|
      invariant 0 <= i <= |items|
      invariant kept + CancelDirs(items[i..], target, includeRoot) == CancelDirs(items, target, includeRoot)
    {
      CancelDirsStep(kept, items, i, target, includeRoot);
      var within := target <= items[i] && (target != items[i] || includeRoot);
      if !within {
        kept := kept + [items[i]];
      }
      i := i + 1;
    }
    assert items[i..] == [];
  }

  /**
   Opens every recorded directory and restores its metadata, up to the first
   failure; which directories the system lets it restore is a parameter.
   */
  method FinalizeDirectoryMetadata(root: RootFS, dirs: seq<Path>, restores: Path -> bool) returns (ok: bool)
    requires IsTree(root.nodes)
    modifies root`nodes
    ensures root.nodes == old(root.nodes)
    ensures ok == (Finalizable(root.nodes, dirs) && forall d | d in dirs :: restores(d))
  {
    var i := 0;
    while i < |dirs|
      invariant 0 <= i <= |dirs| && root.nodes == old(root.nodes)
      invariant forall d | d in dirs[..i] :: LookupPath(root.nodes, d) == Found(Dir) && restores(d)
    {
      var parent := root.OpenParent(dirs[i], false);
      assert dirs[i] in dirs;
      if parent != Opened || dirs[i] !in root.nodes || root.nodes[dirs[i]].Leaf? {
        if dirs[i] in root.nodes { MissingParent(root.nodes, dirs[i]); }
        return false;
      }
      if !restores(dirs[i]) {
        return false;
      }
      i := i + 1;
    }
    assert dirs[..i] == dirs;
    return true;
  }

  lemma MissingParent(fs: Tree, p: Path)
    requires IsTree(fs) && p in fs
    ensures p != [] && ParentIsDir(fs, p)
  {
    assert [] !in fs;
    if |p| > 1 { AboveIsDir(fs, p[..|p| - 1], p); }
  }

  lemma StreamSnoc(k: Linking, s: State, actions: seq<Action>, i: nat)
    requires i < |actions|
    ensures Stream(k, s, actions[i..]) ==
            match Step(k, s, actions[i]) case None => None case Some(s') => Stream(k, s', actions[i + 1..])
  {
    assert actions[i..][0] == actions[i] && actions[i..][1..] == actions[i + 1..];
  }

  lemma {:induction false} PutSweepsNothing(left: seq<Path>, a: Action)
    ensures a.Put? ==> Unswept(left, a) == left
  {
    if left != [] { PutSweepsNothing(left[1..], a); }
  }

  lemma StreamLeftStep(k: Linking, s: State, left: seq<Path>, actions: seq<Action>, i: nat)
    requires i < |actions| && Step(k, s, actions[i]).Some?
    ensures StreamLeft(k, s, left, actions[i..]) ==
            StreamLeft(k, Step(k, s, actions[i]).value,
                       Unswept(left, actions[i]) + StepLeft(k, s, actions[i]), actions[i + 1..])
  {
    assert actions[i..][0] == actions[i] && actions[i..][1..] == actions[i + 1..];
  }

  /** One iteration of the layer loop. */
  method ApplyAction(action: Action, root: RootFS, pending: DeferredHardlinks, dirs: seq<Path>)
    returns (ok: bool, dirs': seq<Path>)
    requires IsTree(root.nodes)
    modifies root, pending
    ensures var r := Step(root.linking, State(old(root.nodes), old(pending.entries), dirs), action);
            && ok == r.Some?
            && (ok ==> r.value == State(root.nodes, pending.entries, dirs') && IsTree(root.nodes))
    ensures ok ==> root.staged == Unswept(old(root.staged), action)
                                  + StepLeft(root.linking, State(old(root.nodes), old(pending.entries), dirs), action)
  {
    PutSweepsNothing(root.staged, action);
    dirs' := dirs;
    match action
    case Refuse =>
      return false, dirs;
    case Clear(dir) =>
      pending.CancelSubtree(dir, false);
      dirs' := CancelDirectoryMetadata(dirs, dir, false);
      root.ClearOpaque(dir);
      return true, dirs';
    case Remove(p) =>
      pending.CancelSubtree(p, true);
      dirs' := CancelDirectoryMetadata(dirs, p, true);
      ok := root.RemoveWhiteout(p);
    case Put(p, body) =>
      ok := pending.ApplyTarEntry(p, body, root);
      if ok && body.Directory? {
        dirs' := dirs + [p];
      }
  }

  /**
   Applies a layer to a root. On success the tree is the one `ApplyLayer`
   describes and the staging names are those `LayerLeft` gives. It fails when the
   archive cannot be read to its end or some metadata cannot be restored, but
   never because a recorded directory is missing.
   */
  method ApplyLayerReader(entries: seq<Entry>, readable: bool, restores: Path -> bool, root: RootFS) returns (ok: bool)
    requires IsTree(root.nodes)
    modifies root
    ensures var r := ApplyLayer(root.linking, old(root.nodes), entries);
            ok == (readable && r.Some? && forall d | d in r.value.dirs :: restores(d))
    ensures ok ==> root.nodes == ApplyLayer(root.linking, old(root.nodes), entries).value.fs && IsTree(root.nodes)
    ensures ok ==> root.staged == LayerLeft(root.linking, old(root.nodes), old(root.staged), Actions(entries))
  {
    var dirs: seq<Path> := [];
    var pending := new DeferredHardlinks();
    ghost var fs, actions := root.nodes, Actions(entries);
    ghost var goal := Stream(root.linking, State(fs, [], []), actions);
    ghost var left := StreamLeft(root.linking, State(fs, [], []), root.staged, actions);
    assert actions[0..] == actions;
    var i := 0;
    while i < |entries|
      invariant 0 <= i <= |entries| && fresh(pending) && IsTree(root.nodes)
      invariant Stream(root.linking, State(root.nodes, pending.entries, dirs), actions[i..]) == goal
      invariant StreamLeft(root.linking, State(root.nodes, pending.entries, dirs), root.staged, actions[i..]) == left
    {
      ghost var s, staged := State(root.nodes, pending.entries, dirs), root.staged;
      StreamSnoc(root.linking, State(root.nodes, pending.entries, dirs), actions, i);
      var action := Classify(entries[i]);
      ok, dirs := ApplyAction(action, root, pending, dirs);
      if !ok {
        return;
      }
      StreamLeftStep(root.linking, s, staged, actions, i);
      i := i + 1;
    }
    assert actions[i..] == [];
    assert goal == Some(State(root.nodes, pending.entries, dirs)) && left == root.staged;
    assert pending.entries == [] ==> ResolveLeft(root.linking, root.nodes, pending.entries) == [];
    if !readable {
      return false;
    }
    var finished := pending.Finish(root);
    if !finished {
      return false;
    }
    FinishKeepsDirs(root.linking, fs, actions);
    ok := FinalizeDirectoryMetadata(root, dirs, restores);
  }
}
