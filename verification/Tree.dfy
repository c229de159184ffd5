/**
 The extraction root of `internal/image` as a map from component paths to
 nodes. The root itself, the empty path, is a directory that is never an entry
 of the map. A path that names no directory names an inode; two paths are hard
 links of each other exactly when they hold the same inode.
 */
module Tree {
  import opened Wrappers

  type Path = seq<string>

  datatype InodeKind = Regular | Symlink | Special

  /** The part of an inode's metadata that a hard-link entry is checked against. */
  datatype Metadata = Metadata(mode: nat, owner: nat, mtime: Option<nat>)

  /** `id` distinguishes the inodes made by different archive entries. */
  datatype Inode = Inode(id: nat, kind: InodeKind, meta: Metadata)

  datatype Node = Dir | Leaf(inode: Inode)

  type Tree = map<Path, Node>

  ghost predicate IsTree(fs: Tree) {
    && [] !in fs
    && forall p, k | p in fs && 0 < k < |p| :: p[..k] in fs && fs[p[..k]].Dir?
  }

  predicate IsDir(fs: Tree, p: Path) {
    p == [] || (p in fs && fs[p].Dir?)
  }

  /** Some proper ancestor of `p` is not a directory. */
  ghost predicate LeafAbove(fs: Tree, p: Path) {
    exists q :: q < p && q in fs && fs[q].Leaf?
  }

  ghost predicate ParentIsDir(fs: Tree, p: Path)
    requires p != []
  {
    IsDir(fs, p[..|p| - 1])
  }

  ghost function ProperAncestors(p: Path): (r: set<Path>)
    ensures forall q {:trigger q in r} :: q in r <==> [] < q < p
  {
    var r := set k | 0 < k < |p| :: p[..k];
    assert forall q | [] < q < p :: q == p[..|q|];
    r
  }

  /** The tree with the missing parent directories of `p` created. */
  ghost function WithParents(fs: Tree, p: Path): (r: Tree)
    ensures forall q {:trigger q in r} :: q in r <==> q in fs || [] < q < p
    ensures forall q {:trigger r[q]} | q in fs :: r[q] == fs[q]
    ensures forall q {:trigger r[q]} | q in r && q !in fs :: r[q] == Dir
  {
    map q | q in fs.Keys + ProperAncestors(p) :: if q in fs then fs[q] else Dir
  }

  /** Nothing is above a path of one component but the root. */
  lemma TopLevel(fs: Tree, p: Path)
    requires |p| == 1 && [] !in fs
    ensures !LeafAbove(fs, p) && WithParents(fs, p) == fs
  {
    assert forall q | q in fs :: !(q < p);
    assert WithParents(fs, p).Keys == fs.Keys;
  }

  /** What a component-by-component walk with O_NOFOLLOW finds at a path. */
  datatype Lookup = Found(node: Node) | NotExist | NotDir | Escape

  ghost function LookupPath(fs: Tree, p: Path): Lookup {
    if p == [] then Escape
    else if LeafAbove(fs, p) then NotDir
    else if p in fs then Found(fs[p])
    else NotExist
  }

  /** The tree with `p` and everything below it removed. */
  function RemoveSubtree(fs: Tree, p: Path): Tree {
    map q | q in fs && !(p <= q) :: fs[q]
  }

  /** The tree with everything strictly below `p` removed. */
  function RemoveBelow(fs: Tree, p: Path): Tree {
    map q | q in fs && !(p < q) :: fs[q]
  }

  lemma PrefixOfPrefix(a: Path, b: Path, c: Path)
    requires a <= c && b <= c
    ensures a <= b || b <= a
  {
    if |a| <= |b| {
      assert a == c[..|a|] == b[..|a|];
    } else {
      assert b == c[..|b|] == a[..|b|];
    }
  }

  /** Everything above an existing path is a directory. */
  lemma AboveIsDir(fs: Tree, q: Path, p: Path)
    requires IsTree(fs) && p in fs && [] < q < p
    ensures q in fs && fs[q].Dir?
  {
    assert q == p[..|q|];
  }

  lemma TreeFromAncestors(fs: Tree)
    requires [] !in fs
    requires forall p, q | p in fs && [] < q < p :: q in fs && fs[q].Dir?
    ensures IsTree(fs)
  {
  }

  lemma ExistingHasNoLeafAbove(fs: Tree, p: Path)
    requires IsTree(fs) && p in fs
    ensures !LeafAbove(fs, p)
  {
    forall q | q < p && q in fs && fs[q].Leaf?
      ensures false
    {
      AboveIsDir(fs, q, p);
    }
  }

  lemma WithParentsIsTree(fs: Tree, p: Path)
    requires IsTree(fs) && p != [] && !LeafAbove(fs, p)
    ensures IsTree(WithParents(fs, p))
    ensures ParentIsDir(WithParents(fs, p), p)
  {
    var r := WithParents(fs, p);
    forall a, b | a in r && [] < b < a
      ensures b in r && r[b].Dir?
    {
      if a in fs {
        AboveIsDir(fs, b, a);
      } else {
        assert b < p;
      }
    }
    TreeFromAncestors(r);
  }

  /** Putting a node where no directory is, below no leaf, keeps a tree. */
  lemma PlacedIsTree(fs: Tree, p: Path, n: Node)
    requires IsTree(fs) && p != [] && !LeafAbove(fs, p)
    requires p in fs && fs[p].Dir? ==> n.Dir?
    ensures IsTree(WithParents(fs, p)[p := n])
  {
    WithParentsIsTree(fs, p);
    var w := WithParents(fs, p);
    var r := w[p := n];
    forall a, b | a in r && [] < b < a
      ensures b in r && r[b].Dir?
    {
      if a != p {
        AboveIsDir(w, b, a);
        if b == p {
          AboveIsDir(fs, p, a);
        }
      }
    }
    TreeFromAncestors(r);
  }

  lemma RemoveSubtreeIsTree(fs: Tree, p: Path)
    requires IsTree(fs)
    ensures IsTree(RemoveSubtree(fs, p))
    ensures IsTree(RemoveBelow(fs, p))
  {
    var r, s := RemoveSubtree(fs, p), RemoveBelow(fs, p);
    forall a, b | [] < b < a
      ensures a in r ==> b in r && r[b].Dir?
      ensures a in s ==> b in s && s[b].Dir?
    {
      if a in fs {
        AboveIsDir(fs, b, a);
      }
    }
    TreeFromAncestors(r);
    TreeFromAncestors(s);
  }
}
