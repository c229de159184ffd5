/**
 The queue of hard links whose source has not appeared yet
 (`internal/image/deferred_hardlink.go`), as functions on values, and the
 theorem that the fixpoint loop over it does not depend on the queue's order.
 */
module DeferredLinks {
  import opened Wrappers
  import opened Tree

  datatype Link = Link(target: Path, source: Path, meta: Metadata)

  predicate MetadataMatches(link: Metadata, inode: Metadata) {
    && link.mode == inode.mode
    && link.owner == inode.owner
    && (link.mtime.None? || link.mtime == inode.mtime)
  }

  // ---------- One link ----------

  /**
   A link is made under a staging name first and then renamed. Renaming a name
   onto another name of the same inode does nothing, so the staging name is left
   behind exactly when the target already was a name of the source's inode.
   */
  datatype LinkResult = Linked(fs: Tree, left: bool) | SourceMissing(fs: Tree) | LinkFailed

  /**
   Whether the process can link an inode by its descriptor, as it needs to for a
   symlink. If it cannot, the system says there is no such file, or forbids it.
   */
  datatype Linking = Native | Hidden | Forbidden

  /** The path cannot be replaced by a link: the root, below a leaf, or a directory. */
  ghost predicate Unplaceable(fs: Tree, p: Path) {
    p == [] || LeafAbove(fs, p) || (p in fs && fs[p].Dir?)
  }

  /**
   One attempt to create a hard link. Only a source reported missing can be
   retried; one that only seems so has had the target's parents created for it.
   */
  ghost function TryLink(k: Linking, fs: Tree, l: Link): LinkResult {
    match LookupPath(fs, l.source)
    case NotExist => SourceMissing(fs)
    case Found(Leaf(inode)) =>
      if !MetadataMatches(l.meta, inode.meta) || Unplaceable(fs, l.target) then LinkFailed
      else if inode.kind.Symlink? && k.Hidden? then SourceMissing(WithParents(fs, l.target))
      else if inode.kind.Symlink? && k.Forbidden? then LinkFailed
      else Linked(WithParents(fs, l.target)[l.target := Leaf(inode)], l.target in fs && fs[l.target] == Leaf(inode))
    case _ => LinkFailed
  }

  /** A process that can link by descriptor is told a source is missing exactly if it is. */
  lemma MissingMeans(fs: Tree, l: Link)
    ensures TryLink(Native, fs, l).SourceMissing? <==> LookupPath(fs, l.source) == NotExist
    ensures TryLink(Native, fs, l).SourceMissing? ==> TryLink(Native, fs, l).fs == fs
  {
  }

  // ---------- The fixpoint loop ----------

  datatype Outcome = Done(fs: Tree, kept: seq<Link>) | Failed

  /** One pass over the queue, in order. */
  ghost function Pass(k: Linking, fs: Tree, q: seq<Link>): (r: Outcome)
    ensures r.Done? ==> |r.kept| <= |q|
    decreases |q|
  {
    if q == [] then Done(fs, [])
    else match TryLink(k, fs, q[0])
      case Linked(fs', _) => Pass(k, fs', q[1..])
      case SourceMissing(fs1) =>
        (match Pass(k, fs1, q[1..])
         case Done(fs', kept) => Done(fs', [q[0]] + kept)
         case Failed => Failed)
      case LinkFailed => Failed
  }

  /** Passes are repeated until one resolves nothing. */
  ghost function Resolve(k: Linking, fs: Tree, q: seq<Link>): Outcome
    decreases |q|
  {
    match Pass(k, fs, q)
    case Failed => Failed
    case Done(fs', kept) =>
      if |kept| == |q| then Done(fs', kept) else Resolve(k, fs', kept)
  }

  // ---------- What the loop computes, without an order ----------

  ghost predicate DistinctTargets(q: seq<Link>) {
    forall i, j | 0 <= i < j < |q| :: q[i].target != q[j].target
  }

  /** The queue as a map from targets to links: it forgets the order. */
  ghost function Pending(q: seq<Link>): (m: map<Path, Link>)
    requires DistinctTargets(q)
    ensures forall l :: l in q <==> l.target in m && m[l.target] == l
    ensures forall t | t in m :: m[t] in q && m[t].target == t
  {
    if q == [] then map[]
    else
      var rest := Pending(q[1..]);
      assert forall l | l in q[1..] :: l.target != q[0].target;
      rest[q[0].target := q[0]]
  }

  ghost predicate KeyedByTarget(m: map<Path, Link>) {
    forall t | t in m :: m[t].target == t
  }

  /** The inode at the end of the source chain from `p`, within `n` pending links. */
  ghost function Chain(fs: Tree, m: map<Path, Link>, p: Path, n: nat): Option<Inode>
    decreases n
  {
    if p in fs then
      if fs[p].Leaf? then Some(fs[p].inode) else None
    else if n == 0 || p !in m then None
    else Chain(fs, m, m[p].source, n - 1)
  }

  ghost predicate Reaches(fs: Tree, m: map<Path, Link>, p: Path) {
    exists n: nat :: Chain(fs, m, p, n).Some?
  }

  ghost function EndOf(fs: Tree, m: map<Path, Link>, p: Path): Inode
    requires Reaches(fs, m, p)
  {
    var n: nat :| Chain(fs, m, p, n).Some?;
    Chain(fs, m, p, n).value
  }

  /** The inode every resolvable target receives. */
  ghost function Ends(fs: Tree, m: map<Path, Link>): map<Path, Inode> {
    map t | t in m && Reaches(fs, m, m[t].source) :: EndOf(fs, m, m[t].source)
  }

  ghost predicate AboveSome(p: Path, ts: set<Path>) {
    exists t :: t in ts && [] < p < t
  }

  ghost function AncestorsOf(ts: set<Path>): (r: set<Path>)
    ensures forall p {:trigger p in r} :: p in r <==> AboveSome(p, ts)
  {
    var r := set t, p | t in ts && p in ProperAncestors(t) :: p;
    assert forall p | AboveSome(p, ts) :: p in r by {
      forall p | AboveSome(p, ts)
        ensures p in r
      {
        var t :| t in ts && [] < p < t;
        assert p in ProperAncestors(t);
      }
    }
    r
  }

  /** The tree with all of `leaves` placed and their parents created. */
  ghost function Overlay(fs: Tree, leaves: map<Path, Inode>): (r: Tree)
    ensures forall p {:trigger p in r} :: p in r <==> p in fs || p in leaves || AboveSome(p, leaves.Keys)
    ensures forall p {:trigger r[p]} | p in leaves :: r[p] == Leaf(leaves[p])
    ensures forall p {:trigger r[p]} | p in fs && p !in leaves :: r[p] == fs[p]
    ensures forall p {:trigger r[p]} | p in r && p !in fs && p !in leaves :: r[p] == Dir
  {
    map p | p in fs.Keys + leaves.Keys + AncestorsOf(leaves.Keys) ::
      if p in leaves then Leaf(leaves[p]) else if p in fs then fs[p] else Dir
  }

  /** `leaves` can all be placed in `fs`: none on a directory or below a leaf. */
  ghost predicate Placeable(fs: Tree, leaves: map<Path, Inode>) {
    forall t | t in leaves ::
      && !Unplaceable(fs, t)
      && forall t' | t' in leaves :: !(t' < t)
  }

  /**
   The order-free condition under which the loop succeeds: the resolvable links
   fit together and agree with their inodes' metadata, and in the resulting tree
   every other link's source is still simply missing.
   */
  ghost predicate Consistent(fs: Tree, m: map<Path, Link>) {
    var ends := Ends(fs, m);
    && Placeable(fs, ends)
    && (forall t | t in ends :: MetadataMatches(m[t].meta, ends[t].meta))
    && (forall t | t in m && t !in ends :: LookupPath(Overlay(fs, ends), m[t].source) == NotExist)
  }

  /**
   What the archive loop guarantees about its queue before resolving it: a
   pending target that another pending link names as its source holds no inode.
   */
  ghost predicate Ready(fs: Tree, m: map<Path, Link>) {
    forall t, u | t in m && u in m && m[t].source == u && u in fs :: fs[u].Dir?
  }

  ghost function Filtered(q: seq<Link>, gone: set<Path>): (r: seq<Link>)
    ensures forall l :: l in r <==> l in q && l.target !in gone
    ensures |r| <= |q|
  {
    if q == [] then []
    else if q[0].target in gone then Filtered(q[1..], gone)
    else [q[0]] + Filtered(q[1..], gone)
  }

  // ---------- Lemmas on chains ----------

  lemma {:induction false} ChainMonotone(fs: Tree, m: map<Path, Link>, p: Path, n: nat, k: nat)
    requires n <= k && Chain(fs, m, p, n).Some?
    ensures Chain(fs, m, p, k) == Chain(fs, m, p, n)
    decreases n
  {
    if p !in fs {
      ChainMonotone(fs, m, m[p].source, n - 1, k - 1);
    }
  }

  lemma EndOfIs(fs: Tree, m: map<Path, Link>, p: Path, n: nat)
    requires Chain(fs, m, p, n).Some?
    ensures Reaches(fs, m, p) && EndOf(fs, m, p) == Chain(fs, m, p, n).value
  {
    var k: nat :| Chain(fs, m, p, k).Some? && EndOf(fs, m, p) == Chain(fs, m, p, k).value;
    if n <= k { ChainMonotone(fs, m, p, n, k); } else { ChainMonotone(fs, m, p, k, n); }
  }

  /** A chain starts at an existing inode or at a resolvable target. */
  lemma ReachesCases(fs: Tree, m: map<Path, Link>, p: Path)
    ensures p in fs && fs[p].Leaf? ==> Reaches(fs, m, p) && EndOf(fs, m, p) == fs[p].inode
    ensures p in fs && fs[p].Dir? ==> !Reaches(fs, m, p)
    ensures p !in fs ==> (Reaches(fs, m, p) <==> p in Ends(fs, m))
    ensures p !in fs && p in Ends(fs, m) ==> EndOf(fs, m, p) == Ends(fs, m)[p]
  {
    if p in fs {
      if fs[p].Leaf? {
        EndOfIs(fs, m, p, 0);
      }
    } else {
      if Reaches(fs, m, p) {
        var n: nat :| Chain(fs, m, p, n).Some?;
        EndOfIs(fs, m, m[p].source, n - 1);
      }
      if p in Ends(fs, m) {
        var n: nat :| Chain(fs, m, m[p].source, n).Some?;
        assert Chain(fs, m, p, n + 1) == Chain(fs, m, m[p].source, n);
        EndOfIs(fs, m, m[p].source, n);
        EndOfIs(fs, m, p, n + 1);
      }
    }
  }

  /** In a tree where all pending sources are missing, no chain leads anywhere. */
  lemma {:induction false} StuckChain(fs: Tree, m: map<Path, Link>, leaves: map<Path, Inode>, p: Path, n: nat)
    requires p !in Overlay(fs, leaves)
    requires forall t | t in m && t !in leaves :: m[t].source !in Overlay(fs, leaves)
    ensures Chain(fs, m, p, n).None?
    decreases n
  {
    if n > 0 && p in m {
      StuckChain(fs, m, leaves, m[p].source, n - 1);
    }
  }

  // ---------- Lemmas on overlays ----------

  lemma OverlayIsTree(fs: Tree, leaves: map<Path, Inode>)
    requires IsTree(fs) && Placeable(fs, leaves)
    ensures IsTree(Overlay(fs, leaves))
  {
    var r := Overlay(fs, leaves);
    forall a, b | a in r && [] < b < a
      ensures b in r && r[b].Dir?
    {
      if a in leaves {
        assert AboveSome(b, leaves.Keys);
        assert b !in leaves;
      } else if a in fs {
        AboveIsDir(fs, b, a);
        assert b !in leaves;
      } else {
        var t :| t in leaves && [] < a < t;
        assert [] < b < t;
        assert AboveSome(b, leaves.Keys);
        assert b !in leaves;
      }
    }
    TreeFromAncestors(r);
  }

  lemma OverlayStep(fs: Tree, leaves: map<Path, Inode>, t: Path, inode: Inode)
    requires t !in leaves
    ensures WithParents(Overlay(fs, leaves), t)[t := Leaf(inode)] == Overlay(fs, leaves[t := inode])
  {
    var a, b := WithParents(Overlay(fs, leaves), t)[t := Leaf(inode)], Overlay(fs, leaves[t := inode]);
    forall p
      ensures (p in a <==> p in b) && (p in a ==> a[p] == b[p])
    {
      OverlayStepAt(fs, leaves, t, inode, p);
    }
    assert a.Keys == b.Keys;
  }

  lemma OverlayStepAt(fs: Tree, leaves: map<Path, Inode>, t: Path, inode: Inode, p: Path)
    requires t !in leaves
    ensures var a := WithParents(Overlay(fs, leaves), t)[t := Leaf(inode)];
            var b := Overlay(fs, leaves[t := inode]);
            (p in a <==> p in b) && (p in a ==> a[p] == b[p])
  {
    AboveSomeStep(p, leaves.Keys, t);
    assert leaves[t := inode].Keys == leaves.Keys + {t};
  }

  lemma AboveSomeStep(p: Path, ts: set<Path>, t: Path)
    ensures AboveSome(p, ts + {t}) <==> AboveSome(p, ts) || [] < p < t
  {
    assert forall u :: u in ts + {t} <==> u in ts || u == t;
    if AboveSome(p, ts) {
      var u :| u in ts && [] < p < u;
      assert u in ts + {t};
    }
    if [] < p < t {
      assert t in ts + {t};
    }
  }

  /** A leaf of an overlay is one of the placed leaves or an old leaf. */
  lemma OverlayLeaf(fs: Tree, leaves: map<Path, Inode>, p: Path)
    requires p in Overlay(fs, leaves) && Overlay(fs, leaves)[p].Leaf?
    ensures p in leaves || (p in fs && fs[p].Leaf?)
  {
  }

  // ---------- The state of the loop ----------

  /**
   The loop has resolved exactly `leaves`: each is the end of its chain, and
   together they fit into the tree the loop started from.
   */
  ghost predicate Resolved(fs: Tree, m: map<Path, Link>, leaves: map<Path, Inode>) {
    && (forall t | t in leaves :: t in Ends(fs, m) && leaves[t] == Ends(fs, m)[t])
    && Placeable(fs, leaves)
    && (forall t | t in leaves :: MetadataMatches(m[t].meta, leaves[t].meta))
  }

  /** The links of `q` are pending in `m` and not resolved yet. */
  ghost predicate Remaining(m: map<Path, Link>, leaves: map<Path, Inode>, q: seq<Link>) {
    && DistinctTargets(q)
    && forall l | l in q :: l.target in m && m[l.target] == l && l.target !in leaves
  }

  ghost predicate Loop(fs: Tree, m: map<Path, Link>, leaves: map<Path, Inode>) {
    && IsTree(fs) && KeyedByTarget(m) && Ready(fs, m)
    && Resolved(fs, m, leaves)
  }

  /** The inode found at a pending source is the end of the source's chain. */
  lemma FoundIsEnd(fs: Tree, m: map<Path, Link>, leaves: map<Path, Inode>, l: Link)
    requires Loop(fs, m, leaves) && l.target in m && m[l.target] == l
    requires l.source in Overlay(fs, leaves) && Overlay(fs, leaves)[l.source].Leaf?
    ensures l.target in Ends(fs, m)
    ensures Ends(fs, m)[l.target] == Overlay(fs, leaves)[l.source].inode
  {
    var s := l.source;
    OverlayLeaf(fs, leaves, s);
    ReachesCases(fs, m, s);
  }

  lemma NothingAboveStep(fs: Tree, leaves: map<Path, Inode>, t: Path)
    requires !LeafAbove(Overlay(fs, leaves), t)
    ensures !LeafAbove(fs, t)
    ensures forall u | u in leaves :: !(u < t)
  {
    var g := Overlay(fs, leaves);
    forall q | q < t
      ensures q !in leaves && !(q in fs && fs[q].Leaf?)
    {
      assert !(q in g && g[q].Leaf?);
    }
  }

  lemma NothingBelowStep(fs: Tree, leaves: map<Path, Inode>, t: Path)
    requires Placeable(fs, leaves) && t !in leaves && t != []
    requires !(t in Overlay(fs, leaves) && Overlay(fs, leaves)[t].Dir?)
    ensures forall u | u in leaves :: !(t < u)
  {
    forall u | u in leaves
      ensures !(t < u)
    {
      assert t < u ==> AboveSome(t, leaves.Keys);
      assert !Unplaceable(fs, u);
    }
  }

  /** A placeable leaf under an overlay is placeable beside the placed ones. */
  lemma PlaceableStep(fs: Tree, leaves: map<Path, Inode>, t: Path, inode: Inode)
    requires Placeable(fs, leaves) && t !in leaves
    requires !Unplaceable(Overlay(fs, leaves), t)
    ensures Placeable(fs, leaves[t := inode])
  {
    NothingAboveStep(fs, leaves, t);
    NothingBelowStep(fs, leaves, t);
  }

  lemma ResolvedStep(fs: Tree, m: map<Path, Link>, leaves: map<Path, Inode>, t: Path, inode: Inode)
    requires Resolved(fs, m, leaves) && t in m && t !in leaves
    requires t in Ends(fs, m) && Ends(fs, m)[t] == inode && MetadataMatches(m[t].meta, inode.meta)
    requires Placeable(fs, leaves[t := inode])
    ensures Resolved(fs, m, leaves[t := inode])
  {
  }

  lemma LinkStep(fs: Tree, m: map<Path, Link>, leaves: map<Path, Inode>, l: Link) returns (leaves': map<Path, Inode>)
    requires Loop(fs, m, leaves)
    requires l.target in m && m[l.target] == l && l.target !in leaves
    requires TryLink(Native, Overlay(fs, leaves), l).Linked?
    ensures leaves'.Keys == leaves.Keys + {l.target}
    ensures Loop(fs, m, leaves')
    ensures TryLink(Native, Overlay(fs, leaves), l).fs == Overlay(fs, leaves')
  {
    var g := Overlay(fs, leaves);
    assert LookupPath(g, l.source).Found?;
    var inode := g[l.source].inode;
    leaves' := leaves[l.target := inode];
    assert TryLink(Native, g, l).fs == Overlay(fs, leaves') by {
      OverlayStep(fs, leaves, l.target, inode);
    }
    assert Resolved(fs, m, leaves') by {
      FoundIsEnd(fs, m, leaves, l);
      PlaceableStep(fs, leaves, l.target, inode);
      ResolvedStep(fs, m, leaves, l.target, inode);
    }
  }

  // ---------- Success determines the result ----------

  ghost function Targets(q: seq<Link>): set<Path> {
    set l | l in q :: l.target
  }

  /** What a successful pass or run from `leaves` leaves behind. */
  ghost predicate Finished(fs: Tree, m: map<Path, Link>, leaves: map<Path, Inode>, q: seq<Link>, r: Outcome,
                           leaves': map<Path, Inode>)
  {
    && Loop(fs, m, leaves')
    && leaves.Keys <= leaves'.Keys <= leaves.Keys + Targets(q)
    && r == Done(Overlay(fs, leaves'), Filtered(q, leaves'.Keys))
  }

  lemma RemainingTail(m: map<Path, Link>, leaves: map<Path, Inode>, q: seq<Link>)
    requires Remaining(m, leaves, q) && q != []
    ensures Remaining(m, leaves, q[1..])
    ensures q[0].target in m && m[q[0].target] == q[0] && q[0].target !in leaves
    ensures Targets(q) == Targets(q[1..]) + {q[0].target}
    ensures q[0].target !in Targets(q[1..])
  {
    assert q[0] in q;
    assert forall l :: l in q <==> l == q[0] || l in q[1..];
  }

  lemma RemainingResolved(m: map<Path, Link>, leaves: map<Path, Inode>, leaves': map<Path, Inode>, q: seq<Link>,
                          t: Path)
    requires Remaining(m, leaves, q) && t !in Targets(q)
    requires leaves'.Keys == leaves.Keys + {t}
    ensures Remaining(m, leaves', q)
  {
    forall l | l in q
      ensures l.target !in leaves'
    {
      assert l.target in Targets(q);
    }
  }

  lemma {:induction false} PassSound(fs: Tree, m: map<Path, Link>, leaves: map<Path, Inode>, q: seq<Link>)
    returns (leaves': map<Path, Inode>)
    requires Loop(fs, m, leaves) && Remaining(m, leaves, q)
    requires Pass(Native, Overlay(fs, leaves), q).Done?
    ensures Finished(fs, m, leaves, q, Pass(Native, Overlay(fs, leaves), q), leaves')
    decreases |q|
  {
    if q == [] {
      return leaves;
    }
    RemainingTail(m, leaves, q);
    PassHead(Overlay(fs, leaves), q);
    if TryLink(Native, Overlay(fs, leaves), q[0]).Linked? {
      var mid := LinkStep(fs, m, leaves, q[0]);
      RemainingResolved(m, leaves, mid, q[1..], q[0].target);
      leaves' := PassSound(fs, m, mid, q[1..]);
      FinishedLinked(fs, m, leaves, mid, q, Pass(Native, Overlay(fs, mid), q[1..]), leaves');
    } else {
      leaves' := PassSound(fs, m, leaves, q[1..]);
      FinishedMissing(fs, m, leaves, q, Pass(Native, Overlay(fs, leaves), q[1..]), leaves');
    }
  }

  lemma PassHead(fs: Tree, q: seq<Link>)
    requires q != [] && Pass(Native, fs, q).Done?
    ensures match TryLink(Native, fs, q[0])
            case Linked(fs', _) => Pass(Native, fs, q) == Pass(Native, fs', q[1..])
            case SourceMissing(_) =>
              && Pass(Native, fs, q[1..]).Done?
              && Pass(Native, fs, q) == Done(Pass(Native, fs, q[1..]).fs, [q[0]] + Pass(Native, fs, q[1..]).kept)
            case LinkFailed => false
  {
  }

  lemma FinishedLinked(fs: Tree, m: map<Path, Link>, leaves: map<Path, Inode>, mid: map<Path, Inode>, q: seq<Link>,
                       r: Outcome, leaves': map<Path, Inode>)
    requires q != [] && Remaining(m, leaves, q) && mid.Keys == leaves.Keys + {q[0].target}
    requires Finished(fs, m, mid, q[1..], r, leaves')
    ensures Finished(fs, m, leaves, q, r, leaves')
  {
    RemainingTail(m, leaves, q);
  }

  lemma FinishedMissing(fs: Tree, m: map<Path, Link>, leaves: map<Path, Inode>, q: seq<Link>, r: Outcome,
                        leaves': map<Path, Inode>)
    requires q != [] && Remaining(m, leaves, q) && Finished(fs, m, leaves, q[1..], r, leaves')
    ensures Finished(fs, m, leaves, q, Done(r.fs, [q[0]] + r.kept), leaves')
  {
    RemainingTail(m, leaves, q);
  }

  lemma {:induction false} PassStuck(fs: Tree, q: seq<Link>)
    requires Pass(Native, fs, q).Done? && |Pass(Native, fs, q).kept| == |q|
    ensures Pass(Native, fs, q) == Done(fs, q)
    ensures forall l | l in q :: TryLink(Native, fs, l).SourceMissing?
    decreases |q|
  {
    if q != [] {
      assert TryLink(Native, fs, q[0]).SourceMissing?;
      PassStuck(fs, q[1..]);
      assert [q[0]] + q[1..] == q;
    }
  }

  lemma {:induction false} PassAllMissing(fs: Tree, q: seq<Link>)
    requires forall l | l in q :: TryLink(Native, fs, l).SourceMissing?
    ensures Pass(Native, fs, q) == Done(fs, q)
    decreases |q|
  {
    if q != [] {
      PassAllMissing(fs, q[1..]);
      assert [q[0]] + q[1..] == q;
    }
  }

  lemma {:induction false} FilteredTwice(q: seq<Link>, a: set<Path>, b: set<Path>)
    requires a <= b
    ensures Filtered(Filtered(q, a), b) == Filtered(q, b)
    decreases |q|
  {
    if q != [] {
      FilteredTwice(q[1..], a, b);
      if q[0].target !in a {
        var f := Filtered(q, a);
        assert f[0] == q[0] && f[1..] == Filtered(q[1..], a);
      }
    }
  }

  lemma {:induction false} FilteredNone(q: seq<Link>, gone: set<Path>)
    requires forall l | l in q :: l.target !in gone
    ensures Filtered(q, gone) == q
    decreases |q|
  {
    if q != [] {
      FilteredNone(q[1..], gone);
      assert [q[0]] + q[1..] == q;
    }
  }

  lemma {:induction false} FilteredDistinct(q: seq<Link>, gone: set<Path>)
    requires DistinctTargets(q)
    ensures DistinctTargets(Filtered(q, gone))
    decreases |q|
  {
    if q != [] {
      FilteredDistinct(q[1..], gone);
      var f := Filtered(q[1..], gone);
      forall j | 0 <= j < |f|
        ensures f[j].target != q[0].target
      {
        assert f[j] in q[1..];
      }
    }
  }

  lemma StuckUnreachable(fs: Tree, m: map<Path, Link>, leaves: map<Path, Inode>, p: Path)
    requires p !in Overlay(fs, leaves)
    requires forall t | t in m && t !in leaves :: m[t].source !in Overlay(fs, leaves)
    ensures !Reaches(fs, m, p)
  {
    forall n: nat
      ensures Chain(fs, m, p, n).None?
    {
      StuckChain(fs, m, leaves, p, n);
    }
  }

  /** When every remaining source is missing, exactly the resolvable links are resolved. */
  lemma StuckMeansComplete(fs: Tree, m: map<Path, Link>, leaves: map<Path, Inode>, q: seq<Link>)
    requires Loop(fs, m, leaves) && Remaining(m, leaves, q)
    requires m.Keys == leaves.Keys + Targets(q)
    requires forall l | l in q :: TryLink(Native, Overlay(fs, leaves), l).SourceMissing?
    ensures leaves == Ends(fs, m) && Consistent(fs, m)
  {
    StuckEnds(fs, m, leaves, q);
    forall t | t in m && t !in leaves
      ensures LookupPath(Overlay(fs, leaves), m[t].source) == NotExist
    {
      StuckAt(fs, m, leaves, q, t);
    }
  }

  lemma StuckEnds(fs: Tree, m: map<Path, Link>, leaves: map<Path, Inode>, q: seq<Link>)
    requires Remaining(m, leaves, q) && m.Keys == leaves.Keys + Targets(q)
    requires forall l | l in q :: TryLink(Native, Overlay(fs, leaves), l).SourceMissing?
    requires forall t | t in leaves :: t in Ends(fs, m) && leaves[t] == Ends(fs, m)[t]
    ensures leaves == Ends(fs, m)
  {
    forall t | t in Ends(fs, m)
      ensures t in leaves
    {
      if t !in leaves {
        StuckAt(fs, m, leaves, q, t);
      }
    }
    assert leaves.Keys == Ends(fs, m).Keys;
  }

  lemma StuckAt(fs: Tree, m: map<Path, Link>, leaves: map<Path, Inode>, q: seq<Link>, t: Path)
    requires Remaining(m, leaves, q) && m.Keys == leaves.Keys + Targets(q)
    requires forall l | l in q :: TryLink(Native, Overlay(fs, leaves), l).SourceMissing?
    requires t in m && t !in leaves
    ensures LookupPath(Overlay(fs, leaves), m[t].source) == NotExist && t !in Ends(fs, m)
  {
    forall u | u in m && u !in leaves
      ensures m[u] in q && m[u].source !in Overlay(fs, leaves)
    {
      assert u in Targets(q);
      assert TryLink(Native, Overlay(fs, leaves), m[u]).SourceMissing?;
    }
    StuckUnreachable(fs, m, leaves, m[t].source);
  }

  lemma FinishedRemaining(fs: Tree, m: map<Path, Link>, leaves: map<Path, Inode>, q: seq<Link>,
                          leaves': map<Path, Inode>)
    requires Remaining(m, leaves, q) && m.Keys == leaves.Keys + Targets(q)
    requires leaves.Keys <= leaves'.Keys <= leaves.Keys + Targets(q)
    ensures Remaining(m, leaves', Filtered(q, leaves'.Keys))
    ensures m.Keys == leaves'.Keys + Targets(Filtered(q, leaves'.Keys))
  {
    var kept := Filtered(q, leaves'.Keys);
    FilteredDistinct(q, leaves'.Keys);
    forall t | t in m && t !in leaves'
      ensures t in Targets(kept)
    {
      var l :| l in q && l.target == t;
      assert l in kept;
    }
  }

  lemma {:induction false} ResolveSound(fs: Tree, m: map<Path, Link>, leaves: map<Path, Inode>, q: seq<Link>)
    requires Loop(fs, m, leaves) && Remaining(m, leaves, q) && m.Keys == leaves.Keys + Targets(q)
    requires Resolve(Native, Overlay(fs, leaves), q).Done?
    ensures Consistent(fs, m)
    ensures Resolve(Native, Overlay(fs, leaves), q) == Done(Overlay(fs, Ends(fs, m)), Filtered(q, Ends(fs, m).Keys))
    decreases |q|
  {
    var g := Overlay(fs, leaves);
    if |Pass(Native, g, q).kept| == |q| {
      PassStuck(g, q);
      StuckMeansComplete(fs, m, leaves, q);
      FilteredNone(q, Ends(fs, m).Keys);
    } else {
      var leaves' := PassSound(fs, m, leaves, q);
      FinishedRemaining(fs, m, leaves, q, leaves');
      ResolveSound(fs, m, leaves', Filtered(q, leaves'.Keys));
      assert leaves'.Keys <= Ends(fs, m).Keys;
      FilteredTwice(q, leaves'.Keys, Ends(fs, m).Keys);
    }
  }

  // ---------- The condition guarantees success ----------

  /** A leaf found above or at a path of the tree so far is there at the end too. */
  lemma LeafStays(fs: Tree, m: map<Path, Link>, leaves: map<Path, Inode>, p: Path)
    requires Loop(fs, m, leaves)
    requires p in Overlay(fs, leaves)
    ensures p in Overlay(fs, Ends(fs, m))
    ensures Overlay(fs, leaves)[p].Leaf? ==> Overlay(fs, Ends(fs, m))[p].Leaf?
  {
    if AboveSome(p, leaves.Keys) {
      var t :| t in leaves && [] < p < t;
      assert t in Ends(fs, m).Keys;
      assert AboveSome(p, Ends(fs, m).Keys);
    }
  }

  /** An unresolvable link's source stays missing on the way. */
  lemma UnresolvableStaysMissing(fs: Tree, m: map<Path, Link>, leaves: map<Path, Inode>, s: Path)
    requires Loop(fs, m, leaves)
    requires LookupPath(Overlay(fs, Ends(fs, m)), s) == NotExist
    ensures LookupPath(Overlay(fs, leaves), s) == NotExist
  {
    var g, f := Overlay(fs, leaves), Overlay(fs, Ends(fs, m));
    if s in g {
      LeafStays(fs, m, leaves, s);
    }
    forall q | q < s && q in g
      ensures g[q].Dir?
    {
      LeafStays(fs, m, leaves, q);
      assert !(q in f && f[q].Leaf?);
    }
  }

  lemma ResolvableNotAbove(fs: Tree, m: map<Path, Link>, leaves: map<Path, Inode>, t: Path)
    requires Loop(fs, m, leaves) && Placeable(fs, Ends(fs, m)) && t in Ends(fs, m) && t !in leaves
    ensures !AboveSome(t, leaves.Keys)
    ensures forall u | u in leaves :: !(u < t)
  {
    forall u | u in leaves
      ensures !(t < u) && !(u < t)
    {
      assert u in Ends(fs, m);
    }
  }

  /** A resolvable target never becomes unplaceable. */
  lemma ResolvablePlaceable(fs: Tree, m: map<Path, Link>, leaves: map<Path, Inode>, t: Path)
    requires Loop(fs, m, leaves) && Placeable(fs, Ends(fs, m)) && t in Ends(fs, m) && t !in leaves
    ensures !Unplaceable(Overlay(fs, leaves), t)
  {
    var g := Overlay(fs, leaves);
    assert !Unplaceable(fs, t);
    ResolvableNotAbove(fs, m, leaves, t);
    forall q | q < t && q in g
      ensures g[q].Dir?
    {
      OverlayLeafBelow(fs, leaves, t, q);
    }
  }

  lemma OverlayLeafBelow(fs: Tree, leaves: map<Path, Inode>, t: Path, q: Path)
    requires !LeafAbove(fs, t) && q < t && q !in leaves && q in Overlay(fs, leaves)
    ensures Overlay(fs, leaves)[q].Dir?
  {
  }

  /** The source of a resolvable link is an inode or still missing, never an obstacle. */
  lemma ResolvableSource(fs: Tree, m: map<Path, Link>, leaves: map<Path, Inode>, s: Path)
    requires Loop(fs, m, leaves) && Consistent(fs, m) && Reaches(fs, m, s)
    ensures var r := LookupPath(Overlay(fs, leaves), s);
            r == NotExist || (r.Found? && r.node.Leaf?)
  {
    var g := Overlay(fs, leaves);
    ReachesCases(fs, m, s);
    if s in fs {
      assert s in g && g[s].Leaf?;
      OverlayIsTree(fs, leaves);
      ExistingHasNoLeafAbove(g, s);
    } else if s in leaves {
      OverlayIsTree(fs, leaves);
      ExistingHasNoLeafAbove(g, s);
    } else {
      ResolvablePlaceable(fs, m, leaves, s);
    }
  }

  lemma AttemptSucceeds(fs: Tree, m: map<Path, Link>, leaves: map<Path, Inode>, l: Link)
    requires Loop(fs, m, leaves) && Consistent(fs, m)
    requires l.target in m && m[l.target] == l && l.target !in leaves
    ensures !TryLink(Native, Overlay(fs, leaves), l).LinkFailed?
  {
    var g := Overlay(fs, leaves);
    if l.target in Ends(fs, m) {
      ResolvableSource(fs, m, leaves, l.source);
      if l.source in g && g[l.source].Leaf? {
        FoundIsEnd(fs, m, leaves, l);
        ResolvablePlaceable(fs, m, leaves, l.target);
      }
    } else {
      UnresolvableStaysMissing(fs, m, leaves, l.source);
    }
  }

  lemma {:induction false} PassSucceeds(fs: Tree, m: map<Path, Link>, leaves: map<Path, Inode>, q: seq<Link>)
    requires Loop(fs, m, leaves) && Remaining(m, leaves, q) && Consistent(fs, m)
    ensures Pass(Native, Overlay(fs, leaves), q).Done?
    decreases |q|
  {
    if q == [] {
      return;
    }
    RemainingTail(m, leaves, q);
    AttemptSucceeds(fs, m, leaves, q[0]);
    if TryLink(Native, Overlay(fs, leaves), q[0]).Linked? {
      var mid := LinkStep(fs, m, leaves, q[0]);
      RemainingResolved(m, leaves, mid, q[1..], q[0].target);
      PassSucceeds(fs, m, mid, q[1..]);
    } else {
      PassSucceeds(fs, m, leaves, q[1..]);
    }
  }

  lemma {:induction false} ResolveSucceeds(fs: Tree, m: map<Path, Link>, leaves: map<Path, Inode>, q: seq<Link>)
    requires Loop(fs, m, leaves) && Remaining(m, leaves, q) && m.Keys == leaves.Keys + Targets(q)
    requires Consistent(fs, m)
    ensures Resolve(Native, Overlay(fs, leaves), q).Done?
    decreases |q|
  {
    PassSucceeds(fs, m, leaves, q);
    if |Pass(Native, Overlay(fs, leaves), q).kept| < |q| {
      var leaves' := PassSound(fs, m, leaves, q);
      FinishedRemaining(fs, m, leaves, q, leaves');
      ResolveSucceeds(fs, m, leaves', Filtered(q, leaves'.Keys));
    }
  }

  // ---------- Main results ----------

  /**
   The fixpoint loop succeeds exactly under an order-free condition on the tree
   and the set of pending links, and then it resolves exactly the links whose
   source chain reaches an inode, each to the inode at the end of its chain, and
   keeps the others in their order.
   */
  lemma ResolveCharacterised(fs: Tree, q: seq<Link>)
    requires IsTree(fs) && DistinctTargets(q) && Ready(fs, Pending(q))
    ensures var m := Pending(q);
            && (Resolve(Native, fs, q).Done? <==> Consistent(fs, m))
            && (Resolve(Native, fs, q).Done? ==>
                  Resolve(Native, fs, q) == Done(Overlay(fs, Ends(fs, m)), Filtered(q, Ends(fs, m).Keys)))
  {
    var m := Pending(q);
    assert Overlay(fs, map[]) == fs;
    assert m.Keys == Targets(q);
    forall l | l in q
      ensures l.target in m && m[l.target] == l
    {
    }
    if Consistent(fs, m) {
      ResolveSucceeds(fs, m, map[], q);
    }
    if Resolve(Native, fs, q).Done? {
      ResolveSound(fs, m, map[], q);
    }
  }

  lemma PendingOfPermutation(q: seq<Link>, q': seq<Link>)
    requires DistinctTargets(q) && DistinctTargets(q') && multiset(q) == multiset(q')
    ensures Pending(q) == Pending(q')
  {
    SameMembers(q, q');
    var m, m' := Pending(q), Pending(q');
    forall t
      ensures (t in m <==> t in m') && (t in m ==> m[t] == m'[t])
    {
      PendingAt(q, q', t);
      PendingAt(q', q, t);
    }
    SameMap(m, m');
  }

  lemma SameMap(m: map<Path, Link>, m': map<Path, Link>)
    requires forall t :: (t in m <==> t in m') && (t in m ==> m[t] == m'[t])
    ensures m == m'
  {
    assert m.Keys == m'.Keys;
  }

  lemma SameMembers(q: seq<Link>, q': seq<Link>)
    requires multiset(q) == multiset(q')
    ensures forall l :: l in q <==> l in q'
  {
    forall l
      ensures l in q <==> l in q'
    {
      assert l in q <==> l in multiset(q);
      assert l in q' <==> l in multiset(q');
    }
  }

  lemma PendingAt(q: seq<Link>, q': seq<Link>, t: Path)
    requires DistinctTargets(q) && DistinctTargets(q') && forall l | l in q :: l in q'
    ensures t in Pending(q) ==> t in Pending(q') && Pending(q')[t] == Pending(q)[t]
  {
    if t in Pending(q) {
      var l := Pending(q)[t];
      assert l in q && l.target == t;
      assert l in q';
    }
  }

  /** Whatever the order of the queue: the same success, tree and leftover links. */
  lemma ResolveConfluent(fs: Tree, q: seq<Link>, q': seq<Link>)
    requires IsTree(fs) && DistinctTargets(q) && DistinctTargets(q') && multiset(q) == multiset(q')
    requires Ready(fs, Pending(q))
    ensures Resolve(Native, fs, q).Done? <==> Resolve(Native, fs, q').Done?
    ensures Resolve(Native, fs, q).Done? ==>
              && Resolve(Native, fs, q).fs == Resolve(Native, fs, q').fs
              && forall l :: l in Resolve(Native, fs, q).kept <==> l in Resolve(Native, fs, q').kept
  {
    PendingOfPermutation(q, q');
    ResolveCharacterised(fs, q);
    ResolveCharacterised(fs, q');
    SameMembers(q, q');
  }
}
