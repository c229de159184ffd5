/**
 The laws of a layer, said about its entries: what one more entry does to the
 tree, that the last one stands, and that nothing is touched but what is named.
 */
module LayerEntries {
  import opened Wrappers
  import opened Tree
  import opened DeferredLinks
  import opened LayerStream
  import opened Whiteouts
  import opened WhiteoutsExact

  /** The path an entry that is no whiteout names; the root entry names its directory. */
  function Named(e: Entry): Path {
    if e.base == "." then e.dir else e.dir + [e.base]
  }

  predicate Plain(e: Entry) {
    !e.unsafe && !(".wh." <= e.base)
  }

  predicate Opaque(e: Entry) {
    !e.unsafe && e.base == ".wh..wh..opq"
  }

  /** A whiteout of the entry beside it that has a proper name. */
  predicate WhiteoutOf(e: Entry, name: string) {
    !e.unsafe && e.base == ".wh." + name && name != "" && name != "." && name != ".." && name != ".wh..opq"
  }

  /** The tree with a node put at `p`, directories made above it, and nothing else changed. */
  ghost predicate Gains(fs: Tree, fs': Tree, p: Path, n: Node) {
    && p in fs' && fs'[p] == n
    && (forall q :: q in fs' <==> q in fs || q == p || [] < q < p)
    && (forall q | q in fs && q != p :: fs'[q] == fs[q])
    && (forall q | q in fs' && q !in fs && q != p :: fs'[q] == Dir)
  }

  /** What is neither the root, nor below a file, nor a directory. */
  ghost predicate Replaceable(fs: Tree, p: Path) {
    p != [] && (forall q | q < p && q in fs :: fs[q].Dir?) && (p in fs ==> fs[p].Leaf?)
  }

  lemma ReplaceableMeans(fs: Tree, p: Path)
    ensures Replaceable(fs, p) <==> !Unplaceable(fs, p)
    ensures (forall q | q < p && q in fs :: fs[q].Dir?) <==> !LeafAbove(fs, p)
  {
  }

  lemma PlacedGains(fs: Tree, p: Path, n: Node)
    requires p != []
    ensures Gains(fs, WithParents(fs, p)[p := n], p, n)
  {
  }

  lemma AlreadyThere(fs: Tree, p: Path, n: Node)
    requires IsTree(fs) && p in fs
    ensures Gains(fs, fs[p := n], p, n) && fs[p := fs[p]] == fs
  {
    forall q | [] < q <= p
      ensures q in fs
    {
      if q != p { AboveIsDir(fs, q, p); }
    }
  }

  // ---------- Classes ----------

  lemma PlainIsPut(e: Entry)
    requires Plain(e)
    ensures Classify(e) == Put(Named(e), e.body)
  {
    assert ".wh..wh..opq"[..4] == ".wh.";
  }

  lemma OpaqueIsClear(e: Entry)
    requires Opaque(e)
    ensures Classify(e) == Clear(e.dir)
  {
  }

  lemma WhiteoutIsRemove(e: Entry, name: string)
    requires WhiteoutOf(e, name)
    ensures Classify(e) == Remove(e.dir + [name]) && ".wh." <= e.base && !Opaque(e)
  {
    assert e.base[4..] == name;
    assert ".wh..wh..opq"[4..] == ".wh..opq";
  }

  lemma ActionsSnoc(entries: seq<Entry>, e: Entry)
    ensures Actions(entries + [e]) == Actions(entries) + [Classify(e)]
  {
  }

  // ---------- One more entry ----------

  /** Where a layer applies, one entry more is one step more, and must leave nothing waiting. */
  lemma OneMore(fs: Tree, entries: seq<Entry>, e: Entry)
    requires IsTree(fs) && ApplyLayer(Native, fs, entries).Some?
    ensures var s := ApplyLayer(Native, fs, entries).value;
            && IsTree(s.fs) && s.queue == []
            && var next := Step(Native, s, Classify(e));
            ApplyLayer(Native, fs, entries + [e]) == if next.Some? && next.value.queue == [] then next else None
  {
    ActionsSnoc(entries, e);
    FinishOfStream(fs, Actions(entries));
    FinishOfStream(fs, Actions(entries) + [Classify(e)]);
    StreamSnoc(Native, State(fs, [], []), Actions(entries), Classify(e));
  }

  /** A file, device or symlink entry puts its inode at the path it names, over whatever is no directory. */
  lemma ObjectMakes(fs: Tree, entries: seq<Entry>, e: Entry)
    requires IsTree(fs) && ApplyLayer(Native, fs, entries).Some? && Plain(e) && e.body.Object?
    ensures var s, r := ApplyLayer(Native, fs, entries).value, ApplyLayer(Native, fs, entries + [e]);
            && (r.Some? <==> Replaceable(s.fs, Named(e)))
            && (r.Some? ==> Gains(s.fs, r.value.fs, Named(e), Leaf(e.body.inode)) && r.value.dirs == s.dirs)
  {
    OneMore(fs, entries, e);
    PlainIsPut(e);
    var s := ApplyLayer(Native, fs, entries).value;
    PutStep(s, Classify(e));
    ReplaceableMeans(s.fs, Named(e));
    if Named(e) != [] { PlacedGains(s.fs, Named(e), Leaf(e.body.inode)); }
  }

  /** A directory entry makes a directory, over a symlink too but over no other file, and is recorded. */
  lemma DirectoryMakes(fs: Tree, entries: seq<Entry>, e: Entry)
    requires IsTree(fs) && ApplyLayer(Native, fs, entries).Some? && Plain(e) && e.body.Directory?
    ensures var s, r, p := ApplyLayer(Native, fs, entries).value, ApplyLayer(Native, fs, entries + [e]), Named(e);
            && (r.Some? <==>
                && p != [] && (forall q | q < p && q in s.fs :: s.fs[q].Dir?)
                && (p in s.fs ==> s.fs[p].Dir? || s.fs[p].inode.kind.Symlink?))
            && (r.Some? ==> Gains(s.fs, r.value.fs, p, Dir) && r.value.dirs == s.dirs + [p])
  {
    OneMore(fs, entries, e);
    PlainIsPut(e);
    var s := ApplyLayer(Native, fs, entries).value;
    PutStep(s, Classify(e));
    ReplaceableMeans(s.fs, Named(e));
    if Named(e) in s.fs {
      AlreadyThere(s.fs, Named(e), Dir);
    } else if Named(e) != [] {
      PlacedGains(s.fs, Named(e), Dir);
    }
  }

  /**
   A hard-link entry whose source is there names the source's inode, if the entry
   gives that inode's mode and owner, and its time if it gives one.
   */
  lemma LinkMakes(fs: Tree, entries: seq<Entry>, e: Entry, source: Path)
    requires IsTree(fs) && ApplyLayer(Native, fs, entries).Some?
    requires Plain(e) && e.body.HardLink? && e.body.source == Some(source)
    ensures var s, r := ApplyLayer(Native, fs, entries).value, ApplyLayer(Native, fs, entries + [e]);
            && (r.Some? <==>
                && source in s.fs && s.fs[source].Leaf? && Replaceable(s.fs, Named(e))
                && var meta := s.fs[source].inode.meta;
                && e.body.meta.mode == meta.mode && e.body.meta.owner == meta.owner
                && (e.body.meta.mtime.Some? ==> e.body.meta.mtime == meta.mtime))
            && (r.Some? ==> Gains(s.fs, r.value.fs, Named(e), s.fs[source]) && r.value.dirs == s.dirs)
  {
    OneMore(fs, entries, e);
    PlainIsPut(e);
    var s := ApplyLayer(Native, fs, entries).value;
    assert CancelForEntry([], Named(e), e.body) == [];
    var t := TryLink(Native, s.fs, Link(Named(e), source, e.body.meta));
    ReplaceableMeans(s.fs, Named(e));
    if source in s.fs {
      ExistingHasNoLeafAbove(s.fs, source);
      if Named(e) != [] { PlacedGains(s.fs, Named(e), s.fs[source]); }
    }
    if t.Linked? {
      assert Resolve(Native, t.fs, []) == Done(t.fs, []);
    }
  }

  /** What is refused as an entry: an unsafe name, a link name that is refused, a type that is not supported. */
  lemma RefusedEntry(fs: Tree, entries: seq<Entry>, e: Entry)
    requires IsTree(fs) && ApplyLayer(Native, fs, entries).Some?
    requires e.unsafe || (Plain(e) && (e.body.Unsupported? || (e.body.HardLink? && e.body.source.None?)))
    ensures ApplyLayer(Native, fs, entries + [e]).None?
  {
    OneMore(fs, entries, e);
    if Plain(e) { PlainIsPut(e); }
  }

  /** An opaque whiteout removes exactly what is strictly below its directory. */
  lemma OpaqueClears(fs: Tree, entries: seq<Entry>, e: Entry)
    requires IsTree(fs) && ApplyLayer(Native, fs, entries).Some? && Opaque(e)
    ensures var s, r := ApplyLayer(Native, fs, entries).value, ApplyLayer(Native, fs, entries + [e]);
            && r.Some?
            && (forall q :: q in r.value.fs <==> q in s.fs && !(e.dir < q))
            && (forall q | q in r.value.fs :: r.value.fs[q] == s.fs[q])
            && (forall d :: d in r.value.dirs <==> d in s.dirs && !(e.dir < d))
  {
    OneMore(fs, entries, e);
    OpaqueIsClear(e);
  }

  /** Another whiteout removes exactly what it names and what is below that, unless a file is in its way. */
  lemma WhiteoutRemoves(fs: Tree, entries: seq<Entry>, e: Entry, name: string)
    requires IsTree(fs) && ApplyLayer(Native, fs, entries).Some? && WhiteoutOf(e, name)
    ensures var s, r, p := ApplyLayer(Native, fs, entries).value, ApplyLayer(Native, fs, entries + [e]), e.dir + [name];
            && (r.Some? <==> forall q | q < p && q in s.fs :: s.fs[q].Dir?)
            && (r.Some? ==>
                && (forall q :: q in r.value.fs <==> q in s.fs && !(p <= q))
                && (forall q | q in r.value.fs :: r.value.fs[q] == s.fs[q])
                && (forall d :: d in r.value.dirs <==> d in s.dirs && !(p <= d)))
  {
    OneMore(fs, entries, e);
    WhiteoutIsRemove(e, name);
  }

  // ---------- Any entries, any process ----------

  lemma {:induction false} StreamRefuses(k: Linking, s: State, actions: seq<Action>)
    requires Refuse in actions
    ensures Stream(k, s, actions).None?
    decreases |actions|
  {
    if actions[0] != Refuse && Step(k, s, actions[0]).Some? {
      StreamRefuses(k, Step(k, s, actions[0]).value, actions[1..]);
    }
  }

  /** One unsafe name anywhere makes a layer fail. */
  lemma UnsafeFails(k: Linking, fs: Tree, entries: seq<Entry>, e: Entry)
    requires e in entries && e.unsafe
    ensures ApplyLayer(k, fs, entries).None?
  {
    var i :| 0 <= i < |entries| && entries[i] == e;
    assert Actions(entries)[i] == Refuse;
    StreamRefuses(k, State(fs, [], []), Actions(entries));
  }

  /** Retrying links changes no node but those of their targets. */
  lemma {:induction false} PassKeepsAt(k: Linking, fs: Tree, q: seq<Link>, p: Path)
    requires Pass(k, fs, q).Done? && p in fs && forall l | l in q :: l.target != p
    ensures p in Pass(k, fs, q).fs && Pass(k, fs, q).fs[p] == fs[p]
    ensures forall l | l in Pass(k, fs, q).kept :: l in q
    decreases |q|
  {
    if q != [] {
      PassKeepsAt(k, TryLink(k, fs, q[0]).fs, q[1..], p);
    }
  }

  lemma {:induction false} ResolveKeepsAt(k: Linking, fs: Tree, q: seq<Link>, p: Path)
    requires Resolve(k, fs, q).Done? && p in fs && forall l | l in q :: l.target != p
    ensures p in Resolve(k, fs, q).fs && Resolve(k, fs, q).fs[p] == fs[p]
    ensures forall l | l in Resolve(k, fs, q).kept :: l in q
    decreases |q|
  {
    PassKeepsAt(k, fs, q, p);
    var r := Pass(k, fs, q);
    if |r.kept| < |q| {
      ResolveKeepsAt(k, r.fs, r.kept, p);
    }
  }

  /** Whatever came before and whatever was waiting: what the last entry makes is there in the end. */
  lemma LastEntryStands(k: Linking, fs: Tree, entries: seq<Entry>, e: Entry)
    requires IsTree(fs) && Plain(e) && (e.body.Object? || e.body.Directory?)
    requires ApplyLayer(k, fs, entries + [e]).Some?
    ensures var fs' := ApplyLayer(k, fs, entries + [e]).value.fs;
            Named(e) in fs' && fs'[Named(e)] == if e.body.Object? then Leaf(e.body.inode) else Dir
  {
    var s0, a, p := State(fs, [], []), Classify(e), Named(e);
    ActionsSnoc(entries, e);
    PlainIsPut(e);
    StreamSnoc(k, s0, Actions(entries), a);
    var s := Stream(k, s0, Actions(entries)).value;
    var made, q := CreateNode(s.fs, p, e.body).value, CancelForEntry(s.queue, p, e.body);
    ResolveKeepsAt(k, made, q, p);
    var r := Resolve(k, made, q);
    ResolveKeepsAt(k, r.fs, r.kept, p);
  }

  // ---------- Links that wait ----------

  ghost predicate LeafAt(fs: Tree, p: Path) {
    p in fs && fs[p].Leaf?
  }

  lemma {:induction false} PassKeepsOrLinks(k: Linking, fs: Tree, q: seq<Link>, l: Link)
    requires Pass(k, fs, q).Done?
    ensures LeafAt(fs, l.target) ==> LeafAt(Pass(k, fs, q).fs, l.target)
    ensures l in q ==> l in Pass(k, fs, q).kept || LeafAt(Pass(k, fs, q).fs, l.target)
    ensures l in Pass(k, fs, q).kept ==> l in q
    decreases |q|
  {
    if q != [] {
      PassKeepsOrLinks(k, TryLink(k, fs, q[0]).fs, q[1..], l);
    }
  }

  lemma {:induction false} ResolveKeepsOrLinks(k: Linking, fs: Tree, q: seq<Link>, l: Link)
    requires Resolve(k, fs, q).Done?
    ensures LeafAt(fs, l.target) ==> LeafAt(Resolve(k, fs, q).fs, l.target)
    ensures l in q ==> l in Resolve(k, fs, q).kept || LeafAt(Resolve(k, fs, q).fs, l.target)
    ensures l in Resolve(k, fs, q).kept ==> l in q
    decreases |q|
  {
    PassKeepsOrLinks(k, fs, q, l);
    var r := Pass(k, fs, q);
    if |r.kept| < |q| {
      ResolveKeepsOrLinks(k, r.fs, r.kept, l);
    }
  }

  /** What an action takes the place of: links at its path, and all below it unless it is a directory. */
  predicate Shadows(a: Action, target: Path) {
    match a
    case Put(p, Directory) => target == p
    case Put(p, _) => p <= target
    case Clear(dir) => dir < target
    case Remove(p) => p <= target
    case Refuse => false
  }

  /**
   A waiting link is given up exactly when an entry or whiteout takes its place;
   any other goes on waiting until there is a file at its target.
   */
  lemma WaitsUntilShadowed(k: Linking, s: State, a: Action, l: Link)
    requires l in s.queue && Step(k, s, a).Some?
    ensures var s' := Step(k, s, a).value;
            && (!Shadows(a, l.target) ==> l in s'.queue || LeafAt(s'.fs, l.target))
            && (Shadows(a, l.target) && l in s'.queue ==>
                  a.Put? && a.body.HardLink? && l == Link(a.path, a.body.source.value, a.body.meta))
  {
    if a.Put? && Placed(k, s.fs, a.path, a.body).Some? {
      ResolveKeepsOrLinks(k, Placed(k, s.fs, a.path, a.body).value, CancelForEntry(s.queue, a.path, a.body), l);
    }
  }

  // ---------- Nothing else is touched ----------

  ghost predicate TargetAbove(q: seq<Link>, p: Path) {
    exists l :: l in q && p <= l.target
  }

  /** Retrying links removes nothing and changes only what is at or above their targets. */
  ghost predicate TouchesOnly(fs: Tree, fs': Tree, q: seq<Link>) {
    && (forall p | p in fs :: p in fs')
    && (forall p | p in fs' :: (p in fs && fs'[p] == fs[p]) || TargetAbove(q, p))
  }

  lemma {:induction false} PassTouches(k: Linking, fs: Tree, q: seq<Link>)
    requires Pass(k, fs, q).Done?
    ensures TouchesOnly(fs, Pass(k, fs, q).fs, q) && forall l | l in Pass(k, fs, q).kept :: l in q
    decreases |q|
  {
    if q != [] {
      var fs1 := TryLink(k, fs, q[0]).fs;
      PassTouches(k, fs1, q[1..]);
      assert TouchesOnly(fs, fs1, [q[0]]) by {
        assert q[0] in [q[0]];
      }
      TouchesMore(fs, fs1, Pass(k, fs, q).fs, [q[0]], q[1..], q);
    }
  }

  lemma TouchesMore(fs: Tree, fs1: Tree, fs2: Tree, a: seq<Link>, b: seq<Link>, q: seq<Link>)
    requires TouchesOnly(fs, fs1, a) && TouchesOnly(fs1, fs2, b)
    requires (forall l | l in a :: l in q) && (forall l | l in b :: l in q)
    ensures TouchesOnly(fs, fs2, q)
  {
    forall p | TargetAbove(a, p) || TargetAbove(b, p)
      ensures TargetAbove(q, p)
    {
      var l :| (l in a || l in b) && p <= l.target;
      assert l in q;
    }
  }

  lemma {:induction false} ResolveTouches(k: Linking, fs: Tree, q: seq<Link>)
    requires Resolve(k, fs, q).Done?
    ensures TouchesOnly(fs, Resolve(k, fs, q).fs, q) && forall l | l in Resolve(k, fs, q).kept :: l in q
    decreases |q|
  {
    PassTouches(k, fs, q);
    var r := Pass(k, fs, q);
    if |r.kept| < |q| {
      ResolveTouches(k, r.fs, r.kept);
      TouchesMore(fs, r.fs, Resolve(k, fs, q).fs, q, r.kept, q);
    }
  }

  ghost predicate PutBySome(actions: seq<Action>, p: Path) {
    exists i :: 0 <= i < |actions| && Touches(actions[i], p)
  }

  /** What a stream of actions may have done to a tree. */
  ghost predicate Accounted(fs: Tree, s: State, actions: seq<Action>) {
    && (forall p | p in s.fs :: (p in fs && s.fs[p] == fs[p]) || PutBySome(actions, p))
    && (forall p | p in fs :: p in s.fs || HitBySome(actions, p))
    && (forall l | l in s.queue :: PutBySome(actions, l.target))
  }

  lemma SomeSnoc(actions: seq<Action>, a: Action, p: Path)
    ensures PutBySome(actions + [a], p) <==> PutBySome(actions, p) || Touches(a, p)
    ensures HitBySome(actions + [a], p) <==> HitBySome(actions, p) || Hits(a, p)
  {
    var all := actions + [a];
    assert forall i | 0 <= i < |actions| :: all[i] == actions[i];
    assert all[|actions|] == a;
  }

  lemma PutByPrefix(actions: seq<Action>, p: Path, t: Path)
    requires PutBySome(actions, t) && p <= t
    ensures PutBySome(actions, p)
  {
    var i :| 0 <= i < |actions| && Touches(actions[i], t);
    assert p <= actions[i].path;
  }

  /** What an entry does to the tree and to the queue before links are retried. */
  lemma EntryTouches(k: Linking, fs: Tree, q: seq<Link>, target: Path, body: Body)
    requires ApplyEntry(k, fs, q, target, body).Done?
    ensures var r := ApplyEntry(k, fs, q, target, body);
            && (forall p | p in fs :: p in r.fs)
            && (forall p | p in r.fs :: (p in fs && r.fs[p] == fs[p]) || TargetAbove(q, p) || p <= target)
            && (forall l | l in r.kept :: l in q || l.target == target)
  {
    var q' := CancelForEntry(q, target, body);
    if Placed(k, fs, target, body).Some? {
      var fs1 := Placed(k, fs, target, body).value;
      ResolveTouches(k, fs1, q');
      forall p | TargetAbove(q', p)
        ensures TargetAbove(q, p)
      {
        var l :| l in q' && p <= l.target;
        assert l in q;
      }
    }
  }

  lemma StepAccounted(k: Linking, fs: Tree, s: State, actions: seq<Action>, a: Action)
    requires Accounted(fs, s, actions) && Step(k, s, a).Some?
    ensures Accounted(fs, Step(k, s, a).value, actions + [a])
  {
    var s' := Step(k, s, a).value;
    forall p
      ensures PutBySome(actions + [a], p) <==> PutBySome(actions, p) || Touches(a, p)
      ensures HitBySome(actions + [a], p) <==> HitBySome(actions, p) || Hits(a, p)
    {
      SomeSnoc(actions, a, p);
    }
    if a.Put? {
      EntryTouches(k, s.fs, s.queue, a.path, a.body);
      forall p | TargetAbove(s.queue, p)
        ensures PutBySome(actions, p)
      {
        var l :| l in s.queue && p <= l.target;
        PutByPrefix(actions, p, l.target);
      }
    }
  }

  lemma {:induction false} StreamAccounted(k: Linking, fs: Tree, actions: seq<Action>)
    requires Stream(k, State(fs, [], []), actions).Some?
    ensures Accounted(fs, Stream(k, State(fs, [], []), actions).value, actions)
    decreases |actions|
  {
    if actions != [] {
      var init, a := actions[..|actions| - 1], actions[|actions| - 1];
      assert actions == init + [a];
      StreamSnoc(k, State(fs, [], []), init, a);
      StreamAccounted(k, fs, init);
      StepAccounted(k, fs, Stream(k, State(fs, [], []), init).value, init, a);
    }
  }

  ghost predicate NamedBySome(entries: seq<Entry>, p: Path) {
    exists i :: 0 <= i < |entries| && Plain(entries[i]) && p <= Named(entries[i])
  }

  /** The entry is a whiteout and what it names covers the path. */
  predicate Covers(e: Entry, p: Path) {
    !e.unsafe && ".wh." <= e.base &&
    if e.base == ".wh..wh..opq" then e.dir < p
    else
      var name := e.base[4..];
      if name == "" || name == "." then e.dir <= p
      else if name == ".." then e.dir != [] && e.dir[..|e.dir| - 1] <= p
      else e.dir + [name] <= p
  }

  ghost predicate CoveredBySome(entries: seq<Entry>, p: Path) {
    exists i :: 0 <= i < |entries| && Covers(entries[i], p)
  }

  lemma ClassifiedPaths(e: Entry, p: Path)
    ensures Touches(Classify(e), p) ==> Plain(e) && p <= Named(e)
    ensures Hits(Classify(e), p) ==> Covers(e, p)
  {
    if Plain(e) { PlainIsPut(e); }
  }

  /**
   Whatever the entries, the process and the tree they are applied to: what is
   there afterwards was there before, or is named by an entry or above one that
   is; and what is gone is covered by a whiteout.
   */
  lemma LayerTouches(k: Linking, fs: Tree, entries: seq<Entry>)
    requires ApplyLayer(k, fs, entries).Some?
    ensures var fs' := ApplyLayer(k, fs, entries).value.fs;
            && (forall p | p in fs' :: (p in fs && fs'[p] == fs[p]) || NamedBySome(entries, p))
            && (forall p | p in fs && p !in fs' :: CoveredBySome(entries, p))
  {
    var actions := Actions(entries);
    StreamAccounted(k, fs, actions);
    var s := Stream(k, State(fs, [], []), actions).value;
    ResolveTouches(k, s.fs, s.queue);
    forall p | TargetAbove(s.queue, p)
      ensures PutBySome(actions, p)
    {
      var l :| l in s.queue && p <= l.target;
      PutByPrefix(actions, p, l.target);
    }
    forall p
      ensures PutBySome(actions, p) ==> NamedBySome(entries, p)
      ensures HitBySome(actions, p) ==> CoveredBySome(entries, p)
    {
      if i :| 0 <= i < |actions| && Touches(actions[i], p) {
        ClassifiedPaths(entries[i], p);
      }
      if i :| 0 <= i < |actions| && Hits(actions[i], p) {
        ClassifiedPaths(entries[i], p);
      }
    }
  }
}
