/**
 Resolution of a container path inside a build root, following symlinks without
 leaving the root (`internal/builder/paths.go`). The filesystem is static, a path
 is its list of components, and splitting a string at "/" is not modelled.
 */
module RootWalk {
  import opened WhiteSpace
  import opened Wrappers

  type Path = seq<string>

  /** A link target as split at "/": parts may be empty, "." or "..". */
  datatype Node = Dir | File | Symlink(absolute: bool, parts: seq<string>)

  type Files = map<Path, Node>

  datatype Error = EmptyPath | StatFailed | TooManySymlinks | EscapedRoot | RootItself

  const MAX_BUILD_SYMLINKS: nat := 255

  datatype Stat = Found(node: Node) | Missing | StatError

  /** Inspects one path whose proper prefixes are not symlinks. */
  predicate BelowFile(fs: Files, p: Path) {
    exists k | 0 < k < |p| :: p[..k] in fs && fs[p[..k]].File?
  }

  function Lstat(fs: Files, p: Path): Stat {
    if BelowFile(fs, p) then StatError
    else if p in fs then Found(fs[p])
    else Missing
  }

  // ---------- Splitting and lexical cleaning ----------

  predicate Proper(c: string) {
    c != "" && c != "." && c != ".."
  }

  predicate ProperPath(p: Path) {
    forall c | c in p :: Proper(c)
  }

  function SplitParts(parts: seq<string>): (r: seq<string>)
    ensures forall c | c in r :: c != "" && c != "."
  {
    if parts == [] then []
    else if parts[0] == "" || parts[0] == "." then SplitParts(parts[1..])
    else [parts[0]] + SplitParts(parts[1..])
  }

  /** `out` is what stands in `parts` at the places `at`, which are those of all parts but "" and ".". */
  ghost predicate NamesOf(out: seq<string>, parts: seq<string>, at: seq<nat>) {
    && |at| == |out|
    && (forall i | 0 <= i < |at| :: at[i] < |parts| && out[i] == parts[at[i]])
    && (forall i, j | 0 <= i < j < |at| :: at[i] < at[j])
    && (forall k | 0 <= k < |parts| :: k in at <==> parts[k] != "" && parts[k] != ".")
  }

  lemma {:induction false} SplitSnoc(parts: seq<string>, c: string)
    ensures SplitParts(parts + [c]) == SplitParts(parts) + if c == "" || c == "." then [] else [c]
    decreases |parts|
  {
    if parts == [] {
      assert parts + [c] == [c] && [c][1..] == [];
    } else {
      assert (parts + [c])[1..] == parts[1..] + [c];
      SplitSnoc(parts[1..], c);
    }
  }

  lemma {:induction false} SplitKeepsNames(parts: seq<string>) returns (at: seq<nat>)
    ensures NamesOf(SplitParts(parts), parts, at)
    decreases |parts|
  {
    if parts == [] {
      at := [];
    } else {
      var init, c := parts[..|parts| - 1], parts[|parts| - 1];
      at := SplitKeepsNames(init);
      SplitSnoc(init, c);
      assert init + [c] == parts;
      if c != "" && c != "." {
        NamesSnoc(SplitParts(init), init, at, c);
        at := at + [|init|];
      } else {
        assert forall k | 0 <= k < |init| :: parts[k] == init[k];
      }
    }
  }

  lemma NamesSnoc(out: seq<string>, parts: seq<string>, at: seq<nat>, c: string)
    requires NamesOf(out, parts, at) && c != "" && c != "."
    ensures NamesOf(out + [c], parts + [c], at + [|parts|])
  {
    assert forall k :: k in at + [|parts|] <==> k in at || k == |parts|;
    assert forall i | 0 <= i < |at| :: (at + [|parts|])[i] == at[i];
  }

  function Parent(p: Path): Path {
    if p == [] then [] else p[..|p| - 1]
  }

  /** The lexical meaning of `parts` below `base`, never above the top. */
  function CleanBelow(base: Path, parts: seq<string>): Path
    decreases |parts|
  {
    if parts == [] then base
    else if parts[0] == "" || parts[0] == "." then CleanBelow(base, parts[1..])
    else if parts[0] == ".." then CleanBelow(Parent(base), parts[1..])
    else CleanBelow(base + [parts[0]], parts[1..])
  }

  /** White space around a request is dropped: before its first part and behind its last. */
  function TrimRequest(parts: seq<string>): (r: seq<string>)
    ensures |r| == |parts|
  {
    if parts == [] then []
    else
      var left := [TrimLeft(parts[0])] + parts[1..];
      left[|left| - 1 := TrimRight(left[|left| - 1])]
  }

  /** A blank request is refused; any other is read from the root. */
  function Normalize(request: seq<string>): Result<Path, Error> {
    var parts := TrimRequest(request);
    if parts == [] || parts == [""] then Err(EmptyPath) else Ok(CleanBelow([], parts))
  }

  lemma {:induction false} CleanBelowProper(base: Path, parts: seq<string>)
    requires ProperPath(base)
    ensures ProperPath(CleanBelow(base, parts))
    decreases |parts|
  {
    if parts != [] {
      var c := parts[0];
      if Proper(c) {
        CleanBelowProper(base + [c], parts[1..]);
      } else {
        CleanBelowProper(if c == ".." then Parent(base) else base, parts[1..]);
      }
    }
  }

  lemma {:induction false} CleanOfProper(base: Path, parts: seq<string>)
    requires ProperPath(parts)
    ensures CleanBelow(base, parts) == base + parts
    decreases |parts|
  {
    if parts != [] {
      assert Proper(parts[0]);
      CleanOfProper(base + [parts[0]], parts[1..]);
      assert base + [parts[0]] + parts[1..] == base + parts;
    }
  }

  // ---------- The recursive walk ----------

  /** Where a walk ends and how many links it may still follow. */
  datatype Place = Place(path: Path, budget: nat)

  /**
   The reference walk: a symlink is resolved by a nested walk over its own
   target, and the remaining components continue from where that walk ends.
   */
  ghost function Follow(fs: Files, at: Path, budget: nat, queue: seq<string>): (r: Result<Place, Error>)
    ensures r.Ok? ==> r.value.budget <= budget
    decreases budget, |queue|
  {
    if queue == [] then Ok(Place(at, budget))
    else
      var c, rest := queue[0], queue[1..];
      if c == "" || c == "." then Follow(fs, at, budget, rest)
      else if c == ".." then Follow(fs, Parent(at), budget, rest)
      else match Lstat(fs, at + [c])
        case StatError => Err(StatFailed)
        case Found(Symlink(absolute, parts)) =>
          if budget == 0 then Err(TooManySymlinks)
          else (match Follow(fs, if absolute then [] else at, budget - 1, SplitParts(parts))
                case Err(e) => Err(e)
                case Ok(place) => Follow(fs, place.path, place.budget, rest))
        case _ => Follow(fs, at + [c], budget, rest)
  }

  ghost function Continue(fs: Files, r: Result<Place, Error>, queue: seq<string>): Result<Place, Error> {
    match r
    case Err(e) => Err(e)
    case Ok(place) => Follow(fs, place.path, place.budget, queue)
  }

  /** Walks compose over concatenation of their components. */
  lemma {:induction false} FollowComposes(fs: Files, at: Path, budget: nat, q: seq<string>, q': seq<string>)
    ensures Follow(fs, at, budget, q + q') == Continue(fs, Follow(fs, at, budget, q), q')
    decreases budget, |q|
  {
    if q == [] {
      assert q + q' == q';
      return;
    }
    assert (q + q')[0] == q[0] && (q + q')[1..] == q[1..] + q';
    var c, rest := q[0], q[1..];
    if c == "" || c == "." {
      FollowComposes(fs, at, budget, rest, q');
    } else if c == ".." {
      FollowComposes(fs, Parent(at), budget, rest, q');
    } else {
      var s := Lstat(fs, at + [c]);
      if s.Found? && s.node.Symlink? {
        if budget > 0 {
          var r := Follow(fs, if s.node.absolute then [] else at, budget - 1, SplitParts(s.node.parts));
          if r.Ok? {
            FollowComposes(fs, r.value.path, r.value.budget, rest, q');
          }
        }
      } else if !s.StatError? {
        FollowComposes(fs, at + [c], budget, rest, q');
      }
    }
  }

  // ---------- The unbounded walk, step by step ----------

  datatype Walk = Walk(at: Path, queue: seq<string>, links: nat)

  datatype Progress = At(walk: Walk) | Broken(links: nat)

  /** One turn of the worklist, with no limit on symlinks. */
  ghost function Advance(fs: Files, w: Walk): Progress
    requires w.queue != []
  {
    var c, rest := w.queue[0], w.queue[1..];
    if c == "" || c == "." then At(Walk(w.at, rest, w.links))
    else if c == ".." then At(Walk(Parent(w.at), rest, w.links))
    else match Lstat(fs, w.at + [c])
      case StatError => Broken(w.links)
      case Found(Symlink(absolute, parts)) =>
        At(Walk(if absolute then [] else w.at, SplitParts(parts) + rest, w.links + 1))
      case _ => At(Walk(w.at + [c], rest, w.links))
  }

  ghost function Turns(fs: Files, w: Walk, n: nat): Progress
    decreases n
  {
    if n == 0 || w.queue == [] then At(w)
    else match Advance(fs, w)
      case Broken(links) => Broken(links)
      case At(w') => Turns(fs, w', n - 1)
  }

  function LinksOf(p: Progress): nat {
    match p case At(w) => w.links case Broken(links) => links
  }

  /** A walk is over when its queue is empty or an inspection failed. */
  predicate Over(p: Progress) {
    p.Broken? || p.walk.queue == []
  }

  lemma {:induction false} TurnsMonotone(fs: Files, w: Walk, n: nat, k: nat)
    requires n <= k
    ensures w.links <= LinksOf(Turns(fs, w, n)) <= LinksOf(Turns(fs, w, k))
    ensures Over(Turns(fs, w, n)) ==> Turns(fs, w, k) == Turns(fs, w, n)
    decreases k
  {
    if k > 0 && w.queue != [] && Advance(fs, w).At? {
      var w' := Advance(fs, w).walk;
      if n == 0 {
        TurnsMonotone(fs, w', 0, k - 1);
      } else {
        TurnsMonotone(fs, w', n - 1, k - 1);
      }
    }
  }

  /** What the bounded walk says about the unbounded one from the same place. */
  ghost predicate Agrees(r: Result<Place, Error>, p: Progress, start: nat, budget: nat) {
    match r
    case Ok(place) => place.budget <= budget && p == At(Walk(place.path, [], start + budget - place.budget))
    case Err(TooManySymlinks) => LinksOf(p) == start + budget + 1
    case Err(StatFailed) => p.Broken? && p.links <= start + budget
    case Err(_) => false
  }

  lemma {:induction false} FollowAgrees(fs: Files, w: Walk, budget: nat) returns (n: nat)
    ensures Agrees(Follow(fs, w.at, budget, w.queue), Turns(fs, w, n), w.links, budget)
    decreases budget, |w.queue|
  {
    if w.queue == [] {
      return 0;
    }
    var c, rest := w.queue[0], w.queue[1..];
    var a := Advance(fs, w);
    if a.Broken? {
      return 1;
    }
    if a.walk.links == w.links {
      n := FollowAgrees(fs, a.walk, budget);
    } else if budget == 0 {
      assert Turns(fs, a.walk, 0) == a;
      n := 0;
    } else {
      var node := Lstat(fs, w.at + [c]).node;
      FollowComposes(fs, a.walk.at, budget - 1, SplitParts(node.parts), rest);
      n := FollowAgrees(fs, a.walk, budget - 1);
    }
    n := n + 1;
  }

  ghost predicate EndsAt(p: Progress, at: Path, budget: nat) {
    p.At? && p.walk.queue == [] && p.walk.at == at && p.walk.links <= budget
  }

  /**
   The bounded walk ends at a path exactly when the unbounded one ends there
   having followed at most `budget` links, and it reports too many links exactly
   when the unbounded walk follows more than that.
   */
  lemma FollowExact(fs: Files, queue: seq<string>, budget: nat, p: Path)
    ensures var r, w := Follow(fs, [], budget, queue), Walk([], queue, 0);
            && (r == Err(TooManySymlinks) <==> exists n: nat :: LinksOf(Turns(fs, w, n)) > budget)
            && (r == Err(StatFailed) <==> exists n: nat :: Turns(fs, w, n).Broken? && Turns(fs, w, n).links <= budget)
            && (r.Ok? && r.value.path == p <==> exists n: nat :: EndsAt(Turns(fs, w, n), p, budget))
  {
    var r, w := Follow(fs, [], budget, queue), Walk([], queue, 0);
    var m := FollowAgrees(fs, w, budget);
    assert r == Err(TooManySymlinks) ==> LinksOf(Turns(fs, w, m)) > budget;
    assert r == Err(StatFailed) ==> Turns(fs, w, m).Broken? && Turns(fs, w, m).links <= budget;
    assert r.Ok? ==> EndsAt(Turns(fs, w, m), r.value.path, budget);
    if n: nat :| LinksOf(Turns(fs, w, n)) > budget {
      TurnsCompare(fs, w, n, m, r, budget);
    }
    if n: nat :| Turns(fs, w, n).Broken? && Turns(fs, w, n).links <= budget {
      TurnsCompare(fs, w, n, m, r, budget);
    }
    if n: nat :| EndsAt(Turns(fs, w, n), p, budget) {
      TurnsCompare(fs, w, n, m, r, budget);
    }
  }

  /** Any later or earlier look at the unbounded walk agrees with where the bounded one stopped. */
  lemma TurnsCompare(fs: Files, w: Walk, n: nat, m: nat, r: Result<Place, Error>, budget: nat)
    requires w.links == 0 && Agrees(r, Turns(fs, w, m), 0, budget)
    ensures LinksOf(Turns(fs, w, n)) > budget ==> r == Err(TooManySymlinks)
    ensures Over(Turns(fs, w, n)) && LinksOf(Turns(fs, w, n)) <= budget ==> Turns(fs, w, n) == Turns(fs, w, m)
  {
    if n <= m {
      TurnsMonotone(fs, w, n, m);
    } else {
      TurnsMonotone(fs, w, m, n);
    }
  }

  // ---------- What a successful walk returns ----------

  /** No dots, no symlink at any prefix and no file on the way. */
  ghost predicate Settled(fs: Files, p: Path) {
    && ProperPath(p)
    && forall k | 0 < k <= |p| && p[..k] in fs :: !fs[p[..k]].Symlink? && (k < |p| ==> !fs[p[..k]].File?)
  }

  lemma SettledChild(fs: Files, p: Path, c: string)
    requires Settled(fs, p) && Proper(c)
    requires var s := Lstat(fs, p + [c]); s.Missing? || (s.Found? && !s.node.Symlink?)
    ensures Settled(fs, p + [c])
  {
    var q := p + [c];
    assert forall k | 0 < k <= |p| :: q[..k] == p[..k];
    assert q[..|q|] == q && q[..|p|] == p;
  }

  /** An inspection below a settled path finds no link. */
  lemma SettledStat(fs: Files, p: Path, k: nat)
    requires Settled(fs, p) && 0 < k <= |p|
    ensures var s := Lstat(fs, p[..k]); s.Missing? || (s.Found? && !s.node.Symlink?)
  {
    assert forall j | 0 < j < k :: p[..k][..j] == p[..j];
  }

  lemma SettledParent(fs: Files, p: Path)
    requires Settled(fs, p)
    ensures Settled(fs, Parent(p))
  {
    assert forall k | 0 < k < |p| :: Parent(p)[..k] == p[..k];
  }

  lemma {:induction false} FollowSettles(fs: Files, at: Path, budget: nat, queue: seq<string>)
    requires Settled(fs, at) && Follow(fs, at, budget, queue).Ok?
    ensures Settled(fs, Follow(fs, at, budget, queue).value.path)
    decreases budget, |queue|
  {
    if queue == [] {
      return;
    }
    var c, rest := queue[0], queue[1..];
    if c == "" || c == "." {
      FollowSettles(fs, at, budget, rest);
    } else if c == ".." {
      SettledParent(fs, at);
      FollowSettles(fs, Parent(at), budget, rest);
    } else {
      var s := Lstat(fs, at + [c]);
      if s.Found? && s.node.Symlink? {
        var base := if s.node.absolute then [] else at;
        FollowSettles(fs, base, budget - 1, SplitParts(s.node.parts));
        var place := Follow(fs, base, budget - 1, SplitParts(s.node.parts)).value;
        FollowSettles(fs, place.path, place.budget, rest);
      } else {
        SettledChild(fs, at, c);
        FollowSettles(fs, at + [c], budget, rest);
      }
    }
  }

  lemma {:induction false} SettledTail(fs: Files, p: Path, k: nat, budget: nat)
    requires Settled(fs, p) && k <= |p|
    ensures Follow(fs, p[..k], budget, p[k..]) == Ok(Place(p, budget))
    decreases |p| - k
  {
    if k == |p| {
      assert p[..k] == p;
    } else {
      assert p[..k] + [p[k]] == p[..k + 1] && p[k..][1..] == p[k + 1..];
      assert p[k] in p;
      SettledStat(fs, p, k + 1);
      SettledTail(fs, p, k + 1, budget);
    }
  }

  /**
   A successful resolution has no dot component and no symlink at any prefix, and
   resolving it again yields itself without following any link.
   */
  lemma ResolutionIsFixed(fs: Files, queue: seq<string>, budget: nat, again: nat)
    requires Follow(fs, [], budget, queue).Ok?
    ensures var p := Follow(fs, [], budget, queue).value.path;
            Settled(fs, p) && Follow(fs, [], again, p) == Ok(Place(p, again))
  {
    FollowSettles(fs, [], budget, queue);
    var p := Follow(fs, [], budget, queue).value.path;
    SettledTail(fs, p, 0, again);
    assert p[..0] == [] && p[0..] == p;
  }

  // ---------- The program ----------

  method SplitLogicalComponents(parts: seq<string>) returns (out: seq<string>)
    ensures out == SplitParts(parts)
  {
    out := [];
    var i := 0;
    while i < |parts|
      invariant 0 <= i <= |parts|
      invariant out + SplitParts(parts[i..]) == SplitParts(parts)
    {
      assert parts[i..][0] == parts[i] && parts[i..][1..] == parts[i + 1..];
      if parts[i] != "" && parts[i] != "." {
        out := out + [parts[i]];
      }
      i := i + 1;
    }
  }

  ghost function PathOf(r: Result<Place, Error>): Result<Path, Error> {
    match r case Ok(place) => Ok(place.path) case Err(e) => Err(e)
  }

  /** The result below the root, as the recursive walk defines it. */
  ghost function Resolution(fs: Files, root: Path, logical: seq<string>): Result<Path, Error> {
    match Normalize(logical)
    case Err(e) => Err(e)
    case Ok(p) =>
      (match Follow(fs, [], MAX_BUILD_SYMLINKS, p)
       case Err(e) => Err(e)
       case Ok(place) => Ok(root + place.path))
  }

  /**
   The worklist loop. It terminates because each turn follows a link, of which
   at most 255 are allowed, or shortens the queue. The last check, that the
   result lies below the root, never fails.
   */
  method ResolveRootFSPath(fs: Files, root: Path, logical: seq<string>) returns (r: Result<Path, Error>)
    requires ProperPath(root)
    ensures r == Resolution(fs, root, logical)
    ensures r != Err(EscapedRoot)
    ensures r.Ok? ==> root <= r.value && Settled(fs, r.value[|root|..])
  {
    var normal := Normalize(logical);
    if normal.Err? {
      return normal;
    }
    var queue := SplitLogicalComponents(normal.value);
    CleanBelowProper([], TrimRequest(logical));
    SplitOfProper(normal.value);
    var resolved: Path := [];
    var symlinks := 0;
    ghost var goal := Follow(fs, [], MAX_BUILD_SYMLINKS, queue);
    while |queue| > 0
      invariant 0 <= symlinks <= MAX_BUILD_SYMLINKS
      invariant Follow(fs, resolved, MAX_BUILD_SYMLINKS - symlinks, queue) == goal
      decreases MAX_BUILD_SYMLINKS - symlinks, |queue|
    {
      var component, rest := queue[0], queue[1..];
      queue := rest;
      if component == "" || component == "." {
        continue;
      }
      if component == ".." {
        resolved := if |resolved| > 0 then resolved[..|resolved| - 1] else resolved;
        continue;
      }
      var info := Lstat(fs, resolved + [component]);
      if info.StatError? {
        return Err(StatFailed);
      }
      if info.Missing? || !info.node.Symlink? {
        resolved := resolved + [component];
        continue;
      }
      symlinks := symlinks + 1;
      if symlinks > MAX_BUILD_SYMLINKS {
        return Err(TooManySymlinks);
      }
      if info.node.absolute {
        resolved := [];
      }
      var parts := SplitLogicalComponents(info.node.parts);
      FollowComposes(fs, resolved, MAX_BUILD_SYMLINKS - symlinks, parts, rest);
      queue := parts + rest;
    }
    assert goal == Ok(Place(resolved, MAX_BUILD_SYMLINKS - symlinks));
    FollowSettles(fs, [], MAX_BUILD_SYMLINKS, normal.value);
    var result := CleanBelow([], root + resolved);
    CleanOfProper([], root + resolved);
    assert [] + (root + resolved) == root + resolved && (root + resolved)[|root|..] == resolved;
    if !(root <= result) {
      return Err(EscapedRoot);
    }
    return Ok(result);
  }

  lemma {:induction false} SplitOfProper(p: Path)
    requires ProperPath(p)
    ensures SplitParts(p) == p
    decreases |p|
  {
    if p != [] {
      assert Proper(p[0]);
      SplitOfProper(p[1..]);
    }
  }

  /** An absolute path split at "/"; the root "/" splits into two empty parts. */
  function Rendered(p: Path): seq<string> {
    if p == [] then ["", ""] else [""] + p
  }

  /** What is left of a directory's path once it was rendered and trimmed again. */
  function TrimmedDir(p: Path): Path {
    if p == [] then [] else CleanBelow(Parent(p), [TrimRight(p[|p| - 1])])
  }

  predicate EndsBlank(p: Path) {
    p != [] && EndsInSpace(p[|p| - 1])
  }

  lemma {:induction false} CleanSplits(base: Path, p: Path, last: string)
    requires ProperPath(p)
    ensures CleanBelow(base, p + [last]) == CleanBelow(base + p, [last])
    decreases |p|
  {
    if p == [] {
      assert p + [last] == [last] && base + p == base;
    } else {
      assert Proper(p[0]);
      assert (p + [last])[1..] == p[1..] + [last];
      CleanSplits(base + [p[0]], p[1..], last);
      assert base + [p[0]] + p[1..] == base + p;
    }
  }

  /**
   An absolute path without dot components is its own normal form if and only if
   its last component does not end in white space.
   */
  lemma NormalizeDir(p: Path)
    requires ProperPath(p)
    ensures Normalize(Rendered(p)) == Ok(TrimmedDir(p))
    ensures Normalize(Rendered(p)) == Ok(p) <==> !EndsBlank(p)
  {
    assert TrimLeft("") == "" && TrimRight("") == "";
    if p == [] {
      assert TrimRequest(["", ""]) == ["", ""];
      var last := [""];
      assert ["", ""][1..] == last && last[1..] == [];
      assert CleanBelow([], last) == CleanBelow([], []);
    } else {
      var dir, last := Parent(p), TrimRight(p[|p| - 1]);
      assert TrimRequest(Rendered(p)) == [""] + (dir + [last]);
      assert ([""] + (dir + [last]))[1..] == dir + [last];
      CleanSplits([], dir, last);
      assert [] + dir == dir;
      TrimmedDirIs(p);
    }
  }

  lemma CleanOne(base: Path, c: string)
    ensures CleanBelow(base, [c]) == if c == "" || c == "." then base else if c == ".." then Parent(base)
        else base + [c]
  {
    var one, none := [c], [];
    assert one[1..] == none;
    assert CleanBelow(base, none) == base && CleanBelow(Parent(base), none) == Parent(base);
    assert CleanBelow(base + [c], none) == base + [c];
  }

  /** A last component that ends in white space is cut, dropped, or read as a dot component. */
  lemma TrimmedDirIs(p: Path)
    requires ProperPath(p)
    ensures TrimmedDir(p) == p <==> !EndsBlank(p)
    ensures ProperPath(TrimmedDir(p))
  {
    if p != [] {
      var dir, last := Parent(p), TrimRight(p[|p| - 1]);
      TrimRightShape(p[|p| - 1]);
      assert p == dir + [p[|p| - 1]] && Proper(p[|p| - 1]);
      CleanOne(dir, last);
      CleanBelowProper(dir, [last]);
      if Proper(last) {
        assert TrimmedDir(p) == dir + [last];
        assert (dir + [last])[|dir|] == last;
      } else {
        assert |TrimmedDir(p)| <= |dir|;
      }
    }
  }

  // ---------- The parent of a leaf ----------

  /** Where a leaf is placed: its parent's path goes through normalization once more. */
  ghost function LeafOf(fs: Files, root: Path, p: Path): Result<Path, Error>
    requires p != []
  {
    match PathOf(Follow(fs, [], MAX_BUILD_SYMLINKS, TrimmedDir(Parent(p))))
    case Err(e) => Err(e)
    case Ok(dir) => Ok(root + dir + [p[|p| - 1]])
  }

  /** The leaf in the directory that its logical parent resolves to. */
  ghost function LeafInParent(fs: Files, root: Path, p: Path): Result<Path, Error>
    requires p != []
  {
    match PathOf(Follow(fs, [], MAX_BUILD_SYMLINKS, Parent(p)))
    case Err(e) => Err(e)
    case Ok(dir) => Ok(root + dir + [p[|p| - 1]])
  }

  /** Where no symlink is on the way, the leaf misses its parent exactly if that ends in white space. */
  lemma LeafLandsOnPlainPaths(fs: Files, root: Path, p: Path)
    requires ProperPath(p) && p != []
    requires Settled(fs, Parent(p)) && Settled(fs, TrimmedDir(Parent(p)))
    ensures LeafOf(fs, root, p) == LeafInParent(fs, root, p) <==> !EndsBlank(Parent(p))
  {
    var dir, trimmed, leaf := Parent(p), TrimmedDir(Parent(p)), [p[|p| - 1]];
    TrimmedDirIs(dir);
    SettledWalk(fs, dir);
    SettledWalk(fs, trimmed);
    if root + dir + leaf == root + trimmed + leaf {
      assert (root + dir + leaf)[|root|..|root| + |dir|] == dir;
      assert (root + trimmed + leaf)[|root|..|root| + |trimmed|] == trimmed;
    }
  }

  lemma SettledWalk(fs: Files, p: Path)
    requires Settled(fs, p)
    ensures Follow(fs, [], MAX_BUILD_SYMLINKS, p) == Ok(Place(p, MAX_BUILD_SYMLINKS))
  {
    SettledTail(fs, p, 0, MAX_BUILD_SYMLINKS);
    assert p[..0] == [] && p[0..] == p;
  }

  /**
   A leaf lands in the directory its logical parent resolves to, whatever the
   file system holds, if and only if that parent does not end in white space.
   */
  lemma LeafLandsExactly(root: Path, p: Path)
    requires ProperPath(p) && p != []
    ensures (forall fs: Files :: LeafOf(fs, root, p) == LeafInParent(fs, root, p)) <==> !EndsBlank(Parent(p))
  {
    TrimmedDirIs(Parent(p));
    var nothing: Files := map[];
    NothingSettles(Parent(p));
    NothingSettles(TrimmedDir(Parent(p)));
    LeafLandsOnPlainPaths(nothing, root, p);
  }

  lemma NothingSettles(p: Path)
    requires ProperPath(p)
    ensures Settled(map[], p)
  {
  }

  /** The link of a directory named "a " is put into the directory "a" beside it. */
  lemma LeafInOtherDirectory(root: Path)
    ensures var fs: Files := map[["a "] := Dir, ["a"] := Dir];
            && LeafOf(fs, root, ["a ", "link"]) == Ok(root + ["a"] + ["link"])
            && LeafInParent(fs, root, ["a ", "link"]) == Ok(root + ["a "] + ["link"])
  {
    var fs: Files := map[["a "] := Dir, ["a"] := Dir];
    var spaced, plain: Path := ["a "], ["a"];
    assert Parent(["a ", "link"]) == spaced;
    assert "a "[..1] == "a" && IsSpace(' ') && !IsSpace('a');
    assert TrimRight("a ") == TrimRight("a") == "a";
    assert Parent(spaced) == [];
    CleanOne([], "a");
    assert TrimmedDir(spaced) == [] + ["a"] == plain;
    OneDirSettles(fs, "a ");
    OneDirSettles(fs, "a");
    SettledWalk(fs, spaced);
    SettledWalk(fs, plain);
  }

  lemma OneDirSettles(fs: Files, c: string)
    requires Proper(c) && [c] in fs && fs[[c]].Dir?
    ensures Settled(fs, [c])
  {
    var p := [c];
    assert forall k | 0 < k <= |p| :: p[..k] == p;
  }

  /** Resolves the parent only: the last component is not followed. */
  method ResolveRootFSLeaf(fs: Files, root: Path, logical: seq<string>) returns (r: Result<Path, Error>)
    requires ProperPath(root)
    ensures Normalize(logical).Err? ==> r == Err(EmptyPath)
    ensures Normalize(logical) == Ok([]) ==> r == Err(RootItself)
    ensures Normalize(logical).Ok? && Normalize(logical).value != [] ==> r == LeafOf(fs, root, Normalize(logical).value)
  {
    var normal := Normalize(logical);
    if normal.Err? {
      return normal;
    }
    var p := normal.value;
    if p == [] {
      return Err(RootItself);
    }
    CleanBelowProper([], TrimRequest(logical));
    var dir := Parent(p);
    var request := Rendered(dir);
    NormalizeDir(dir);
    var parent := ResolveRootFSPath(fs, root, request);
    if parent.Err? {
      return parent;
    }
    return Ok(parent.value + [p[|p| - 1]]);
  }
}
