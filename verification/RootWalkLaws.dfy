/**
 The laws by which a path is walked, one for each kind of component, and what
 they come to where there is no link on the way.
 */
module RootWalkLaws {
  import opened RootWalk
  import opened WhiteSpace
  import opened Wrappers

  // ---------- Splitting ----------

  /** Parts that name nothing make no difference to a walk. */
  lemma {:induction false} SplitWalksAlike(fs: Files, at: Path, budget: nat, parts: seq<string>)
    ensures Follow(fs, at, budget, SplitParts(parts)) == Follow(fs, at, budget, parts)
    decreases budget, |parts|
  {
    if parts != [] {
      var c, rest := parts[0], parts[1..];
      if c == "" || c == "." {
        SplitWalksAlike(fs, at, budget, rest);
      } else {
        FollowComposes(fs, at, budget, [c], SplitParts(rest));
        FollowComposes(fs, at, budget, [c], rest);
        assert [c] + rest == parts;
        var r := Follow(fs, at, budget, [c]);
        if r.Ok? {
          SplitWalksAlike(fs, r.value.path, r.value.budget, rest);
        }
      }
    }
  }

  // ---------- One component ----------

  /**
   The target of a link is walked as it is written, from the root or from the
   directory the link is in, and costs one link of the budget.
   */
  lemma WalksTarget(fs: Files, at: Path, budget: nat, c: string, rest: seq<string>, absolute: bool,
                    parts: seq<string>)
    requires Proper(c) && at + [c] in fs && fs[at + [c]] == Symlink(absolute, parts)
    requires forall k | 0 < k <= |at| && at[..k] in fs :: !fs[at[..k]].File?
    ensures Follow(fs, at, budget, [c] + rest)
         == if budget == 0 then Err(TooManySymlinks)
            else Follow(fs, if absolute then [] else at, budget - 1, parts + rest)
  {
    assert ([c] + rest)[0] == c && ([c] + rest)[1..] == rest;
    NothingBelowFile(fs, at, c);
    if budget > 0 {
      var base := if absolute then [] else at;
      SplitWalksAlike(fs, base, budget - 1, parts);
      FollowComposes(fs, base, budget - 1, parts, rest);
    }
  }

  lemma NothingBelowFile(fs: Files, at: Path, c: string)
    requires forall k | 0 < k <= |at| && at[..k] in fs :: !fs[at[..k]].File?
    ensures !BelowFile(fs, at + [c])
  {
    assert forall k | 0 < k <= |at| :: (at + [c])[..k] == at[..k];
  }

  /** ".." goes up one component, and stays at the root. */
  lemma WalksUp(fs: Files, at: Path, c: string, budget: nat, rest: seq<string>)
    ensures Follow(fs, at + [c], budget, [".."] + rest) == Follow(fs, at, budget, rest)
    ensures Follow(fs, [], budget, [".."] + rest) == Follow(fs, [], budget, rest)
  {
    assert ([".."] + rest)[0] == ".." && ([".."] + rest)[1..] == rest;
    assert (at + [c])[..|at|] == at;
    assert |".."| == 2;
  }

  /** A name that is no link is gone down, whether it exists or not. */
  lemma WalksDown(fs: Files, at: Path, budget: nat, c: string, rest: seq<string>)
    requires Proper(c) && (at + [c] in fs ==> !fs[at + [c]].Symlink?)
    requires forall k | 0 < k <= |at| && at[..k] in fs :: !fs[at[..k]].File?
    ensures Follow(fs, at, budget, [c] + rest) == Follow(fs, at + [c], budget, rest)
  {
    assert ([c] + rest)[0] == c && ([c] + rest)[1..] == rest;
    NothingBelowFile(fs, at, c);
  }

  /** A name below a file cannot be inspected. */
  lemma WalksIntoFile(fs: Files, at: Path, budget: nat, c: string, rest: seq<string>, k: nat)
    requires Proper(c) && 0 < k <= |at| && at[..k] in fs && fs[at[..k]].File?
    ensures Follow(fs, at, budget, [c] + rest) == Err(StatFailed)
  {
    assert ([c] + rest)[0] == c && (at + [c])[..k] == at[..k];
  }

  // ---------- Where there are no links ----------

  ghost predicate OnlyDirs(fs: Files) {
    forall p | p in fs :: fs[p].Dir?
  }

  /** Without links and files a walk is lexical cleaning. */
  lemma {:induction false} WalksLexically(fs: Files, at: Path, budget: nat, parts: seq<string>)
    requires OnlyDirs(fs)
    ensures Follow(fs, at, budget, parts) == Ok(Place(CleanBelow(at, parts), budget))
    decreases |parts|
  {
    if parts != [] {
      var c, rest := parts[0], parts[1..];
      if c == "" || c == "." {
        WalksLexically(fs, at, budget, rest);
      } else if c == ".." {
        WalksLexically(fs, Parent(at), budget, rest);
      } else {
        NothingBelowFile(fs, at, c);
        WalksLexically(fs, at + [c], budget, rest);
      }
    }
  }

  /** And cleaning reads the parts from the left: the last one decides what becomes of the rest. */
  lemma {:induction false} CleansLast(base: Path, parts: seq<string>, c: string)
    ensures var p := CleanBelow(base, parts);
            CleanBelow(base, parts + [c]) == if c == "" || c == "." then p
                                             else if c != ".." then p + [c]
                                             else if p == [] then [] else p[..|p| - 1]
    decreases |parts|
  {
    if parts == [] {
      assert parts + [c] == [c];
      CleanOne(base, c);
    } else {
      assert (parts + [c])[1..] == parts[1..] + [c];
      CleansLast(if parts[0] == "" || parts[0] == "." then base
                 else if parts[0] == ".." then Parent(base) else base + [parts[0]], parts[1..], c);
    }
  }

  // ---------- Requests ----------

  predicate Blank(s: string) {
    forall ch | ch in s :: IsSpace(ch)
  }

  lemma {:induction false} TrimLeftDrops(blank: string, s: string)
    requires Blank(blank)
    ensures TrimLeft(blank + s) == TrimLeft(s)
    decreases |blank|
  {
    if blank == "" {
      assert blank + s == s;
    } else {
      assert blank[0] in blank && (blank + s)[1..] == blank[1..] + s;
      TrimLeftDrops(blank[1..], s);
    }
  }

  lemma {:induction false} TrimRightDrops(s: string, blank: string)
    requires Blank(blank)
    ensures TrimRight(s + blank) == TrimRight(s)
    decreases |blank|
  {
    if blank == "" {
      assert s + blank == s;
    } else {
      assert blank[|blank| - 1] in blank && (s + blank)[..|s + blank| - 1] == s + blank[..|blank| - 1];
      TrimRightDrops(s, blank[..|blank| - 1]);
    }
  }

  lemma TrimmedEnds(first: string, middle: seq<string>, last: string)
    ensures TrimRequest([first] + middle + [last]) == [TrimLeft(first)] + middle + [TrimRight(last)]
  {
    var parts := [first] + middle + [last];
    assert parts[1..] == middle + [last];
    var left := [TrimLeft(first)] + (middle + [last]);
    assert left[|left| - 1] == last;
    assert left[|left| - 1 := TrimRight(last)] == [TrimLeft(first)] + middle + [TrimRight(last)];
  }

  lemma TrimmedOne(only: string)
    ensures TrimRequest([only]) == [TrimRight(TrimLeft(only))]
  {
    assert [only][1..] == [];
    assert [TrimLeft(only)] + [] == [TrimLeft(only)];
  }

  /** White space in front of a request and behind it makes no difference. */
  lemma RequestTrimmed(first: string, middle: seq<string>, last: string, before: string, behind: string)
    requires Blank(before) && Blank(behind)
    ensures Normalize([before + first] + middle + [last + behind]) == Normalize([first] + middle + [last])
    ensures Normalize([before + first]) == Normalize([first])
  {
    TrimLeftDrops(before, first);
    TrimRightDrops(last, behind);
    TrimmedEnds(before + first, middle, last + behind);
    TrimmedEnds(first, middle, last);
    TrimmedOne(before + first);
    TrimmedOne(first);
  }

  /** Without white space at its ends a request is read from the root, part by part; only a blank one is refused. */
  lemma RequestRead(parts: seq<string>)
    requires parts != [] && (parts[0] != "" ==> !IsSpace(parts[0][0])) && !EndsInSpace(parts[|parts| - 1])
    ensures Normalize(parts) == if parts == [""] then Err(EmptyPath) else Ok(CleanBelow([], parts))
  {
    TrimRightShape(parts[|parts| - 1]);
    assert TrimLeft(parts[0]) == parts[0];
    assert [parts[0]] + parts[1..] == parts;
    assert TrimRequest(parts) == parts;
  }

  /** Resolving gives up exactly at the 256th link. */
  lemma ResolutionLimit(fs: Files, root: Path, logical: seq<string>, p: Path)
    requires Normalize(logical) == Ok(p)
    ensures Resolution(fs, root, logical) == Err(TooManySymlinks)
        <==> exists n: nat :: LinksOf(Turns(fs, Walk([], p, 0), n)) >= 256
  {
    FollowExact(fs, p, MAX_BUILD_SYMLINKS, []);
    assert forall n: nat :: LinksOf(Turns(fs, Walk([], p, 0), n)) > MAX_BUILD_SYMLINKS
                       <==> LinksOf(Turns(fs, Walk([], p, 0), n)) >= 256;
  }

  /** The link "/a/l" to "../b" leads to "/b". */
  lemma LinkGoesUp(fs: Files)
    requires fs == map[["a"] := Dir, ["b"] := Dir, ["a", "l"] := Symlink(false, ["..", "b"])]
    ensures Follow(fs, [], 255, ["a", "l"]) == Ok(Place(["b"], 254))
  {
    var down, up: seq<string> := ["l"], [".."] + ["b"];
    assert ["a", "l"] == ["a"] + down && ["a", "l"] == ["a"] + ["l"] && [] + ["a"] == ["a"];
    assert |"a"| == 1 && |"l"| == 1 && |"b"| == 1 && |"."| == 1 && |".."| == 2;
    assert "a"[0] != '.' && "l"[0] != '.' && "b"[0] != '.' && "."[0] == '.';
    assert forall k | 0 < k <= |["a"]| :: ["a"][..k] == ["a"];
    WalksDown(fs, [], 255, "a", down);
    WalksTarget(fs, ["a"], 255, "l", [], false, ["..", "b"]);
    assert ["l"] + [] == down && ["..", "b"] + [] == up;
    WalksUp(fs, [], "a", 254, ["b"]);
    WalksDown(fs, [], 254, "b", []);
    assert ["b"] + [] == ["b"] && [] + ["b"] == ["b"];
  }
}
