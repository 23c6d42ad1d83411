/** The recursive branch search over the child index, and its agreement with the best path. */
module LongestBranch {
  import opened Hashes
  import opened Forest

  /** Children lists by parent, each in the arbitrary order of a hash-map iteration. */
  type BranchMap = map<Hash, seq<Hash>>

  /** The children of p are exactly the listed ones. */
  ghost predicate ListsChildrenOf(bm: BranchMap, up: Parents, p: Hash) {
    forall h :: (h in up && up[h] == p) <==> (p in bm && h in bm[p])
  }

  ghost predicate Indexes(bm: BranchMap, up: Parents) {
    forall p :: ListsChildrenOf(bm, up, p)
  }

  /** The order of the search: `a` is strictly preferred to `b`. Decoding a tip that is not
      hexadecimal would abort the program, hence the precondition. */
  predicate Beats(a: seq<Hash>, b: seq<Hash>)
    requires a != [] && b != [] && Decode(Tip(a)).Some? && Decode(Tip(b)).Some?
  {
    |a| > |b| || (|a| == |b| && Rank(Tip(a)) < Rank(Tip(b)))
  }

  /** How far the search can still descend below h. */
  ghost function Room(up: Parents, h: Hash): (r: int)
    requires IsForest(up) && IsNode(up, h)
    ensures r >= 0
  {
    RootIsNoBlock(up);
    PathFits(up, PathTo(up, h));
    |up| - |PathTo(up, h)|
  }

  lemma ChildHasLessRoom(up: Parents, h: Hash)
    requires IsForest(up) && h in up
    ensures IsNode(up, up[h]) && Room(up, h) < Room(up, up[h])
  {
    PathOfChild(up, h);
  }

  /** h and the best branch below it. */
  function FindLongestBranch(bm: BranchMap, h: Hash, ghost up: Parents): (branch: seq<Hash>)
    requires IsForest(up) && Indexes(bm, up) && IsNode(up, h)
    ensures branch != [] && branch[0] == h && (h in up ==> Tip(branch) in up)
    decreases Room(up, h), 1, 0
  {
    assert ListsChildrenOf(bm, up, h);
    [h] + (if h in bm then Winner(bm, bm[h], h, up) else [])
  }

  /** The maximum over the branches that start at the listed children. A later branch replaces
      the current one unless the current one is strictly preferred. */
  function Winner(bm: BranchMap, children: seq<Hash>, ghost h: Hash, ghost up: Parents): (branch: seq<Hash>)
    requires IsForest(up) && Indexes(bm, up) && IsNode(up, h)
    requires forall c :: c in children ==> c in up && up[c] == h
    ensures branch == [] <==> children == []
    ensures branch != [] ==> branch[0] in children && Tip(branch) in up
    decreases Room(up, h), 0, |children|
  {
    if children == [] then []
    else
      var last := children[|children| - 1];
      ChildHasLessRoom(up, last);
      var candidate := FindLongestBranch(bm, last, up);
      var best := Winner(bm, children[..|children| - 1], h, up);
      if best == [] then candidate
      else
        DigestsAreRanked(Tip(best), Tip(candidate));
        DigestsAreRanked(Tip(candidate), Tip(best));
        if Beats(best, candidate) then best else candidate
  }

  /** `branch` is a continuation of the path to h, and no path through h is better. */
  ghost predicate IsBestBelow(up: Parents, h: Hash, branch: seq<Hash>)
    requires IsForest(up) && IsNode(up, h)
  {
    && IsPath(up, PathTo(up, h) + branch)
    && forall q :: IsPath(up, q) && PathTo(up, h) <= q ==> AtLeast(PathTo(up, h) + branch, q)
  }

  /** The same, only against paths that continue through one of the given children. */
  ghost predicate IsBestThrough(up: Parents, h: Hash, children: seq<Hash>, branch: seq<Hash>)
    requires IsForest(up) && IsNode(up, h)
  {
    var p := PathTo(up, h);
    && IsPath(up, p + branch)
    && forall q :: IsPath(up, q) && p <= q && |p| < |q| && q[|p|] in children ==> AtLeast(p + branch, q)
  }

  lemma {:induction false} FindIsBest(bm: BranchMap, h: Hash, up: Parents)
    requires IsForest(up) && Indexes(bm, up) && IsNode(up, h)
    ensures IsBestBelow(up, h, FindLongestBranch(bm, h, up)[1..])
    decreases Room(up, h), 1, 0
  {
    assert ListsChildrenOf(bm, up, h);
    var children := if h in bm then bm[h] else [];
    var branch := Winner(bm, children, h, up);
    assert FindLongestBranch(bm, h, up)[1..] == branch;
    if children != [] {
      WinnerIsBest(bm, children, h, up);
    }
    BestThroughAll(up, h, children, branch);
  }

  lemma NextOnPath(up: Parents, p: seq<Hash>, q: seq<Hash>)
    requires IsPath(up, q) && p <= q && |p| < |q|
    ensures q[|p|] in up && up[q[|p|]] == Tip(p)
  {
    PathAt(up, q, |p|);
    assert q[..|p|] == p;
  }

  /** The children are the only ways to continue the path to h. */
  lemma BestThroughAll(up: Parents, h: Hash, children: seq<Hash>, branch: seq<Hash>)
    requires IsForest(up) && IsNode(up, h)
    requires forall c :: c in up && up[c] == h ==> c in children
    requires if children == [] then branch == [] else IsBestThrough(up, h, children, branch)
    ensures IsBestBelow(up, h, branch)
  {
    var p := PathTo(up, h);
    if branch == [] {
      assert p + branch == p;
    }
    forall q | IsPath(up, q) && p <= q ensures AtLeast(p + branch, q) {
      if |q| > |p| {
        NextOnPath(up, p, q);
      } else {
        assert q == p;
      }
    }
  }

  ghost predicate IsPick(w: seq<Hash>, a: seq<Hash>, b: seq<Hash>) {
    (w == a && AtLeast(a, b)) || (w == b && AtLeast(b, a))
  }

  /** One step of the maximum keeps a branch that is at least as good as both. */
  lemma WinnerPicks(bm: BranchMap, init: seq<Hash>, last: Hash, h: Hash, up: Parents)
    requires IsForest(up) && Indexes(bm, up) && IsNode(up, h)
    requires forall c :: c in init + [last] ==> c in up && up[c] == h
    ensures init == [] ==> Winner(bm, init + [last], h, up) == FindLongestBranch(bm, last, up)
    ensures init != [] ==>
              IsPick(Winner(bm, init + [last], h, up), Winner(bm, init, h, up), FindLongestBranch(bm, last, up))
  {
    assert (init + [last])[..|init|] == init;
  }

  lemma {:induction false} WinnerIsBest(bm: BranchMap, children: seq<Hash>, h: Hash, up: Parents)
    requires IsForest(up) && Indexes(bm, up) && IsNode(up, h) && children != []
    requires forall c :: c in children ==> c in up && up[c] == h
    ensures IsBestThrough(up, h, children, Winner(bm, children, h, up))
    decreases Room(up, h), 0, |children|
  {
    var init, last := children[..|children| - 1], children[|children| - 1];
    assert children == init + [last];
    ChildHasLessRoom(up, last);
    FindIsBest(bm, last, up);
    ThroughChild(up, h, last, FindLongestBranch(bm, last, up));
    WinnerPicks(bm, init, last, h, up);
    if init == [] {
      assert children == [last];
    } else {
      WinnerIsBest(bm, init, h, up);
      BetterOfTwo(up, h, init, [last], Winner(bm, init, h, up), FindLongestBranch(bm, last, up),
                  Winner(bm, children, h, up));
    }
  }

  /** The better of two winners wins over both groups of children. */
  lemma BetterOfTwo(up: Parents, h: Hash, some: seq<Hash>, others: seq<Hash>,
                    a: seq<Hash>, b: seq<Hash>, w: seq<Hash>)
    requires IsForest(up) && IsNode(up, h) && a != [] && b != [] && IsPick(w, a, b)
    requires IsBestThrough(up, h, some, a) && IsBestThrough(up, h, others, b)
    ensures IsBestThrough(up, h, some + others, w)
  {
    var p := PathTo(up, h);
    JoinedTips(p, w, a);
    JoinedTips(p, w, b);
    forall q | IsPath(up, q) && p <= q && |p| < |q| && q[|p|] in some + others ensures AtLeast(p + w, q) {
      if q[|p|] in some {
        AtLeastTransitive(p + w, p + a, q);
      } else {
        AtLeastTransitive(p + w, p + b, q);
      }
    }
  }

  lemma JoinedTips(p: seq<Hash>, a: seq<Hash>, b: seq<Hash>)
    requires a != [] && b != []
    ensures AtLeast(p + a, p + b) <==> AtLeast(a, b)
  {
    assert Tip(p + a) == Tip(a) && Tip(p + b) == Tip(b);
  }

  lemma ThroughChild(up: Parents, h: Hash, c: Hash, branch: seq<Hash>)
    requires IsForest(up) && IsNode(up, h) && c in up && up[c] == h
    requires branch != [] && branch[0] == c && IsBestBelow(up, c, branch[1..])
    ensures IsBestThrough(up, h, [c], branch)
  {
    var p := PathTo(up, h);
    PathOfChild(up, c);
    assert PathTo(up, c) + branch[1..] == p + branch;
    forall q | IsPath(up, q) && p <= q && |p| < |q| && q[|p|] == c ensures AtLeast(p + branch, q) {
      assert PathTo(up, c) <= q;
    }
  }

  /** Whatever the order of the child lists, the search from the sentinel returns the one best path. */
  lemma SearchFindsBest(bm: BranchMap, up: Parents)
    requires IsForest(up) && Indexes(bm, up)
    ensures FindLongestBranch(bm, ROOT, up)[1..] == Best(up)
    ensures IsFirst(up, FindLongestBranch(bm, ROOT, up)[1..])
  {
    RootIsNoBlock(up);
    FindIsBest(bm, ROOT, up);
    PathToIs(up, []);
    var branch := FindLongestBranch(bm, ROOT, up)[1..];
    assert [] + branch == branch;
    BestUnique(up, branch, Best(up));
    BestIsFirst(up, branch);
  }

  /** Two searches over the same blocks agree, however their child lists are ordered. */
  lemma OrderDoesNotMatter(bm: BranchMap, bm': BranchMap, up: Parents)
    requires IsForest(up) && Indexes(bm, up) && Indexes(bm', up)
    ensures FindLongestBranch(bm, ROOT, up) == FindLongestBranch(bm', ROOT, up)
  {
    SearchFindsBest(bm, up);
    SearchFindsBest(bm', up);
    var b, b' := FindLongestBranch(bm, ROOT, up), FindLongestBranch(bm', ROOT, up);
    assert b == [ROOT] + b[1..] && b' == [ROOT] + b'[1..];
  }
}
