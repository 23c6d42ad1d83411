/** The block tree as a parent map: paths from the sentinel, the forest property, the best path,
    and what adding a block or cutting dead branches does to them. */
module Forest {
  import opened Hashes

  /** Every block hash with the hash of its parent. */
  type Parents = map<Hash, Hash>

  function Tip(p: seq<Hash>): Hash {
    if p == [] then ROOT else p[|p| - 1]
  }

  function Init(p: seq<Hash>): seq<Hash>
    requires p != []
  {
    p[..|p| - 1]
  }

  /** p runs from a child of the sentinel along parent links. */
  ghost predicate IsPath(up: Parents, p: seq<Hash>) {
    p == [] || (Tip(p) in up && up[Tip(p)] == Tip(Init(p)) && IsPath(up, Init(p)))
  }

  ghost predicate IsPathTo(up: Parents, p: seq<Hash>, h: Hash) {
    IsPath(up, p) && Tip(p) == h
  }

  ghost predicate Rooted(up: Parents, h: Hash) {
    exists p :: IsPathTo(up, p, h)
  }

  /** Parent links are closed and acyclic: they lead from every block to the sentinel. */
  ghost predicate IsForest(up: Parents) {
    && (forall h {:trigger IsDigest(h)} :: h in up ==> IsDigest(h))
    && (forall h {:trigger Rooted(up, h)} :: h in up ==> Rooted(up, h))
  }

  ghost predicate IsNode(up: Parents, h: Hash) {
    h == ROOT || h in up
  }

  ghost predicate IsLeaf(up: Parents, h: Hash) {
    forall x :: x in up ==> up[x] != h
  }

  lemma RootIsNoBlock(up: Parents)
    requires IsForest(up)
    ensures ROOT !in up
  {
    if ROOT in up {
      DigestsAreRanked(ROOT, ROOT);
    }
  }

  ghost function PathTo(up: Parents, h: Hash): (p: seq<Hash>)
    requires IsForest(up) && IsNode(up, h)
    ensures IsPathTo(up, p, h)
  {
    assert Rooted(up, h) by {
      if h == ROOT { assert IsPathTo(up, [], h); }
    }
    var p :| IsPathTo(up, p, h);
    p
  }

  lemma {:induction false} PathUnique(up: Parents, p: seq<Hash>, q: seq<Hash>)
    requires ROOT !in up && IsPath(up, p) && IsPath(up, q) && Tip(p) == Tip(q)
    ensures p == q
    decreases |p|
  {
    if p != [] && q != [] {
      PathUnique(up, Init(p), Init(q));
      assert p == Init(p) + [Tip(p)] && q == Init(q) + [Tip(q)];
    }
  }

  /** Every block of a path, seen with the path that leads to it. */
  lemma {:induction false} PathAt(up: Parents, p: seq<Hash>, i: nat)
    requires IsPath(up, p) && i < |p|
    ensures IsPath(up, p[..i]) && IsPath(up, p[..i + 1])
    ensures Tip(p[..i + 1]) == p[i] && p[i] in up && up[p[i]] == Tip(p[..i])
  {
    if i < |p| - 1 {
      PathAt(up, Init(p), i);
      assert Init(p)[..i] == p[..i] && Init(p)[..i + 1] == p[..i + 1];
    } else {
      assert p[..i] == Init(p) && p[..i + 1] == p;
    }
  }

  lemma PathPrefix(up: Parents, p: seq<Hash>, n: nat)
    requires IsPath(up, p) && n <= |p|
    ensures IsPath(up, p[..n])
  {
    if n > 0 {
      PathAt(up, p, n - 1);
    }
  }

  lemma PathToIs(up: Parents, p: seq<Hash>)
    requires IsForest(up) && IsPath(up, p)
    ensures IsNode(up, Tip(p)) && PathTo(up, Tip(p)) == p
  {
    RootIsNoBlock(up);
    PathUnique(up, PathTo(up, Tip(p)), p);
  }

  /** A block is met once on a path, always at the same place. */
  lemma PathPosition(up: Parents, p: seq<Hash>, q: seq<Hash>, i: nat, j: nat)
    requires ROOT !in up && IsPath(up, p) && IsPath(up, q)
    requires i < |p| && j < |q| && p[i] == q[j]
    ensures i == j && p[..i + 1] == q[..j + 1]
  {
    PathAt(up, p, i);
    PathAt(up, q, j);
    PathUnique(up, p[..i + 1], q[..j + 1]);
  }

  ghost function Elements<T>(p: seq<T>): set<T> {
    set x | x in p
  }

  /** A path has no more hashes than there are blocks, so chains and branches are finite. */
  lemma PathFits(up: Parents, p: seq<Hash>)
    requires ROOT !in up && IsPath(up, p)
    ensures |p| <= |up|
  {
    ElementsOfPath(up, p);
    SubsetIsSmaller(Elements(p), up.Keys);
  }

  lemma {:induction false} ElementsOfPath(up: Parents, p: seq<Hash>)
    requires ROOT !in up && IsPath(up, p)
    ensures |Elements(p)| == |p| && Elements(p) <= up.Keys
  {
    if p != [] {
      ElementsOfPath(up, Init(p));
      if Tip(p) in Init(p) {
        var i :| 0 <= i < |p| - 1 && p[i] == Tip(p);
        PathPosition(up, p, p, i, |p| - 1);
      }
      assert p == Init(p) + [Tip(p)];
      assert Elements(p) == Elements(Init(p)) + {Tip(p)};
    }
  }

  lemma {:induction false} SubsetIsSmaller<T>(a: set<T>, b: set<T>)
    requires a <= b
    ensures |a| <= |b|
  {
    if a != {} {
      var x :| x in a;
      SubsetIsSmaller(a - {x}, b - {x});
    }
  }

  lemma PathExtends(up: Parents, p: seq<Hash>, h: Hash)
    requires IsPath(up, p) && h in up && up[h] == Tip(p)
    ensures IsPath(up, p + [h])
  {
    assert Init(p + [h]) == p;
  }

  /** Longer wins; among equally long paths the smaller little-endian tip hash wins. */
  ghost predicate AtLeast(p: seq<Hash>, q: seq<Hash>) {
    |p| > |q| || (|p| == |q| && Rank(Tip(p)) <= Rank(Tip(q)))
  }

  lemma AtLeastTransitive(p: seq<Hash>, q: seq<Hash>, r: seq<Hash>)
    requires AtLeast(p, q) && AtLeast(q, r)
    ensures AtLeast(p, r)
  {
  }

  /** c beats or ties every path of the forest. */
  ghost predicate IsBest(up: Parents, c: seq<Hash>) {
    IsPath(up, c) && forall q {:trigger AtLeast(c, q)} :: IsPath(up, q) ==> AtLeast(c, q)
  }

  lemma BestUnique(up: Parents, c: seq<Hash>, d: seq<Hash>)
    requires IsForest(up) && IsBest(up, c) && IsBest(up, d)
    ensures c == d
  {
    RootIsNoBlock(up);
    assert AtLeast(c, d) && AtLeast(d, c);
    if c != [] {
      DigestsAreRanked(Tip(c), Tip(d));
    }
    PathUnique(up, c, d);
  }

  /** Every other path is shorter, or as long with a tip that comes later in the order of digests. */
  ghost predicate IsFirst(up: Parents, c: seq<Hash>) {
    IsPath(up, c) && forall q :: IsPath(up, q) ==> q == c || IsBehind(c, q)
  }

  ghost predicate IsBehind(c: seq<Hash>, q: seq<Hash>) {
    |q| < |c| || (|q| == |c| > 0 && HashBelow(Tip(c), Tip(q)))
  }

  lemma BehindExactly(up: Parents, c: seq<Hash>, q: seq<Hash>)
    requires IsForest(up) && IsPath(up, c) && IsPath(up, q)
    ensures AtLeast(c, q) <==> q == c || IsBehind(c, q)
  {
    RootIsNoBlock(up);
    if |c| == |q| > 0 {
      RankIsHashOrder(Tip(c), Tip(q));
      DigestsAreRanked(Tip(c), Tip(q));
      if Tip(c) == Tip(q) {
        PathUnique(up, c, q);
      }
    }
  }

  /** What the best path is, without the numbers that the program compares. */
  lemma BestIsFirst(up: Parents, c: seq<Hash>)
    requires IsForest(up)
    ensures IsBest(up, c) <==> IsFirst(up, c)
  {
    forall q | IsPath(up, c) && IsPath(up, q) ensures AtLeast(c, q) <==> q == c || IsBehind(c, q) {
      BehindExactly(up, c, q);
    }
  }

  lemma LongerWins(c: seq<Hash>, p: seq<Hash>, x: Hash)
    requires |c| <= |p|
    ensures !AtLeast(c, p + [x])
  {
  }

  /** A path as long as the best one cannot be continued. */
  lemma LongestEndsInLeaf(up: Parents, c: seq<Hash>, p: seq<Hash>)
    requires IsBest(up, c) && IsPath(up, p) && |c| <= |p|
    ensures IsLeaf(up, Tip(p))
  {
    forall x | x in up ensures up[x] != Tip(p) {
      if up[x] == Tip(p) {
        PathExtends(up, p, x);
        LongerWins(c, p, x);
      }
    }
  }

  /** The best path among those ending in a given set of blocks. */
  lemma {:induction false} BestOfTips(up: Parents, tips: set<Hash>) returns (c: seq<Hash>)
    requires IsForest(up) && tips <= up.Keys
    ensures IsPath(up, c)
    ensures forall q :: IsPath(up, q) && (q == [] || Tip(q) in tips) ==> AtLeast(c, q)
  {
    if tips == {} {
      c := [];
    } else {
      var h :| h in tips;
      var rest := BestOfTips(up, tips - {h});
      var mine := PathTo(up, h);
      c := if AtLeast(rest, mine) then rest else mine;
      forall q | IsPath(up, q) && (q == [] || Tip(q) in tips) ensures AtLeast(c, q) {
        if Tip(q) == h {
          PathToIs(up, q);
        }
      }
    }
  }

  lemma BestExists(up: Parents)
    requires IsForest(up)
    ensures exists c :: IsBest(up, c)
  {
    var c := BestOfTips(up, up.Keys);
    assert IsBest(up, c);
  }

  ghost function Best(up: Parents): (c: seq<Hash>)
    requires IsForest(up)
    ensures IsBest(up, c)
  {
    BestExists(up);
    var c :| IsBest(up, c);
    c
  }

  /* Adding a block */

  lemma {:induction false} PathSurvivesInsert(up: Parents, x: Hash, y: Hash, p: seq<Hash>)
    requires x !in up && IsPath(up, p)
    ensures IsPath(up[x := y], p)
  {
    if p != [] {
      PathSurvivesInsert(up, x, y, Init(p));
    }
  }

  lemma InsertedIsLeaf(up: Parents, x: Hash, y: Hash)
    requires IsForest(up) && x !in up && IsDigest(x) && IsNode(up, y)
    ensures IsLeaf(up[x := y], x) && x != ROOT
  {
    DigestsAreRanked(x, x);
    forall z | z in up ensures up[z] != x {
      var p := PathTo(up, z);
      RootIsNoBlock(up);
      assert IsPath(up, Init(p));
    }
  }

  lemma {:induction false} PathAfterInsert(up: Parents, x: Hash, y: Hash, q: seq<Hash>)
    requires IsForest(up) && x !in up && IsDigest(x) && IsNode(up, y)
    requires IsPath(up[x := y], q)
    ensures IsPath(up, q) || q == PathTo(up, y) + [x]
  {
    if q != [] {
      PathAfterInsert(up, x, y, Init(q));
      InsertedIsLeaf(up, x, y);
      assert Tip(Init(q)) != x by { assert Tip(q) in up[x := y]; }
      LastStepAfterInsert(up, x, y, q);
    }
  }

  lemma LastStepAfterInsert(up: Parents, x: Hash, y: Hash, q: seq<Hash>)
    requires IsForest(up) && IsNode(up, y) && q != [] && IsPath(up, Init(q))
    requires Tip(q) in up[x := y] && up[x := y][Tip(q)] == Tip(Init(q))
    ensures IsPath(up, q) || q == PathTo(up, y) + [x]
  {
    if Tip(q) == x {
      RootIsNoBlock(up);
      PathUnique(up, Init(q), PathTo(up, y));
      assert q == Init(q) + [x];
    }
  }

  lemma InsertKeepsRooted(up: Parents, x: Hash, y: Hash, h: Hash)
    requires IsForest(up) && x !in up && IsNode(up, y) && (h == x || h in up)
    ensures Rooted(up[x := y], h)
    ensures h == x ==> IsPath(up[x := y], PathTo(up, y) + [x])
  {
    var p := PathTo(up, if h == x then y else h);
    PathSurvivesInsert(up, x, y, p);
    if h == x {
      PathExtends(up[x := y], p, x);
      assert IsPathTo(up[x := y], p + [x], x);
    } else {
      assert IsPathTo(up[x := y], p, h);
    }
  }

  lemma InsertKeepsForest(up: Parents, x: Hash, y: Hash)
    requires IsForest(up) && x !in up && IsDigest(x) && IsNode(up, y)
    ensures IsForest(up[x := y]) && IsPath(up[x := y], PathTo(up, y) + [x])
  {
    InsertKeepsRooted(up, x, y, x);
    var up' := up[x := y];
    forall h | h in up' ensures Rooted(up', h) {
      InsertKeepsRooted(up, x, y, h);
    }
  }

  /** Recomputing the best branch after one insertion only has to compare the old chain with
      the branch that ends in the new block. */
  lemma BestAfterInsert(up: Parents, c: seq<Hash>, x: Hash, y: Hash)
    requires IsForest(up) && IsBest(up, c) && x !in up && IsDigest(x) && IsNode(up, y)
    ensures IsForest(up[x := y])
    ensures var rival := PathTo(up, y) + [x];
            IsBest(up[x := y], if AtLeast(c, rival) then c else rival)
  {
    InsertKeepsForest(up, x, y);
    var up' := up[x := y];
    var rival := PathTo(up, y) + [x];
    var best := if AtLeast(c, rival) then c else rival;
    PathSurvivesInsert(up, x, y, c);
    forall q | IsPath(up', q) ensures AtLeast(best, q) {
      PathAfterInsert(up, x, y, q);
      if q != rival {
        assert AtLeast(best, c) && AtLeast(c, q);
        AtLeastTransitive(best, c, q);
      }
    }
  }

  /* Cutting dead branches */

  /** An off-chain child of a chain block that has at least two successors. */
  ghost predicate IsLoser(up: Parents, c: seq<Hash>, h: Hash) {
    h in up && h !in c && exists i :: 0 <= i < |c| - 2 && up[h] == c[i]
  }

  /** A loser or one of its descendants. */
  ghost predicate IsDoomed(up: Parents, c: seq<Hash>, h: Hash)
    requires IsForest(up)
  {
    h in up && exists l :: l in PathTo(up, h) && IsLoser(up, c, l)
  }

  ghost function Doomed(up: Parents, c: seq<Hash>): set<Hash>
    requires IsForest(up)
  {
    set h | h in up && IsDoomed(up, c, h)
  }

  ghost function Cut(up: Parents, c: seq<Hash>): Parents
    requires IsForest(up)
  {
    up - Doomed(up, c)
  }

  lemma LoserIsDoomed(up: Parents, c: seq<Hash>, l: Hash)
    requires IsForest(up) && IsLoser(up, c, l)
    ensures IsDoomed(up, c, l)
  {
    RootIsNoBlock(up);
    var p := PathTo(up, l);
    assert l == p[|p| - 1];
  }

  /** The path of a child is the path of its parent and the child. */
  lemma PathOfChild(up: Parents, h: Hash)
    requires IsForest(up) && h in up
    ensures IsNode(up, up[h]) && PathTo(up, h) == PathTo(up, up[h]) + [h]
  {
    RootIsNoBlock(up);
    var p := PathTo(up, h);
    PathToIs(up, Init(p));
    assert p == Init(p) + [h];
  }

  lemma ChildOfDoomedIsDoomed(up: Parents, c: seq<Hash>, h: Hash)
    requires IsForest(up) && h in up && IsNode(up, up[h])
    ensures IsDoomed(up, c, h) <==> IsLoser(up, c, h) || (up[h] in up && IsDoomed(up, c, up[h]))
  {
    RootIsNoBlock(up);
    PathOfChild(up, h);
    if up[h] == ROOT {
      PathToIs(up, []);
    }
  }

  /** No block of the best path is doomed. */
  lemma ChainIsSpared(up: Parents, c: seq<Hash>, i: nat)
    requires IsForest(up) && IsPath(up, c) && i < |c|
    ensures !IsDoomed(up, c, c[i])
  {
    PathAt(up, c, i);
    PathToIs(up, c[..i + 1]);
    assert forall l :: l in c[..i + 1] ==> l in c;
  }

  /** The cut adds no path. */
  lemma {:induction false} PruneAddsNoPath(up: Parents, c: seq<Hash>, p: seq<Hash>)
    requires IsForest(up) && IsPath(Cut(up, c), p)
    ensures IsPath(up, p)
  {
    if p != [] {
      PruneAddsNoPath(up, c, Init(p));
    }
  }

  /** A spared block keeps its whole path. */
  lemma {:induction false} PruneKeepsPath(up: Parents, c: seq<Hash>, p: seq<Hash>)
    requires IsForest(up) && IsPath(up, p) && (p == [] || !IsDoomed(up, c, Tip(p)))
    ensures IsPath(Cut(up, c), p)
  {
    if p != [] {
      PathToIs(up, Init(p));
      ChildOfDoomedIsDoomed(up, c, Tip(p));
      PruneKeepsPath(up, c, Init(p));
    }
  }

  /** Cutting leaves a forest whose paths are old paths, with the same best path. */
  lemma PruneKeepsBest(up: Parents, c: seq<Hash>)
    requires IsForest(up) && IsBest(up, c)
    ensures IsForest(Cut(up, c)) && IsBest(Cut(up, c), c)
    ensures forall h :: h in Cut(up, c) ==> PathTo(Cut(up, c), h) == PathTo(up, h)
  {
    var kept := Cut(up, c);
    RootIsNoBlock(up);
    forall h | h in kept ensures IsDigest(h) && IsPathTo(kept, PathTo(up, h), h) {
      PruneKeepsPath(up, c, PathTo(up, h));
    }
    assert IsForest(kept);
    forall h | h in kept ensures PathTo(kept, h) == PathTo(up, h) {
      PathToIs(kept, PathTo(up, h));
    }
    if c != [] {
      ChainIsSpared(up, c, |c| - 1);
    }
    PruneKeepsPath(up, c, c);
    forall q | IsPath(kept, q) ensures AtLeast(c, q) {
      PruneAddsNoPath(up, c, q);
    }
  }

  /** A chain block with at least two successors has no off-chain child. */
  ghost predicate IsTrimmed(up: Parents, c: seq<Hash>) {
    forall x :: x in up ==> !IsLoser(up, c, x)
  }

  /** ... so its only child is its successor. */
  lemma TrimmedOnlyChild(up: Parents, c: seq<Hash>, x: Hash, i: nat)
    requires IsForest(up) && IsPath(up, c) && IsTrimmed(up, c)
    requires x in up && i < |c| - 2 && up[x] == c[i]
    ensures x == c[i + 1]
  {
    RootIsNoBlock(up);
    assert !IsLoser(up, c, x);
    var j :| 0 <= j < |c| && c[j] == x;
    PathAt(up, c, i);
    ChildOnPath(up, c, i, j);
  }

  lemma ChildOnPath(up: Parents, c: seq<Hash>, i: nat, j: nat)
    requires ROOT !in up && IsPath(up, c) && i < |c| && j < |c| && c[i] in up && c[j] in up && up[c[j]] == c[i]
    ensures j == i + 1
  {
    PathAt(up, c, j);
    if j > 0 {
      PathPosition(up, c, c, j - 1, i);
    }
  }

  lemma PruneTrims(up: Parents, c: seq<Hash>)
    requires IsForest(up)
    ensures IsTrimmed(Cut(up, c), c)
  {
    forall x | x in Cut(up, c) ensures !IsLoser(Cut(up, c), c, x) {
      if IsLoser(up, c, x) {
        LoserIsDoomed(up, c, x);
      }
    }
  }

  /** Nothing is left to cut from a trimmed forest. */
  lemma TrimmedHasNoDoomed(up: Parents, c: seq<Hash>)
    requires IsForest(up) && IsTrimmed(up, c)
    ensures Doomed(up, c) == {}
  {
  }

  /** In a trimmed forest every path with the chain's first block follows the chain up to,
      but not necessarily including, the tip. */
  lemma {:induction false} TrimmedPathFollows(up: Parents, c: seq<Hash>, p: seq<Hash>, i: nat)
    requires IsForest(up) && IsPath(up, c) && IsTrimmed(up, c) && IsPath(up, p)
    requires p != [] && c != [] && p[0] == c[0] && i < |p| && i < |c| - 1
    ensures p[i] == c[i]
  {
    if i > 0 {
      TrimmedPathFollows(up, c, p, i - 1);
      PathAt(up, p, i);
      TrimmedOnlyChild(up, c, p[i], i - 1);
    }
  }

  /* Paths that a cut spares */

  /** q starts at another first block than c, or follows c as far as c is settled. */
  ghost predicate Agrees(c: seq<Hash>, q: seq<Hash>) {
    c != [] && q != [] && c[0] == q[0] ==> forall i :: 0 <= i < |q| && i < |c| - 1 ==> q[i] == c[i]
  }

  /** Pruning by a chain spares every path that agrees with it. */
  lemma AgreementIsSpared(up: Parents, c: seq<Hash>, q: seq<Hash>, h: Hash)
    requires IsForest(up) && IsPath(up, c) && IsPath(up, q) && Agrees(c, q) && h in q
    ensures h in up && !IsDoomed(up, c, h)
  {
    var k :| 0 <= k < |q| && q[k] == h;
    PathAt(up, q, k);
    PathToIs(up, q[..k + 1]);
    forall l | l in q[..k + 1] ensures !IsLoser(up, c, l) {
      var x :| 0 <= x < k + 1 && q[x] == l;
      if IsLoser(up, c, l) {
        AgreementHasNoLoser(up, c, q, x);
      }
    }
  }

  lemma AgreementHasNoLoser(up: Parents, c: seq<Hash>, q: seq<Hash>, x: nat)
    requires IsForest(up) && IsPath(up, c) && IsPath(up, q) && Agrees(c, q) && x < |q|
    ensures !IsLoser(up, c, q[x])
  {
    RootIsNoBlock(up);
    if IsLoser(up, c, q[x]) {
      var i :| 0 <= i < |c| - 2 && up[q[x]] == c[i];
      PathAt(up, q, x);
      PathAt(up, c, i);
      if x > 0 {
        assert q[x - 1] == c[i];
        PathPosition(up, q, c, x - 1, i);
      }
    }
  }

  /** The block lies below another first block than the chain. */
  ghost predicate IsElsewhere(up: Parents, c: seq<Hash>, h: Hash)
    requires IsForest(up)
  {
    h in up && c != [] && PathTo(up, h) != [] && PathTo(up, h)[0] != c[0]
  }

  lemma ElsewhereIsSpared(up: Parents, c: seq<Hash>, h: Hash)
    requires IsForest(up) && IsBest(up, c) && IsElsewhere(up, c, h)
    ensures IsForest(Cut(up, c)) && IsElsewhere(Cut(up, c), c, h)
  {
    RootIsNoBlock(up);
    PruneKeepsBest(up, c);
    AgreementIsSpared(up, c, PathTo(up, h), h);
  }

  /** The path of h leaves the path c before the last two places of c. */
  ghost predicate Departs(c: seq<Hash>, p: seq<Hash>) {
    exists i :: DepartsAt(c, p, i)
  }

  ghost predicate DepartsAt(c: seq<Hash>, p: seq<Hash>, i: int) {
    0 <= i < |c| - 2 && i + 1 < |p| && p[..i + 1] == c[..i + 1] && p[i + 1] != c[i + 1]
  }

  /** Exactly which blocks a cut removes. */
  lemma DoomedExactly(up: Parents, c: seq<Hash>, h: Hash)
    requires IsForest(up) && IsPath(up, c) && h in up
    ensures IsDoomed(up, c, h) <==> Departs(c, PathTo(up, h))
  {
    var p := PathTo(up, h);
    RootIsNoBlock(up);
    if IsDoomed(up, c, h) {
      var l :| l in p && IsLoser(up, c, l);
      LoserDeparts(up, c, p, l);
    }
    if Departs(c, p) {
      DepartureIsLoser(up, c, p);
    }
  }

  lemma LoserDeparts(up: Parents, c: seq<Hash>, p: seq<Hash>, l: Hash)
    requires IsForest(up) && IsPath(up, c) && IsPath(up, p) && l in p && IsLoser(up, c, l)
    ensures Departs(c, p)
  {
    RootIsNoBlock(up);
    var k :| 0 <= k < |p| && p[k] == l;
    var i :| 0 <= i < |c| - 2 && up[l] == c[i];
    PathAt(up, p, k);
    PathAt(up, c, i);
    PathPosition(up, p, c, k - 1, i);
    PathAt(up, p, k - 1);
    PathUnique(up, p[..k], c[..i + 1]);
    assert DepartsAt(c, p, i);
  }

  lemma DepartureIsLoser(up: Parents, c: seq<Hash>, p: seq<Hash>)
    requires IsForest(up) && IsPath(up, c) && IsPath(up, p) && Departs(c, p)
    ensures exists l :: l in p && IsLoser(up, c, l)
  {
    RootIsNoBlock(up);
    var i :| DepartsAt(c, p, i);
    var l := p[i + 1];
    PathAt(up, p, i + 1);
    assert up[l] == p[..i + 1][i] == c[..i + 1][i];
    if l in c {
      var j :| 0 <= j < |c| && c[j] == l;
      PathPosition(up, p, c, i + 1, j);
    }
    assert IsLoser(up, c, l);
  }
}
