/** The Merkle root: the level-by-level queue computation, a top-down tree definition of the same
    root, and what a root says about the leaves below it. */
module Merkle {
  import opened Powers
  import opened Wrappers

  type PairHash = (string, string) -> string

  /** One level up: neighbours are hashed together, an odd last node with itself. */
  function Level(pair: PairHash, row: seq<string>): (above: seq<string>)
    ensures |above| == (|row| + 1) / 2
  {
    if |row| == 0 then []
    else if |row| == 1 then [pair(row[0], row[0])]
    else [pair(row[0], row[1])] + Level(pair, row[2..])
  }

  function Ascend(pair: PairHash, row: seq<string>): string
    requires row != []
    decreases |row|
  {
    if |row| == 1 then row[0] else Ascend(pair, Level(pair, row))
  }

  /** The root of the leaf hashes; a single leaf is hashed with itself. */
  function Root(pair: PairHash, leaves: seq<string>): Option<string> {
    if leaves == [] then None else Some(Ascend(pair, Level(pair, leaves)))
  }

  lemma {:induction false} LevelSplits(pair: PairHash, a: seq<string>, b: seq<string>)
    requires |a| % 2 == 0
    ensures Level(pair, a + b) == Level(pair, a) + Level(pair, b)
    decreases |a|
  {
    if a == [] {
      assert a + b == b;
    } else {
      LevelSplits(pair, a[2..], b);
      assert (a + b)[2..] == a[2..] + b;
    }
  }

  /** One round of the program's computation: the queue `tmp` is emptied into `tmp2`. */
  method EmptyQueue(pair: PairHash, row: seq<string>) returns (tmp2: seq<string>)
    ensures tmp2 == Level(pair, row)
  {
    tmp2 := [];
    var tmp := row;
    while tmp != []
      invariant Level(pair, row) == tmp2 + Level(pair, tmp)
      decreases |tmp|
    {
      var l := tmp[0];
      tmp := tmp[1..];
      if tmp != [] {
        var r := tmp[0];
        tmp := tmp[1..];
        tmp2 := tmp2 + [pair(l, r)];
      } else {
        tmp2 := tmp2 + [pair(l, l)];
      }
    }
  }

  /** The program's computation: rounds until one node is left. */
  method ComputeRoot(pair: PairHash, leaves: seq<string>) returns (root: Option<string>)
    ensures root == Root(pair, leaves)
  {
    if leaves == [] {
      return None;
    }
    var tmp := [];
    var rest := leaves;
    while rest != []
      invariant Level(pair, leaves) == tmp + Level(pair, rest)
      decreases |rest|
    {
      if |rest| >= 2 {
        tmp := tmp + [pair(rest[0], rest[1])];
        rest := rest[2..];
      } else {
        tmp := tmp + [pair(rest[0], rest[0])];
        rest := [];
      }
    }
    assert tmp == Level(pair, leaves);
    while |tmp| > 1
      invariant tmp != [] && Ascend(pair, tmp) == Ascend(pair, Level(pair, leaves))
      decreases |tmp|
    {
      tmp := EmptyQueue(pair, tmp);
    }
    root := Some(tmp[0]);
  }

  /* The tree */

  /** The root of a tree of height d, defined from the top: the right half repeats the left one
      when there are not enough leaves to reach it. */
  function Tree(pair: PairHash, d: nat, leaves: seq<string>): string
    requires 1 <= |leaves| <= Pow2(d)
  {
    if d == 0 then leaves[0]
    else
      var half := Pow2(d - 1);
      if |leaves| > half then pair(Tree(pair, d - 1, leaves[..half]), Tree(pair, d - 1, leaves[half..]))
      else pair(Tree(pair, d - 1, leaves), Tree(pair, d - 1, leaves))
  }

  /** The leaves of that tree, repetitions included. */
  function Padded(d: nat, leaves: seq<string>): (all: seq<string>)
    requires 1 <= |leaves| <= Pow2(d)
    ensures |all| == Pow2(d) && leaves <= all
  {
    if d == 0 then leaves
    else
      var half := Pow2(d - 1);
      if |leaves| > half then
        assert leaves == leaves[..half] + leaves[half..];
        leaves[..half] + Padded(d - 1, leaves[half..])
      else Padded(d - 1, leaves) + Padded(d - 1, leaves)
  }

  /** The least d >= 1 for which n leaves fit. */
  ghost predicate IsHeight(d: nat, n: nat) {
    d >= 1 && n <= Pow2(d) && (d > 1 ==> Pow2(d - 1) < n)
  }

  lemma OnePair(pair: PairHash, leaves: seq<string>)
    requires 1 <= |leaves| <= 2
    ensures Level(pair, leaves) == [Tree(pair, 1, leaves)]
  {
    if |leaves| == 2 {
      assert leaves[..1] == [leaves[0]] && leaves[1..] == [leaves[1]];
    }
  }

  /** What TreeOfLevel claims of one list of leaves. */
  ghost predicate LevelKeepsTree(pair: PairHash, d: nat, leaves: seq<string>)
    requires d >= 1 && 1 <= |leaves| <= Pow2(d)
  {
    |Level(pair, leaves)| <= Pow2(d - 1) && Tree(pair, d, leaves) == Tree(pair, d - 1, Level(pair, leaves))
  }

  lemma LevelKeepsSplitTree(pair: PairHash, d: nat, l: seq<string>, r: seq<string>)
    requires d >= 2 && |l| == Pow2(d - 1) && 1 <= |r| <= Pow2(d - 1)
    requires LevelKeepsTree(pair, d - 1, l) && LevelKeepsTree(pair, d - 1, r)
    ensures LevelKeepsTree(pair, d, l + r)
  {
    var half, quarter := Pow2(d - 1), Pow2(d - 2);
    LevelSplits(pair, l, r);
    var above := Level(pair, l + r);
    assert (l + r)[..half] == l && (l + r)[half..] == r;
    assert above[..quarter] == Level(pair, l) && above[quarter..] == Level(pair, r);
    assert Tree(pair, d, l + r) == pair(Tree(pair, d - 1, l), Tree(pair, d - 1, r));
  }

  /** A tree over some leaves is the tree, one lower, over the level above them. */
  lemma {:induction false} TreeOfLevel(pair: PairHash, d: nat, leaves: seq<string>)
    requires d >= 1 && 1 <= |leaves| <= Pow2(d)
    ensures LevelKeepsTree(pair, d, leaves)
  {
    if d == 1 {
      OnePair(pair, leaves);
    } else if |leaves| > Pow2(d - 1) {
      var l, r := leaves[..Pow2(d - 1)], leaves[Pow2(d - 1)..];
      TreeOfLevel(pair, d - 1, l);
      TreeOfLevel(pair, d - 1, r);
      LevelKeepsSplitTree(pair, d, l, r);
      assert leaves == l + r;
    } else {
      TreeOfLevel(pair, d - 1, leaves);
    }
  }

  lemma {:induction false} AscendIsTree(pair: PairHash, d: nat, row: seq<string>)
    requires 1 <= |row| <= Pow2(d) && (d > 0 ==> Pow2(d - 1) < |row|)
    ensures Ascend(pair, row) == Tree(pair, d, row)
  {
    if d > 0 {
      TreeOfLevel(pair, d, row);
      AscendIsTree(pair, d - 1, Level(pair, row));
    }
  }

  /** The queue computation yields the root of the tree of least height. */
  lemma RootIsTree(pair: PairHash, d: nat, leaves: seq<string>)
    requires leaves != [] && IsHeight(d, |leaves|)
    ensures Root(pair, leaves) == Some(Tree(pair, d, leaves))
  {
    TreeOfLevel(pair, d, leaves);
    AscendIsTree(pair, d - 1, Level(pair, leaves));
  }

  /** The roots of one, two and three leaves. */
  lemma SmallRoots(pair: PairHash, x: string, y: string, z: string)
    ensures Root(pair, [x]) == Some(pair(x, x))
    ensures Root(pair, [x, y]) == Some(pair(x, y))
    ensures Root(pair, [x, y, z]) == Some(pair(pair(x, y), pair(z, z)))
  {
    LevelOfPair(pair, [x, y]);
    LevelSplits(pair, [x, y], [z]);
    assert [x, y] + [z] == [x, y, z] && Level(pair, [z]) == [pair(z, z)];
    var row := [pair(x, y), pair(z, z)];
    assert Level(pair, [x, y, z]) == row;
    LevelOfPair(pair, row);
    assert Ascend(pair, row) == Ascend(pair, [pair(row[0], row[1])]);
  }

  lemma {:induction false} HeightExists(n: nat) returns (d: nat)
    requires n >= 1
    ensures IsHeight(d, n)
  {
    if n <= 2 {
      d := 1;
    } else {
      d := HeightExists((n + 1) / 2);
      d := d + 1;
    }
  }

  /* What a root binds */

  type Pairs = set<(string, string)>

  /** The pairs of siblings hashed in a tree. */
  function PairsIn(pair: PairHash, d: nat, leaves: seq<string>): Pairs
    requires 1 <= |leaves| <= Pow2(d)
  {
    if d == 0 then {}
    else
      var half := Pow2(d - 1);
      if |leaves| > half then
        var l, r := leaves[..half], leaves[half..];
        {(Tree(pair, d - 1, l), Tree(pair, d - 1, r))} + PairsIn(pair, d - 1, l) + PairsIn(pair, d - 1, r)
      else {(Tree(pair, d - 1, leaves), Tree(pair, d - 1, leaves))} + PairsIn(pair, d - 1, leaves)
  }

  /** Two different pairs with the same hash, one from each set. */
  ghost predicate Collide(pair: PairHash, a: Pairs, b: Pairs) {
    exists p, q :: p in a && q in b && AreColliding(pair, p, q)
  }

  lemma {:induction false} TreeOfPadded(pair: PairHash, d: nat, leaves: seq<string>)
    requires 1 <= |leaves| <= Pow2(d)
    ensures Tree(pair, d, leaves) == Tree(pair, d, Padded(d, leaves))
  {
    if d > 0 {
      var half := Pow2(d - 1);
      var all := Padded(d, leaves);
      if |leaves| > half {
        TreeOfPadded(pair, d - 1, leaves[half..]);
        assert all[..half] == leaves[..half] && all[half..] == Padded(d - 1, leaves[half..]);
      } else {
        TreeOfPadded(pair, d - 1, leaves);
        assert all[..half] == Padded(d - 1, leaves) && all[half..] == Padded(d - 1, leaves);
      }
    }
  }

  lemma PairsOfHalves(pair: PairHash, d: nat, l: seq<string>, r: seq<string>)
    requires d > 0 && |l| == Pow2(d - 1) && 1 <= |r| <= Pow2(d - 1)
    ensures Tree(pair, d, l + r) == pair(Tree(pair, d - 1, l), Tree(pair, d - 1, r))
    ensures PairsIn(pair, d, l + r) ==
              {(Tree(pair, d - 1, l), Tree(pair, d - 1, r))} + PairsIn(pair, d - 1, l) + PairsIn(pair, d - 1, r)
  {
    assert (l + r)[..Pow2(d - 1)] == l && (l + r)[Pow2(d - 1)..] == r;
  }

  ghost predicate SameTree(pair: PairHash, d: nat, x: seq<string>, y: seq<string>)
    requires 1 <= |x| <= Pow2(d) && 1 <= |y| <= Pow2(d)
  {
    Tree(pair, d, x) == Tree(pair, d, y) && PairsIn(pair, d, x) == PairsIn(pair, d, y)
  }

  lemma PaddedHalf(pair: PairHash, d: nat, l: seq<string>, r: seq<string>, all: seq<string>)
    requires d > 0 && |l| == Pow2(d - 1) && 1 <= |r| <= Pow2(d - 1) && |all| == Pow2(d - 1)
    requires SameTree(pair, d - 1, r, all)
    ensures PairsIn(pair, d, l + r) == PairsIn(pair, d, l + all)
  {
    PairsOfHalves(pair, d, l, r);
    PairsOfHalves(pair, d, l, all);
  }

  lemma RepeatedHalf(pair: PairHash, d: nat, x: seq<string>, all: seq<string>)
    requires d > 0 && 1 <= |x| <= Pow2(d - 1) && |all| == Pow2(d - 1)
    requires SameTree(pair, d - 1, x, all)
    ensures PairsIn(pair, d, x) == PairsIn(pair, d, all + all)
  {
    PairsOfHalves(pair, d, all, all);
  }

  /** Padding a list changes none of the pairs hashed. */
  lemma {:induction false} PairsOfPadded(pair: PairHash, d: nat, leaves: seq<string>, all: seq<string>)
    requires 1 <= |leaves| <= Pow2(d) && all == Padded(d, leaves)
    ensures SameTree(pair, d, leaves, all)
  {
    TreeOfPadded(pair, d, leaves);
    if d > 0 {
      if |leaves| > Pow2(d - 1) {
        var l, r := leaves[..Pow2(d - 1)], leaves[Pow2(d - 1)..];
        var rest := Padded(d - 1, r);
        PairsOfPadded(pair, d - 1, r, rest);
        PaddedHalf(pair, d, l, r, rest);
        assert leaves == l + r;
      } else {
        var half := Padded(d - 1, leaves);
        PairsOfPadded(pair, d - 1, leaves, half);
        RepeatedHalf(pair, d, leaves, half);
      }
    }
  }

  /** Two different pairs with the same hash. */
  predicate AreColliding(pair: PairHash, p: (string, string), q: (string, string)) {
    p != q && pair(p.0, p.1) == pair(q.0, q.1)
  }

  /** The top node of a full tree over l and r, and the pairs hashed in the tree. */
  ghost predicate IsTop(pair: PairHash, d: nat, l: seq<string>, r: seq<string>, p: (string, string), all: Pairs)
    requires |l| == |r| == Pow2(d)
  {
    && p == (Tree(pair, d, l), Tree(pair, d, r))
    && p in all && PairsIn(pair, d, l) <= all && PairsIn(pair, d, r) <= all
  }

  lemma TopOf(pair: PairHash, d: nat, l: seq<string>, r: seq<string>) returns (p: (string, string))
    requires d > 0 && |l| == |r| == Pow2(d - 1)
    ensures Tree(pair, d, l + r) == pair(p.0, p.1)
    ensures IsTop(pair, d - 1, l, r, p, PairsIn(pair, d, l + r))
  {
    p := (Tree(pair, d - 1, l), Tree(pair, d - 1, r));
    PairsOfHalves(pair, d, l, r);
    assert (l + r)[..Pow2(d - 1)] == l && (l + r)[Pow2(d - 1)..] == r;
  }

  /** Full trees with the same root have the same leaves, or there is a collision among their pairs. */
  lemma {:induction false} FullTreesBind(pair: PairHash, d: nat, x: seq<string>, y: seq<string>)
    returns (p: (string, string), q: (string, string))
    requires |x| == |y| == Pow2(d) && Tree(pair, d, x) == Tree(pair, d, y)
    ensures x == y || (p in PairsIn(pair, d, x) && q in PairsIn(pair, d, y) && AreColliding(pair, p, q))
    decreases d, 1
  {
    if d == 0 {
      assert x == [x[0]] && y == [y[0]];
      p, q := ("", ""), ("", "");
    } else {
      var n := Pow2(d - 1);
      assert x == x[..n] + x[n..] && y == y[..n] + y[n..];
      p := TopOf(pair, d, x[..n], x[n..]);
      q := TopOf(pair, d, y[..n], y[n..]);
      p, q := NodesBind(pair, d - 1, x[..n], x[n..], y[..n], y[n..], p, q, PairsIn(pair, d, x), PairsIn(pair, d, y));
    }
  }

  /** Two nodes with the same hash, over full trees of height d. */
  lemma {:induction false} NodesBind(pair: PairHash, d: nat, l: seq<string>, r: seq<string>,
                                     l': seq<string>, r': seq<string>,
                                     top: (string, string), top': (string, string), all: Pairs, all': Pairs)
    returns (p: (string, string), q: (string, string))
    requires |l| == |r| == |l'| == |r'| == Pow2(d) && pair(top.0, top.1) == pair(top'.0, top'.1)
    requires IsTop(pair, d, l, r, top, all) && IsTop(pair, d, l', r', top', all')
    ensures l + r == l' + r' || (p in all && q in all' && AreColliding(pair, p, q))
    decreases d, 2
  {
    p, q := top, top';
    if p == q {
      p, q := FullTreesBind(pair, d, l, l');
      if l == l' {
        p, q := FullTreesBind(pair, d, r, r');
      }
    }
  }

  /** Two leaf lists of equal tree height have the same root exactly when their padded leaves are the
      same, and equally long ones exactly when they are equal, or else two different pairs that are
      hashed in computing the two roots have the same hash. */
  lemma RootBinds(pair: PairHash, d: nat, x: seq<string>, y: seq<string>)
    requires x != [] && y != [] && IsHeight(d, |x|) && IsHeight(d, |y|)
    ensures Padded(d, x) == Padded(d, y) ==> Root(pair, x) == Root(pair, y)
    ensures Root(pair, x) == Root(pair, y) ==>
              Padded(d, x) == Padded(d, y) || Collide(pair, PairsIn(pair, d, x), PairsIn(pair, d, y))
    ensures |x| == |y| && Root(pair, x) == Root(pair, y) ==>
              x == y || Collide(pair, PairsIn(pair, d, x), PairsIn(pair, d, y))
  {
    RootIsTree(pair, d, x);
    RootIsTree(pair, d, y);
    TreeOfPadded(pair, d, x);
    TreeOfPadded(pair, d, y);
    PairsOfPadded(pair, d, x, Padded(d, x));
    PairsOfPadded(pair, d, y, Padded(d, y));
    if Root(pair, x) == Root(pair, y) {
      var p, q := FullTreesBind(pair, d, Padded(d, x), Padded(d, y));
    }
  }

  /** Lists of different length are not bound: repeating the last leaf of an odd list keeps the
      root, whatever the pair hash. */
  lemma {:induction false} OddListsAreMalleable(pair: PairHash, leaves: seq<string>)
    requires |leaves| % 2 == 1
    ensures Root(pair, leaves + [leaves[|leaves| - 1]]) == Root(pair, leaves)
  {
    var n := |leaves| - 1;
    var s := leaves[n];
    LevelSplits(pair, leaves[..n], [s]);
    LevelSplits(pair, leaves[..n], [s, s]);
    assert leaves == leaves[..n] + [s];
    assert leaves + [s] == leaves[..n] + [s, s];
    assert Level(pair, [s, s]) == [pair(s, s)];
  }

  lemma RootOfLevel(pair: PairHash, leaves: seq<string>)
    requires |leaves| > 2
    ensures Root(pair, leaves) == Root(pair, Level(pair, leaves))
  {
  }

  lemma LevelOfPair(pair: PairHash, last: seq<string>)
    requires |last| == 2
    ensures Level(pair, last) == [pair(last[0], last[1])]
  {
  }

  lemma LevelAppends(pair: PairHash, init: seq<string>, last: seq<string>, all: seq<string>, k: nat)
    returns (p: string)
    requires |init| == 2 * k && |last| == 2 && all == init + last
    ensures p == pair(last[0], last[1]) && |Level(pair, init)| == k && Level(pair, all) == Level(pair, init) + [p]
  {
    LevelSplits(pair, init, last);
    LevelOfPair(pair, last);
    p := pair(last[0], last[1]);
  }

  lemma OddRow(pair: PairHash, row: seq<string>, p: string, r1: seq<string>, r2: seq<string>)
    requires |row| % 2 == 0 && r1 == row + [p] && r2 == r1 + [p]
    ensures Root(pair, r2) == Root(pair, r1)
  {
    OddListsAreMalleable(pair, r1);
    assert r1[|r1| - 1] == p;
  }

  lemma SameAbove(pair: PairHash, x: seq<string>, y: seq<string>)
    requires |x| > 2 && |y| > 2 && Root(pair, Level(pair, x)) == Root(pair, Level(pair, y))
    ensures Root(pair, x) == Root(pair, y)
  {
    RootOfLevel(pair, x);
    RootOfLevel(pair, y);
  }

  lemma LevelsOfRepeated(pair: PairHash, init: seq<string>, last: seq<string>, x: seq<string>, y: seq<string>, k: nat)
    returns (row: seq<string>, p: string)
    requires |init| == 4 * k && |last| == 2 && x == init + last && y == x + last
    ensures |row| == 2 * k && Level(pair, x) == row + [p] && Level(pair, y) == Level(pair, x) + [p]
  {
    row := Level(pair, init);
    p := LevelAppends(pair, init, last, x, 2 * k);
    var q := LevelAppends(pair, x, last, y, 2 * k + 1);
  }

  /** Nor are lists of even length: repeating the last two leaves keeps the root whenever the leaves make
      an odd number of pairs, at least three. */
  lemma OddPairsAreMalleable(pair: PairHash, leaves: seq<string>)
    requires |leaves| % 4 == 2 && |leaves| > 2
    ensures Root(pair, leaves + leaves[|leaves| - 2..]) == Root(pair, leaves)
  {
    var init, last := leaves[..|leaves| - 2], leaves[|leaves| - 2..];
    var longer := leaves + last;
    var row, p := LevelsOfRepeated(pair, init, last, leaves, longer, |init| / 4);
    OddRow(pair, row, p, Level(pair, leaves), Level(pair, longer));
    SameAbove(pair, longer, leaves);
  }
}
