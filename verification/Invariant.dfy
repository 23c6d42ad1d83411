/** Every push keeps the invariant. */
module Invariant {
  import opened Blocks
  import opened Forest
  import opened Hashes
  import opened Ledger
  import opened WorldState

  lemma FixParents(blocks: BlockMap, chain: seq<Hash>)
    requires IsForest(ParentsOf(blocks))
    ensures ParentsOf(blocks - Doomed(ParentsOf(blocks), chain)) == Cut(ParentsOf(blocks), chain)
  {
  }

  /** What a push does to the tree: insert, choose, cut. */
  lemma PushTree(c: Crypto, s: State, b: Block)
    requires Inv(c, s) && IsPushable(c, s, b)
    ensures IsForest(ParentsOf(Insert(s, b).blocks))
    ensures var up', s' := ParentsOf(Insert(s, b).blocks), Push(c, s, b);
            && ParentsOf(s'.blocks) == Cut(up', s'.chain)
            && s'.chain == Better(s.chain, Branch(s, b))
            && IsBest(up', s'.chain)
            && IsForest(ParentsOf(s'.blocks))
            && IsBest(ParentsOf(s'.blocks), s'.chain)
            && IsTrimmed(ParentsOf(s'.blocks), s'.chain)
  {
    InsertEffect(c, s, b);
    var up' := ParentsOf(Insert(s, b).blocks);
    var chain := Push(c, s, b).chain;
    FixParents(Insert(s, b).blocks, chain);
    PruneKeepsBest(up', chain);
    PruneTrims(up', chain);
  }

  lemma InsertAccounts(c: Crypto, s: State, b: Block)
    requires IsAccounted(s) && IsSound(c, s.archive) && b.hash !in s.archive && Verified(c, b)
    ensures IsAccounted(Insert(s, b)) && IsSound(c, Insert(s, b).archive)
  {
  }

  lemma CutAccounts(s: State, s': State, doomed: set<Hash>)
    requires IsAccounted(s) && doomed <= s.blocks.Keys && s'.archive == s.archive
    requires s'.blocks == s.blocks - doomed && s'.pruned == s.pruned + doomed
    ensures IsAccounted(s')
  {
    assert s'.blocks.Keys == s.blocks.Keys - doomed;
  }

  lemma PushAccounts(c: Crypto, s: State, b: Block)
    requires IsAccounted(s) && IsSound(c, s.archive) && b.hash !in s.archive && Verified(c, b)
    requires IsForest(ParentsOf(Insert(s, b).blocks))
    ensures IsAccounted(Push(c, s, b)) && IsSound(c, Push(c, s, b).archive)
  {
    InsertAccounts(c, s, b);
    var up' := ParentsOf(Insert(s, b).blocks);
    CutAccounts(Insert(s, b), Push(c, s, b), Doomed(up', Best(up')));
  }

  /** A loser's parent is a chain block that keeps its successor. */
  lemma LoserParent(up: Parents, c: seq<Hash>, l: Hash)
    requires IsForest(up) && IsPath(up, c) && IsLoser(up, c, l) && IsForest(Cut(up, c))
    ensures up[l] in Cut(up, c) && !IsLeaf(Cut(up, c), up[l])
    ensures |PathTo(up, up[l])| + 2 <= |c|
  {
    var i :| 0 <= i < |c| - 2 && up[l] == c[i];
    PathAt(up, c, i);
    PathAt(up, c, i + 1);
    PathToIs(up, c[..i + 1]);
    ChainIsSpared(up, c, i);
    ChainIsSpared(up, c, i + 1);
    assert c[i + 1] in Cut(up, c) && Cut(up, c)[c[i + 1]] == up[l];
  }

  /** A cut leaves a spared inner block an inner block. */
  lemma InnerBlockStaysInner(up: Parents, c: seq<Hash>, p: Hash)
    requires IsForest(up) && IsPath(up, c) && IsForest(Cut(up, c))
    requires p in up && !IsLeaf(up, p) && !IsDoomed(up, c, p)
    ensures p in Cut(up, c) && !IsLeaf(Cut(up, c), p)
  {
    var x :| x in up && up[x] == p;
    ChildOfDoomedIsDoomed(up, c, x);
    if IsLoser(up, c, x) {
      LoserParent(up, c, x);
    } else {
      assert x in Cut(up, c) && Cut(up, c)[x] == p;
    }
  }

  lemma PathToAfterInsert(up: Parents, x: Hash, y: Hash, h: Hash)
    requires IsForest(up) && x !in up && IsForest(up[x := y]) && h in up
    ensures PathTo(up[x := y], h) == PathTo(up, h)
  {
    PathSurvivesInsert(up, x, y, PathTo(up, h));
    PathToIs(up[x := y], PathTo(up, h));
  }

  lemma PushBuriesDoomed(c: Crypto, s: State, b: Block, h: Hash)
    requires Inv(c, s) && IsPushable(c, s, b)
    requires IsForest(ParentsOf(Insert(s, b).blocks)) && IsForest(ParentsOf(Push(c, s, b).blocks))
    requires h in Doomed(ParentsOf(Insert(s, b).blocks), Push(c, s, b).chain)
    ensures h in s.archive || h == b.hash
    ensures IsBuried(Push(c, s, b), h)
  {
    var s' := Push(c, s, b);
    var up' := ParentsOf(Insert(s, b).blocks);
    PushTree(c, s, b);
    PathOfChild(up', h);
    ChildOfDoomedIsDoomed(up', s'.chain, h);
    if IsLoser(up', s'.chain, h) {
      LoserParent(up', s'.chain, h);
      PruneKeepsBest(up', s'.chain);
    }
  }

  /** An inner block stays one, at the same depth, unless it is cut. */
  lemma InnerBlockAfterPush(up: Parents, x: Hash, y: Hash, c: seq<Hash>, p: Hash)
    requires IsForest(up) && x !in up && IsForest(up[x := y]) && IsPath(up[x := y], c)
    requires p in up && !IsLeaf(up, p) && IsForest(Cut(up[x := y], c))
    requires p !in Doomed(up[x := y], c)
    ensures p in Cut(up[x := y], c) && !IsLeaf(Cut(up[x := y], c), p)
    ensures PathTo(up[x := y], p) == PathTo(up, p)
  {
    PathToAfterInsert(up, x, y, p);
    var z :| z in up && up[z] == p;
    assert up[x := y][z] == p;
    InnerBlockStaysInner(up[x := y], c, p);
  }

  lemma PushKeepsBuried(c: Crypto, s: State, b: Block, h: Hash)
    requires Inv(c, s) && IsPushable(c, s, b) && h in s.pruned
    requires IsForest(ParentsOf(Insert(s, b).blocks)) && IsForest(ParentsOf(Push(c, s, b).blocks))
    ensures IsBuried(Push(c, s, b), h)
  {
    var s' := Push(c, s, b);
    var p := s.archive[h].previousHash;
    assert IsBuried(s, h);
    PushTree(c, s, b);
    InsertParents(s, b);
    if p !in s'.pruned {
      InnerBlockAfterPush(ParentsOf(s.blocks), b.hash, b.previousHash, s'.chain, p);
      PruneKeepsBest(ParentsOf(Insert(s, b).blocks), s'.chain);
    }
  }

  lemma PushBuries(c: Crypto, s: State, b: Block)
    requires Inv(c, s) && IsPushable(c, s, b)
    requires IsForest(ParentsOf(Insert(s, b).blocks)) && IsForest(ParentsOf(Push(c, s, b).blocks))
    ensures forall h {:trigger IsBuried(Push(c, s, b), h)} ::
              h in Push(c, s, b).pruned ==> h in Push(c, s, b).archive && IsBuried(Push(c, s, b), h)
  {
    var s' := Push(c, s, b);
    forall h | h in s'.pruned ensures h in s'.archive && IsBuried(s', h) {
      if h in s.pruned {
        PushKeepsBuried(c, s, b, h);
      } else {
        PushBuriesDoomed(c, s, b, h);
      }
    }
  }

  /** How far a push moves the cursor, and what it runs. */
  lemma PushExecutes(c: Crypto, s: State, b: Block)
    requires Inv(c, s) && IsPushable(c, s, b) && IsForest(ParentsOf(Insert(s, b).blocks))
    ensures var s' := Push(c, s, b);
            && s.committed <= s'.committed == Confirmed(|s'.chain|) <= |s'.chain|
            && s'.executed == s.executed + s'.chain[s.committed..s'.committed]
            && s'.Progress() == Execute(c, s'.blocks, s.Progress(), s'.chain[s.committed..s'.committed])
  {
    ChainNeverShrinks(c, s, b);
  }

  lemma PushKeepsLaws(c: Crypto, s: State, b: Block)
    requires Inv(c, s) && IsPushable(c, s, b) && IsForest(ParentsOf(Insert(s, b).blocks))
    ensures Lawful(c, Push(c, s, b).Progress())
  {
    var s' := Push(c, s, b);
    PushExecutes(c, s, b);
    ExecuteKeepsLaws(c, s'.blocks, s.Progress(), s'.chain[s.committed..s'.committed]);
  }

  /** The invariant holds after every push. */
  lemma PushKeepsInv(c: Crypto, s: State, b: Block)
    requires Inv(c, s) && IsPushable(c, s, b)
    ensures IsForest(ParentsOf(Insert(s, b).blocks)) && Inv(c, Push(c, s, b))
  {
    PushTree(c, s, b);
    PushAccounts(c, s, b);
    PushBuries(c, s, b);
    PushExecutes(c, s, b);
    PushKeepsLaws(c, s, b);
  }

  /** What a push does to a block that is held, or is pushed. */
  lemma PushKeepsOrPrunes(c: Crypto, s: State, b: Block, h: Hash)
    requires Inv(c, s) && IsPushable(c, s, b) && IsForest(ParentsOf(Insert(s, b).blocks))
    requires h in s.blocks || h == b.hash
    ensures h in Push(c, s, b).pruned <==> IsDoomed(ParentsOf(Insert(s, b).blocks), Push(c, s, b).chain, h)
    ensures h in Push(c, s, b).blocks <==> h !in Push(c, s, b).pruned
  {
  }

  /** Exactly which blocks a push removes: those whose path leaves the new chain before its last two blocks. */
  lemma PushRemovesExactly(c: Crypto, s: State, b: Block, h: Hash)
    requires Inv(c, s) && IsPushable(c, s, b) && IsForest(ParentsOf(Insert(s, b).blocks))
    requires h in s.blocks || h == b.hash
    ensures h in Push(c, s, b).pruned <==> Departs(Push(c, s, b).chain, PathTo(ParentsOf(Insert(s, b).blocks), h))
    ensures h in Push(c, s, b).blocks <==> h !in Push(c, s, b).pruned
  {
    PushTree(c, s, b);
    PushKeepsOrPrunes(c, s, b, h);
    DoomedExactly(ParentsOf(Insert(s, b).blocks), Push(c, s, b).chain, h);
  }
}
