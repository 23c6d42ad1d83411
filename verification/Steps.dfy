/** The two public steps of the engine, what each keeps, and when a chain prefix is final. */
module Steps {
  import opened Blocks
  import opened Forest
  import opened Hashes
  import opened Invariant
  import opened Ledger
  import Merkle
  import opened WorldState
  import opened Wrappers

  datatype AcceptError =
    | Duplicate | Pruned | PrunedParent | Unverifiable | InvalidHash | Orphan
    | WrongTransactionOrder | BrokenChain

  predicate HasPreviousBlock(blocks: BlockMap, previousHash: Hash) {
    previousHash == ROOT || exists h :: h in blocks && blocks[h].hash == previousHash
  }

  predicate ChainVerifies(c: Crypto, blocks: BlockMap, chain: seq<Hash>) {
    forall h :: h in chain ==> h in blocks && Verified(c, blocks[h])
  }

  /** The checks on a received block, in their order; None means accepted. */
  function Judge(c: Crypto, blocks: BlockMap, pruned: set<Hash>, chain: seq<Hash>, b: Block): Option<AcceptError> {
    if b.hash in blocks then Some(Duplicate)
    else if b.hash in pruned then Some(AcceptError.Pruned)
    else if b.previousHash in pruned then Some(PrunedParent)
    else if Verify(c, b).Err? then Some(Unverifiable)
    else if !Verify(c, b).value then Some(InvalidHash)
    else if !HasPreviousBlock(blocks, b.previousHash) then Some(Orphan)
    else if Merkle.Root(c.pair, LeafHashes(c, b.transactions)) != Some(b.merkleRoot) then Some(WrongTransactionOrder)
    else if !ChainVerifies(c, blocks, chain) then Some(BrokenChain)
    else None
  }

  ghost function Verdict(c: Crypto, s: State, b: Block): Option<AcceptError> {
    Judge(c, s.blocks, s.pruned, s.chain, b)
  }

  lemma {:induction false} ChainIsHeld(up: Parents, p: seq<Hash>, h: Hash)
    requires IsPath(up, p) && h in p
    ensures h in up
  {
    if h != Tip(p) {
      assert p == Init(p) + [Tip(p)];
      ChainIsHeld(up, Init(p), h);
    }
  }

  lemma HeldBlocks(c: Crypto, s: State)
    requires Inv(c, s)
    ensures IsSound(c, s.blocks)
  {
    forall h | h in s.blocks ensures s.blocks[h].hash == h && Verified(c, s.blocks[h]) {
      assert s.archive[h] == s.blocks[h];
    }
  }

  lemma SentinelIsNoBlock(c: Crypto, s: State)
    requires Inv(c, s)
    ensures ROOT !in s.archive
  {
    if ROOT in s.archive {
      VerifiedHash(c, s.archive[ROOT]);
      DigestsAreRanked(ROOT, ROOT);
    }
  }

  lemma HasPreviousBlockMeans(c: Crypto, blocks: BlockMap, h: Hash)
    requires IsSound(c, blocks)
    ensures HasPreviousBlock(blocks, h) <==> IsNode(ParentsOf(blocks), h)
  {
  }

  lemma ChainAlwaysVerifies(c: Crypto, s: State)
    requires Inv(c, s)
    ensures ChainVerifies(c, s.blocks, s.chain)
  {
    HeldBlocks(c, s);
    forall h | h in s.chain ensures h in s.blocks {
      ChainIsHeld(ParentsOf(s.blocks), s.chain, h);
    }
  }

  /** The checks accept exactly the blocks that may be pushed, and neither of the last two can fail. */
  lemma JudgeExactly(c: Crypto, s: State, b: Block)
    requires Inv(c, s)
    ensures Verdict(c, s, b) == None <==> IsPushable(c, s, b)
    ensures Verdict(c, s, b) != Some(WrongTransactionOrder) && Verdict(c, s, b) != Some(BrokenChain)
  {
    HeldBlocks(c, s);
    ChainAlwaysVerifies(c, s);
    SentinelIsNoBlock(c, s);
    HasPreviousBlockMeans(c, s.blocks, b.previousHash);
    JudgeCases(c, s, b);
  }

  lemma JudgeCases(c: Crypto, s: State, b: Block)
    requires IsAccounted(s) && IsSound(c, s.archive) && ROOT !in s.pruned
    requires ChainVerifies(c, s.blocks, s.chain)
    requires HasPreviousBlock(s.blocks, b.previousHash) <==> IsNode(ParentsOf(s.blocks), b.previousHash)
    ensures Verdict(c, s, b) == None <==> IsPushable(c, s, b)
    ensures Verdict(c, s, b) != Some(WrongTransactionOrder) && Verdict(c, s, b) != Some(BrokenChain)
  {
    if Verified(c, b) {
      VerifiedHash(c, b);
    }
  }

  /** Exactly when each verdict comes out. */
  lemma VerdictExactly(c: Crypto, s: State, b: Block)
    requires Inv(c, s)
    ensures Verdict(c, s, b) == Some(Duplicate) <==> b.hash in s.blocks
    ensures Verdict(c, s, b) == Some(AcceptError.Pruned) <==> b.hash in s.pruned
    ensures Verdict(c, s, b) == Some(PrunedParent) <==> b.hash !in s.archive && b.previousHash in s.pruned
    ensures Verdict(c, s, b) == Some(Unverifiable) <==>
              b.hash !in s.archive && b.previousHash !in s.pruned && b.transactions == []
    ensures Verdict(c, s, b) == Some(InvalidHash) <==>
              b.hash !in s.archive && b.previousHash !in s.pruned && b.transactions != [] && !Verified(c, b)
    ensures Verdict(c, s, b) == Some(Orphan) <==>
              b.hash !in s.archive && Verified(c, b) && b.previousHash != ROOT && b.previousHash !in s.archive
    ensures Verdict(c, s, b) == None <==>
              b.hash !in s.archive && Verified(c, b) && (b.previousHash == ROOT || b.previousHash in s.blocks)
  {
    JudgeExactly(c, s, b);
    HeldBlocks(c, s);
    SentinelIsNoBlock(c, s);
    HasPreviousBlockMeans(c, s.blocks, b.previousHash);
    VerifiedExactly(c, b);
  }

  /** A block mined on the tip, whose header shares its digest with no other header ever pushed. */
  ghost predicate IsProposal(c: Crypto, s: State, m: Block) {
    && Verified(c, m)
    && m.previousHash == Tip(s.chain)
    && forall h {:trigger NoCollision(c, s.archive[h], m)} :: h in s.archive ==> NoCollision(c, s.archive[h], m)
  }

  /** No block ever pushed has the tip as its parent. */
  lemma TipHasNoChild(c: Crypto, s: State, h: Hash)
    requires Inv(c, s) && h in s.archive
    ensures s.archive[h].previousHash != Tip(s.chain)
  {
    var up := ParentsOf(s.blocks);
    LongestEndsInLeaf(up, s.chain, s.chain);
    if h in s.pruned {
      assert IsBuried(s, h);
      SentinelIsNoBlock(c, s);
      if s.chain != [] {
        ChainIsHeld(up, s.chain, Tip(s.chain));
      }
    } else {
      assert up[h] == s.archive[h].previousHash;
    }
  }

  /** Proposing checks neither duplicates nor tombstones, and need not: a child of the tip is new. */
  lemma ProposalIsPushable(c: Crypto, s: State, m: Block)
    requires Inv(c, s) && IsProposal(c, s, m)
    ensures IsPushable(c, s, m)
  {
    if m.hash in s.archive {
      EqualHashesMeanEqualHeaders(c, s.archive[m.hash], m);
      TipHasNoChild(c, s, m.hash);
    }
    if s.chain != [] {
      ChainIsHeld(ParentsOf(s.blocks), s.chain, Tip(s.chain));
    }
  }

  datatype Action = Accept(b: Block) | Propose(m: Block)

  ghost predicate IsEnabled(c: Crypto, s: State, a: Action) {
    a.Propose? ==> IsProposal(c, s, a.m)
  }

  /** One step: a received block is pushed if it passes the checks, a mined block always. */
  ghost function Next(c: Crypto, s: State, a: Action): (s': State)
    requires Inv(c, s) && IsEnabled(c, s, a)
    ensures Inv(c, s')
  {
    match a
    case Accept(b) =>
      JudgeExactly(c, s, b);
      if Verdict(c, s, b) == None then
        PushKeepsInv(c, s, b);
        Push(c, s, b)
      else s
    case Propose(m) =>
      ProposalIsPushable(c, s, m);
      PushKeepsInv(c, s, m);
      Push(c, s, m)
  }

  /** Every step that changes the state is a push. */
  lemma StepIsPush(c: Crypto, s: State, a: Action) returns (b: Block)
    requires Inv(c, s) && IsEnabled(c, s, a)
    ensures b == if a.Accept? then a.b else a.m
    ensures || Next(c, s, a) == s
            || (IsPushable(c, s, b) && IsForest(ParentsOf(Insert(s, b).blocks)) && Next(c, s, a) == Push(c, s, b))
  {
    if a.Accept? {
      JudgeExactly(c, s, a.b);
      b := a.b;
    } else {
      ProposalIsPushable(c, s, a.m);
      b := a.m;
    }
    if IsPushable(c, s, b) {
      PushKeepsInv(c, s, b);
    }
  }

  /** A step that pushes is a push, and its tree is one that a repair can work on. */
  lemma ProposalPushes(c: Crypto, s: State, m: Block)
    requires Inv(c, s) && IsProposal(c, s, m)
    ensures IsForest(ParentsOf(s.blocks[m.hash := m]))
    ensures Next(c, s, Propose(m)) == Push(c, s, m) && Inv(c, Push(c, s, m))
  {
    ProposalIsPushable(c, s, m);
    PushKeepsInv(c, s, m);
  }

  /* Steps as a relation, without presupposing the invariant */

  /** A push that comes to an end: the search for the best branch needs a forest. */
  ghost predicate IsPush(c: Crypto, s: State, b: Block, s': State) {
    IsForest(ParentsOf(Insert(s, b).blocks)) && s' == Push(c, s, b)
  }

  ghost predicate IsStep(c: Crypto, s: State, a: Action, s': State) {
    match a
    case Accept(b) => if Verdict(c, s, b) == None then IsPush(c, s, b, s') else s' == s
    case Propose(m) => IsProposal(c, s, m) && IsPush(c, s, m, s')
  }

  /** From a state with the invariant the relation and the function agree, so every enabled step exists. */
  lemma StepIsNext(c: Crypto, s: State, a: Action, s': State)
    requires Inv(c, s)
    ensures IsStep(c, s, a, s') <==> IsEnabled(c, s, a) && s' == Next(c, s, a)
  {
    match a
    case Accept(b) =>
      JudgeExactly(c, s, b);
      if IsPushable(c, s, b) {
        InsertEffect(c, s, b);
      }
    case Propose(m) =>
      if IsProposal(c, s, m) {
        ProposalPushes(c, s, m);
      }
  }

  /* Finality */

  /** A new branch that starts at the chain's first block and wins follows the chain up to its tip. */
  lemma WinnerFollowsChain(up: Parents, c: seq<Hash>, x: Hash, p: seq<Hash>)
    requires IsForest(up) && IsPath(up, c) && IsTrimmed(up, c) && IsPath(up, p)
    requires c != [] && x !in up && (p + [x])[0] == c[0] && |p| + 1 >= |c|
    ensures c[..|c| - 1] <= p + [x]
  {
    PathAt(up, c, 0);
    if p != [] {
      FollowsChain(up, c, p);
    }
  }

  lemma FollowsChain(up: Parents, c: seq<Hash>, p: seq<Hash>)
    requires IsForest(up) && IsPath(up, c) && IsTrimmed(up, c) && IsPath(up, p)
    requires c != [] && p != [] && p[0] == c[0] && |p| + 1 >= |c|
    ensures c[..|c| - 1] <= p
  {
    forall i | 0 <= i < |c| - 1 ensures p[i] == c[i] {
      TrimmedPathFollows(up, c, p, i);
    }
  }

  /** The step that makes a rival first block win. */
  ghost predicate Overturns(s: State, b: Block)
    requires IsForest(ParentsOf(s.blocks)) && IsNode(ParentsOf(s.blocks), b.previousHash)
  {
    s.chain != [] && Branch(s, b)[0] != s.chain[0] && !AtLeast(s.chain, Branch(s, b))
  }

  lemma PrefixSurvives(up: Parents, c: seq<Hash>, x: Hash, p: seq<Hash>)
    requires IsForest(up) && IsPath(up, c) && IsTrimmed(up, c) && IsPath(up, p) && c != [] && x !in up
    ensures var c' := Better(c, p + [x]);
            && (AtLeast(c, p + [x]) || (p + [x])[0] == c[0] <==> c'[0] == c[0])
            && (c'[0] == c[0] ==> c[..|c| - 1] <= c')
            && (c'[0] != c[0] && |c| >= 2 ==> !(c[..|c| - 1] <= c'))
  {
    if !AtLeast(c, p + [x]) && (p + [x])[0] == c[0] {
      WinnerFollowsChain(up, c, x, p);
    }
  }

  /** A push keeps the chain, all but its tip, exactly when it does not overturn the first block. */
  lemma PrefixIsFinalExactly(c: Crypto, s: State, b: Block)
    requires Inv(c, s) && IsPushable(c, s, b) && IsForest(ParentsOf(Insert(s, b).blocks)) && s.chain != []
    ensures var s' := Push(c, s, b);
            && s'.chain != []
            && (Overturns(s, b) <==> s'.chain[0] != s.chain[0])
            && (!Overturns(s, b) ==> s.chain[..|s.chain| - 1] <= s'.chain)
            && (Overturns(s, b) && |s.chain| >= 2 ==> !(s.chain[..|s.chain| - 1] <= s'.chain))
  {
    ChainNeverShrinks(c, s, b);
    PrefixSurvives(ParentsOf(s.blocks), s.chain, b.hash, PathTo(ParentsOf(s.blocks), b.previousHash));
  }

  /** A step never shortens the chain, and keeps it but for its tip if the first block stays. */
  lemma StepKeepsChain(c: Crypto, s: State, a: Action)
    requires Inv(c, s) && IsEnabled(c, s, a)
    ensures var s' := Next(c, s, a);
            && |s.chain| <= |s'.chain|
            && (s.chain != [] && s'.chain[0] == s.chain[0] ==> s.chain[..|s.chain| - 1] <= s'.chain)
  {
    var b := StepIsPush(c, s, a);
    if Next(c, s, a) != s {
      ChainNeverShrinks(c, s, b);
      if s.chain != [] {
        PrefixIsFinalExactly(c, s, b);
      }
    }
  }

  /** `s'` remembers all that `s` did. */
  ghost predicate Extends(s: State, s': State) {
    && s.committed <= s'.committed
    && s.pruned <= s'.pruned
    && s.executed <= s'.executed
    && s.journal <= s'.journal
    && s.archive.Keys <= s'.archive.Keys
    && (forall h :: h in s.archive ==> s'.archive[h] == s.archive[h])
  }

  /** A step never moves the cursor back, lifts a tombstone, replaces a block or undoes an execution. */
  lemma StepExtends(c: Crypto, s: State, a: Action)
    requires Inv(c, s) && IsEnabled(c, s, a)
    ensures Extends(s, Next(c, s, a))
  {
    var b := StepIsPush(c, s, a);
    if Next(c, s, a) != s {
      PushExtends(c, s, b);
    }
  }

  lemma PushExtends(c: Crypto, s: State, b: Block)
    requires Inv(c, s) && IsPushable(c, s, b) && IsForest(ParentsOf(Insert(s, b).blocks))
    ensures Extends(s, Push(c, s, b))
  {
    var s' := Push(c, s, b);
    PushExecutes(c, s, b);
    JournalGrows(c, s'.blocks, s.Progress(), s'.chain[s.committed..s'.committed]);
  }

  lemma {:induction false} JournalGrows(c: Crypto, blocks: BlockMap, p: Progress, hs: seq<Hash>)
    ensures p.journal <= Execute(c, blocks, p, hs).journal
  {
    if hs != [] {
      var n := |hs| - 1;
      JournalGrows(c, blocks, p, hs[..n]);
      if hs[n] in blocks {
        JournalGrowsInBlock(c, blocks, Execute(c, blocks, p, hs[..n]), blocks[hs[n]].transactions, blocks[hs[n]].hash);
      }
    }
  }

  lemma {:induction false} JournalGrowsInBlock(c: Crypto, blocks: BlockMap, p: Progress, ts: seq<Transaction>, h: Hash)
    ensures p.journal <= ExecuteTransactions(c, blocks, p, ts, h).journal
  {
    if ts != [] {
      JournalGrowsInBlock(c, blocks, p, ts[..|ts| - 1], h);
    }
  }
}
