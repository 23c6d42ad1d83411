/** The state of the blockchain engine, what one step does to it, and the invariant of every step. */
module Ledger {
  import opened Blocks
  import opened Forest
  import opened Hashes
  import opened WorldState

  const EXECUTE_AFTER_N_BLOCKS: nat := 2

  /** `archive`, `journal` and `executed` are history: every block ever pushed, every transaction
      that succeeded with its block, and every block hash whose transactions were run. The engine never reads them. */
  datatype State = State(
    blocks: BlockMap,
    chain: seq<Hash>,
    committed: nat,
    pruned: set<Hash>,
    world: World,
    archive: BlockMap,
    journal: seq<Success>,
    executed: seq<Hash>)
  {
    function Progress(): Progress {
      WorldState.Progress(world, journal)
    }
  }

  const INITIAL: State := State(map[], [], 0, {}, EMPTY_WORLD, map[], [], [])

  function ParentsOf(blocks: BlockMap): Parents {
    map h | h in blocks :: blocks[h].previousHash
  }

  /** How many blocks of a chain of length n are buried deep enough to be executed. */
  function Confirmed(n: nat): nat {
    if n < EXECUTE_AFTER_N_BLOCKS then 0 else n - EXECUTE_AFTER_N_BLOCKS
  }

  /** Recomputes the chain, cuts the dead branches and executes what became confirmed. */
  ghost function Fix(c: Crypto, s: State): State
    requires IsForest(ParentsOf(s.blocks))
  {
    var up := ParentsOf(s.blocks);
    var chain := Best(up);
    var doomed := Doomed(up, chain);
    var kept := s.blocks - doomed;
    var goal := if s.committed <= Confirmed(|chain|) then Confirmed(|chain|) else s.committed;
    var newly := if s.committed <= Confirmed(|chain|) then chain[s.committed..goal] else [];
    var progress := Execute(c, kept, s.Progress(), newly);
    State(kept, chain, goal, s.pruned + doomed, progress.world, s.archive, progress.journal, s.executed + newly)
  }

  lemma SliceGrows(a: seq<Hash>, i: nat, j: nat)
    requires i <= j < |a|
    ensures a[i..j + 1][..j - i] == a[i..j] && a[i..j + 1] == a[i..j] + [a[j]]
  {
  }

  function Insert(s: State, b: Block): State {
    s.(blocks := s.blocks[b.hash := b], archive := s.archive[b.hash := b])
  }

  /** Adds a block and repairs the rest of the state. */
  ghost function Push(c: Crypto, s: State, b: Block): State
    requires IsForest(ParentsOf(Insert(s, b).blocks))
  {
    Fix(c, Insert(s, b))
  }

  /* What the invariant says */

  /** Blocks are filed under their own hash and pass the block check. */
  ghost predicate IsSound(c: Crypto, blocks: BlockMap) {
    && (forall h :: h in blocks ==> blocks[h].hash == h)
    && (forall h {:trigger Verified(c, blocks[h])} :: h in blocks ==> Verified(c, blocks[h]))
  }

  /** Every block ever pushed is either held, unchanged, or tombstoned, never both. */
  ghost predicate IsAccounted(s: State) {
    && s.archive.Keys == s.blocks.Keys + s.pruned
    && s.blocks.Keys !! s.pruned
    && (forall h :: h in s.blocks ==> s.archive[h] == s.blocks[h])
  }

  /** The parent of a tombstone is a tombstone or a held block that has a held child and lies
      above the last two blocks of any chain as long as the present one. */
  ghost predicate IsBuried(s: State, h: Hash)
    requires IsForest(ParentsOf(s.blocks)) && h in s.archive
  {
    var up := ParentsOf(s.blocks);
    var p := s.archive[h].previousHash;
    || p in s.pruned
    || (p in up && !IsLeaf(up, p) && |PathTo(up, p)| + 2 <= |s.chain|)
  }

  ghost predicate Inv(c: Crypto, s: State) {
    var up := ParentsOf(s.blocks);
    && IsSound(c, s.archive)
    && IsAccounted(s)
    && IsForest(up)
    && IsBest(up, s.chain)
    && IsTrimmed(up, s.chain)
    && s.committed == Confirmed(|s.chain|) == |s.executed|
    && (forall h {:trigger IsBuried(s, h)} :: h in s.pruned ==> IsBuried(s, h))
    && Lawful(c, s.Progress())
  }

  lemma InitialInv(c: Crypto)
    ensures Inv(c, INITIAL)
  {
    assert ParentsOf(INITIAL.blocks) == map[];
    forall q | IsPath(map[], q) ensures q == [] {
    }
    assert IsBest(map[], []);
    forall a ensures NonceLawFor(START, a) && AuctionLawFor(START, a) {
    }
  }

  /** A block that may be pushed: checked, new, and on top of a held block or the sentinel. */
  ghost predicate IsPushable(c: Crypto, s: State, b: Block) {
    && Verified(c, b)
    && b.hash !in s.archive
    && IsNode(ParentsOf(s.blocks), b.previousHash)
  }

  /** The branch that a pushed block ends. */
  ghost function Branch(s: State, b: Block): seq<Hash>
    requires IsForest(ParentsOf(s.blocks)) && IsNode(ParentsOf(s.blocks), b.previousHash)
  {
    PathTo(ParentsOf(s.blocks), b.previousHash) + [b.hash]
  }

  ghost function Better(p: seq<Hash>, q: seq<Hash>): seq<Hash> {
    if AtLeast(p, q) then p else q
  }

  /** The parent map after an insertion, and the chain chosen from it. */
  lemma InsertEffect(c: Crypto, s: State, b: Block)
    requires Inv(c, s) && IsPushable(c, s, b)
    ensures IsDigest(b.hash) && b.hash !in s.blocks
    ensures ParentsOf(Insert(s, b).blocks) == ParentsOf(s.blocks)[b.hash := b.previousHash]
    ensures IsForest(ParentsOf(Insert(s, b).blocks))
    ensures Best(ParentsOf(Insert(s, b).blocks)) == Better(s.chain, Branch(s, b))
  {
    VerifiedHash(c, b);
    InsertParents(s, b);
    BestIsBetter(ParentsOf(s.blocks), s.chain, b.hash, b.previousHash);
  }

  lemma InsertParents(s: State, b: Block)
    ensures ParentsOf(Insert(s, b).blocks) == ParentsOf(s.blocks)[b.hash := b.previousHash]
  {
  }

  lemma BestIsBetter(up: Parents, chain: seq<Hash>, x: Hash, y: Hash)
    requires IsForest(up) && IsBest(up, chain) && x !in up && IsDigest(x) && IsNode(up, y)
    ensures IsForest(up[x := y]) && Best(up[x := y]) == Better(chain, PathTo(up, y) + [x])
  {
    BestAfterInsert(up, chain, x, y);
    BestUnique(up[x := y], Best(up[x := y]), Better(chain, PathTo(up, y) + [x]));
  }

  /** The chain never gets shorter. */
  lemma ChainNeverShrinks(c: Crypto, s: State, b: Block)
    requires Inv(c, s) && IsPushable(c, s, b)
    ensures IsForest(ParentsOf(Insert(s, b).blocks))
    ensures Push(c, s, b).chain == Better(s.chain, Branch(s, b))
    ensures |s.chain| <= |Push(c, s, b).chain|
  {
    InsertEffect(c, s, b);
  }
}
