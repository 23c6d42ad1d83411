/** The engine itself: a class whose methods update the fields in place, each proved equal to the
    step it stands for. */
module Engine {
  import opened Blocks
  import opened Forest
  import opened Hashes
  import opened Ledger
  import opened LongestBranch
  import opened Mempool
  import Merkle
  import opened Pruning
  import opened Runs
  import opened Steps
  import opened WorldState
  import opened Wrappers

  datatype ProposeError = NothingToPropose | NoBlockMined | BadBlockMined

  class Blockchain {
    const crypto: Crypto
    const difficulty: nat
    const pool: TransactionPool
    var blocks: BlockMap
    var longestChain: seq<Hash>
    var commitedPointer: nat
    var pruned: set<Hash>
    var accounts: map<string, Account>
    var auctions: map<string, (Hash, nat)>

    // history, see Ledger.State
    ghost var archive: BlockMap
    ghost var journal: seq<Success>
    ghost var executed: seq<Hash>

    ghost function Snapshot(): State
      reads this
    {
      State(blocks, longestChain, commitedPointer, pruned, World(accounts, auctions), archive, journal, executed)
    }

    ghost function Progress(): WorldState.Progress
      reads this
    {
      Snapshot().Progress()
    }

    ghost predicate Valid()
      reads this, pool
    {
      Inv(crypto, Snapshot()) && PoolInv(crypto, pool.txs, accounts)
    }

    constructor (c: Crypto, difficulty: nat)
      ensures Valid() && fresh(pool) && crypto == c && this.difficulty == difficulty
      ensures Snapshot() == INITIAL && pool.txs == map[]
    {
      crypto, this.difficulty := c, difficulty;
      pool := new TransactionPool();
      blocks, longestChain, commitedPointer, pruned := map[], [], 0, {};
      accounts, auctions := map[], map[];
      archive, journal, executed := map[], [], [];
      new;
      InitialInv(c);
    }

    /* Execution */

    method ExecuteSingleTransaction(t: Transaction, blockHash: Hash) returns (r: Option<Rejection>)
      modifies this`accounts, this`auctions, this`journal
      ensures Progress() == Step(crypto, blocks, old(Progress()), t, blockHash)
      ensures r == match ApplyTransaction(crypto, blocks, old(Snapshot().world), t, blockHash)
                   case Ok(_) => None
                   case Err(e) => Some(e)
    {
      if !crypto.signed(t) {
        return Some(BadSignature);
      }
      match t.record {
        case CreateUserAccount(publicKey) =>
          if t.sender != publicKey {
            return Some(SenderMismatch);
          }
          if t.nonce != 0 {
            return Some(NonZeroNonce);
          }
          if publicKey in accounts {
            return Some(AccountExists);
          }
          accounts := accounts[publicKey := Account(publicKey, 1)];
        case Bid(_, _) =>
          var rejected := UseNonce(t);
          if rejected.Some? {
            return rejected;
          }
        case CreateAuction(auctionId, _, stopTime) =>
          var rejected := UseNonce(t);
          if rejected.Some? {
            return rejected;
          }
          auctions := auctions[auctionId := (blockHash, stopTime)];
        case StopAuction(auctionId) =>
          var creation := GetAuction(blocks, World(accounts, auctions), auctionId);
          if creation.Some? && t.timestamp < creation.value.record.stopTime && t.sender != creation.value.sender {
            return Some(NotTheCreator);
          }
          var rejected := UseNonce(t);
          if rejected.Some? {
            return rejected;
          }
          auctions := auctions - {auctionId};
      }
      journal := journal + [Success(t, blockHash)];
      return None;
    }

    method UseNonce(t: Transaction) returns (r: Option<Rejection>)
      modifies this`accounts
      ensures match Advance(old(Snapshot().world), t)
              case Ok(w) => r == None && Snapshot().world == w
              case Err(e) => r == Some(e) && accounts == old(accounts)
    {
      if t.sender !in accounts {
        return Some(UnknownAccount);
      }
      var account := accounts[t.sender];
      if t.nonce != account.nonce {
        return Some(InvalidNonce);
      }
      accounts := accounts[t.sender := account.(nonce := (account.nonce + 1) % U32)];
      return None;
    }

    method ExecuteBlockAt(h: Hash)
      modifies this`accounts, this`auctions, this`journal
      ensures Progress() == ExecuteBlock(crypto, blocks, old(Progress()), h)
    {
      if h in blocks {
        var b := blocks[h];
        ghost var start := Progress();
        for i := 0 to |b.transactions|
          invariant Progress() == WorldState.ExecuteTransactions(crypto, blocks, start, b.transactions[..i], b.hash)
        {
          var rejected := ExecuteSingleTransaction(b.transactions[i], b.hash);
          assert b.transactions[..i + 1][..i] == b.transactions[..i];
        }
        assert b.transactions[..|b.transactions|] == b.transactions;
      }
    }

    /** Runs the chain blocks from one place up to another. */
    method ExecuteRange(from: nat, goal: nat) returns (count: nat)
      requires from <= goal <= |longestChain|
      modifies this`accounts, this`auctions, this`journal, this`executed
      ensures count == goal - from
      ensures Progress() == Execute(crypto, blocks, old(Progress()), longestChain[from..goal])
      ensures executed == old(executed) + longestChain[from..goal]
    {
      count := 0;
      ghost var start, done := Progress(), executed;
      for i := from to goal
        invariant count == i - from
        invariant Progress() == Execute(crypto, blocks, start, longestChain[from..i])
        invariant executed == done + longestChain[from..i]
      {
        SliceGrows(longestChain, from, i);
        ExecuteBlockAt(longestChain[i]);
        executed := executed + [longestChain[i]];
        count := count + 1;
      }
    }

    /** Runs the blocks between the cursor and the second-to-last block and moves the cursor. */
    method ExecuteTransactions()
      modifies this`accounts, this`auctions, this`journal, this`executed, this`commitedPointer
      ensures var goal := Confirmed(|longestChain|);
              var more := if old(commitedPointer) <= goal then longestChain[old(commitedPointer)..goal] else [];
              && Progress() == Execute(crypto, blocks, old(Progress()), more)
              && executed == old(executed) + more
              && commitedPointer == (if old(commitedPointer) <= goal then goal else old(commitedPointer))
    {
      var from, goal := commitedPointer, Confirmed(|longestChain|);
      if from <= goal {
        var count := ExecuteRange(from, goal);
        commitedPointer := commitedPointer + count;
      }
    }

    /* Repair */

    method Prune(bm: BranchMap)
      requires IsForest(ParentsOf(blocks)) && Indexes(bm, ParentsOf(blocks))
      modifies this`blocks, this`pruned
      ensures blocks == old(blocks - Doomed(ParentsOf(blocks), longestChain))
      ensures pruned == old(pruned + Doomed(ParentsOf(blocks), longestChain))
    {
      ghost var up := ParentsOf(blocks);
      if |longestChain| < EXECUTE_AFTER_N_BLOCKS {
        TrimmedHasNoDoomed(up, longestChain);
        assert blocks - {} == blocks;
        return;
      }
      var bin := CollectDoomed(bm, longestChain, up);
      Bury(bin);
    }

    method Bury(bin: set<Hash>)
      modifies this`blocks, this`pruned
      ensures blocks == old(blocks) - bin && pruned == old(pruned) + bin
    {
      var todo := bin;
      while todo != {}
        invariant todo <= bin
        invariant blocks == old(blocks) - (bin - todo) && pruned == old(pruned) + (bin - todo)
        decreases todo
      {
        var h :| h in todo;
        todo := todo - {h};
        pruned := pruned + {h};
        blocks := blocks - {h};
      }
      assert bin - todo == bin;
    }

    method RepairTree()
      requires IsForest(ParentsOf(blocks))
      modifies this`blocks, this`longestChain, this`pruned
      ensures longestChain == old(Best(ParentsOf(blocks)))
      ensures blocks == old(blocks - Doomed(ParentsOf(blocks), Best(ParentsOf(blocks))))
      ensures pruned == old(pruned + Doomed(ParentsOf(blocks), Best(ParentsOf(blocks))))
    {
      ghost var up := ParentsOf(blocks);
      var bm := BuildBranchMap(blocks);
      SearchFindsBest(bm, up);
      longestChain := FindLongestBranch(bm, ROOT, up)[1..];
      Prune(bm);
    }

    /** Rebuilds the chain, cuts dead branches, executes. */
    method Repair()
      requires IsForest(ParentsOf(blocks))
      modifies this
      ensures Snapshot() == Ledger.Fix(crypto, old(Snapshot()))
    {
      RepairTree();
      ExecuteTransactions();
    }

    method PushBlock(b: Block)
      requires IsForest(ParentsOf(blocks[b.hash := b]))
      modifies this
      ensures Snapshot() == Push(crypto, old(Snapshot()), b)
    {
      blocks := blocks[b.hash := b];
      archive := archive[b.hash := b];
      Repair();
    }

    /* Steps */

    method VerifyChain() returns (ok: bool)
      ensures ok <==> forall h :: h in longestChain ==> h in blocks && Verified(crypto, blocks[h])
    {
      for i := 0 to |longestChain|
        invariant ChainVerifies(crypto, blocks, longestChain[..i])
      {
        if longestChain[i] !in blocks || !Verified(crypto, blocks[longestChain[i]]) {
          return false;
        }
      }
      assert longestChain[..|longestChain|] == longestChain;
      return true;
    }

    /** A received block: the checks in order, then a push. */
    method AcceptBlock(b: Block) returns (r: Option<AcceptError>)
      requires Valid()
      modifies this
      ensures Valid()
      ensures r == Judge(crypto, old(blocks), old(pruned), old(longestChain), b)
      ensures Snapshot() == Next(crypto, old(Snapshot()), Accept(b))
    {
      ghost var s := Snapshot();
      JudgeExactly(crypto, s, b);
      StepKeepsPoolInv(crypto, s, Accept(b), pool.txs);
      if b.hash in blocks {
        return Some(Duplicate);
      }
      if b.hash in pruned {
        return Some(AcceptError.Pruned);
      }
      if b.previousHash in pruned {
        return Some(PrunedParent);
      }
      var verdict := Verify(crypto, b);
      if verdict.Err? {
        return Some(Unverifiable);
      }
      if !verdict.value {
        return Some(InvalidHash);
      }
      if !HasPreviousBlock(blocks, b.previousHash) {
        return Some(Orphan);
      }
      var root := Merkle.ComputeRoot(crypto.pair, LeafHashes(crypto, b.transactions));
      if root != Some(b.merkleRoot) {
        return Some(WrongTransactionOrder);
      }
      var ok := VerifyChain();
      if !ok {
        return Some(BrokenChain);
      }
      InsertEffect(crypto, s, b);
      PushBlock(b);
      return None;
    }

    /** The block, but for its miner, that mining the given pool on the present tip returns. */
    ghost predicate IsCandidate(m: Block, clock: seq<nat>, txs: Pending)
      reads this
    {
      && Verified(crypto, m)
      && m.previousHash == Tip(longestChain)
      && IsQueueOf(m.transactions, txs)
      && IsFirstHit(crypto, m.previousHash, m.transactions, difficulty, clock, m.nonce, m.timestamp)
    }

    /** ... up to the miner there is just one such block. */
    lemma CandidateIsUnique(m: Block, n: Block, clock: seq<nat>, txs: Pending)
      requires IsKeyed(txs) && IsCandidate(m, clock, txs) && IsCandidate(n, clock, txs)
      ensures m == n.(miner := m.miner)
    {
      QueueIsUnique(m.transactions, n.transactions, txs);
      FirstHitIsUnique(crypto, m.previousHash, m.transactions, difficulty, clock,
                       m.nonce, m.timestamp, n.nonce, n.timestamp);
      VerifiedHash(crypto, m);
      VerifiedHash(crypto, n);
    }

    /** The header of the block that this call mines shares its digest with no other block's. */
    ghost predicate MinesWithoutCollision(clock: seq<nat>, txs: Pending)
      reads this
    {
      forall m: Block ::
        IsCandidate(m, clock, txs) ==> IsProposal(crypto, Snapshot(), m)
    }

    /** Mining the given pool on the present tip finds no solution. */
    ghost predicate NoCandidate(clock: seq<nat>, txs: Pending)
      reads this
    {
      forall q :: IsQueueOf(q, txs) ==> NothingHits(crypto, Tip(longestChain), q, difficulty, clock)
    }

    /** Mines the given queue on the tip; the check of the mined block cannot fail. */
    method MineBlock(publicKey: string, transactions: seq<Transaction>, clock: seq<nat>, ghost txs: Pending)
      returns (r: Result<Block, ProposeError>)
      requires transactions != [] && IsKeyed(txs) && IsQueueOf(transactions, txs) && MinesWithoutCollision(clock, txs)
      ensures r.Err? ==> r.error == NoBlockMined
      ensures r.Err? <==> NoCandidate(clock, txs)
      ensures r.Ok? ==> IsCandidate(r.value, clock, txs) && r.value.miner == publicKey
      ensures r.Ok? ==> IsProposal(crypto, Snapshot(), r.value)
    {
      var previous := if longestChain == [] then None else Some(longestChain[|longestChain| - 1]);
      forall q | IsQueueOf(q, txs) ensures q == transactions {
        QueueIsUnique(q, transactions, txs);
      }
      var mined := NewBlock(crypto, publicKey, previous, transactions, difficulty, clock);
      if mined.Err? {
        return Err(NoBlockMined);
      }
      if !Verified(crypto, mined.value) {
        return Err(BadBlockMined);
      }
      return Ok(mined.value);
    }

    method PushMined(m: Block)
      requires Inv(crypto, Snapshot()) && IsProposal(crypto, Snapshot(), m)
      modifies this
      ensures Inv(crypto, Snapshot()) && Snapshot() == Next(crypto, old(Snapshot()), Propose(m))
    {
      ProposalPushes(crypto, Snapshot(), m);
      PushBlock(m);
    }

    /** Mines the pending transactions on top of the chain. The pool is spent even when nothing is mined. */
    method ProposeBlock(publicKey: string, clock: seq<nat>) returns (r: Result<Block, ProposeError>)
      requires Valid() && MinesWithoutCollision(clock, pool.txs)
      modifies this, pool
      ensures Valid() && pool.txs == map[]
      ensures r == Err(NothingToPropose) <==> old(pool.txs) == map[]
      ensures r == Err(NoBlockMined) <==> old(pool.txs) != map[] && old(NoCandidate(clock, pool.txs))
      ensures r != Err(BadBlockMined)
      ensures r.Err? ==> Snapshot() == old(Snapshot())
      ensures r.Ok? ==> old(IsCandidate(r.value, clock, pool.txs)) && r.value.miner == publicKey
      ensures r.Ok? ==> old(IsProposal(crypto, Snapshot(), r.value))
      ensures r.Ok? ==> Snapshot() == Next(crypto, old(Snapshot()), Propose(r.value))
    {
      var transactions := pool.Flush();
      if |transactions| == 0 {
        EmptyPoolInv(crypto, accounts);
        return Err(NothingToPropose);
      }
      r := MineBlock(publicKey, transactions, clock, old(pool.txs));
      if r.Ok? {
        PushMined(r.value);
      }
      EmptyPoolInv(crypto, accounts);
    }

    /** A submitted transaction: the checks in order, then into the pool. */
    method AddTransaction(t: Transaction) returns (r: Option<PoolError>)
      requires Valid()
      modifies pool
      ensures Valid() && r == Admit(crypto, blocks, accounts, old(pool.txs), t)
      ensures r == None <==>
                && crypto.signed(t)
                && (forall h :: h in blocks ==> t !in blocks[h].transactions)
                && !(t.id in old(pool.txs) && old(pool.txs)[t.id] == t)
                && if t.record.CreateUserAccount?
                   then t.record.publicKey == t.sender && t.nonce == 0 && t.sender !in accounts
                   else && t.sender in accounts && accounts[t.sender].nonce <= t.nonce
                        && forall id :: id in old(pool.txs) ==>
                             old(pool.txs)[id].sender != t.sender || old(pool.txs)[id].nonce != t.nonce
      ensures if r == None then IsAdded(old(pool.txs), t, pool.txs) else pool.txs == old(pool.txs)
    {
      r := Admit(crypto, blocks, accounts, pool.txs, t);
      AdmittedExactly(crypto, blocks, accounts, pool.txs, t);
      if r == None {
        ghost var txs := pool.txs;
        pool.AddTransaction(t);
        AdmissionKeepsPoolInv(crypto, blocks, accounts, txs, t, pool.txs);
      }
    }
  }
}
