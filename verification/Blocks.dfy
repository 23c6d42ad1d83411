/** Transactions, headers, blocks, the cryptographic primitives they rest on, and mining. */
module Blocks {
  import opened Hashes
  import opened Wrappers
  import Merkle
  import Pow

  datatype Data =
    | CreateUserAccount(publicKey: string)
    | Bid(auctionId: string, amount: nat)
    | CreateAuction(auctionId: string, startAmount: nat, stopTime: nat)
    | StopAuction(auctionId: string)

  datatype Transaction = Transaction(
    id: string, record: Data, sender: string, timestamp: nat, nonce: nat, signature: string)

  datatype Header = Header(previousHash: Hash, merkleRoot: string, nonce: nat, timestamp: nat)

  datatype Block = Block(
    previousHash: Hash, transactions: seq<Transaction>, merkleRoot: string, hash: Hash,
    nonce: nat, timestamp: nat, miner: string)

  /** The digest of a header, the hash of two sibling nodes, the hash of a transaction, and the
      signature check. Every statement holds for every choice of the four; the few that need two
      digests to differ say so for the headers at hand. */
  datatype Crypto = Crypto(
    digest: Header -> Digest,
    pair: Merkle.PairHash,
    txHash: Transaction -> string,
    signed: Transaction -> bool)

  datatype BlockError = EmptyTransactions | StillMining

  function LeafHashes(c: Crypto, ts: seq<Transaction>): (hs: seq<string>)
    ensures |hs| == |ts|
  {
    if ts == [] then [] else [c.txHash(ts[0])] + LeafHashes(c, ts[1..])
  }

  function NewHeader(c: Crypto, previousHash: Hash, ts: seq<Transaction>, nonce: nat, timestamp: nat)
    : Result<Header, BlockError>
  {
    match Merkle.Root(c.pair, LeafHashes(c, ts))
    case Some(root) => Ok(Header(previousHash, root, nonce, timestamp))
    case None => Err(EmptyTransactions)
  }

  /** The check of a block against its own header: hash, puzzle and Merkle root. */
  function Verify(c: Crypto, b: Block): Result<bool, BlockError> {
    match NewHeader(c, b.previousHash, b.transactions, b.nonce, b.timestamp)
    case Err(e) => Err(e)
    case Ok(header) =>
      var digest := c.digest(header);
      Ok(Encode(digest) == b.hash && Pow.Solves(digest) && header.merkleRoot == b.merkleRoot)
  }

  predicate Verified(c: Crypto, b: Block) {
    Verify(c, b) == Ok(true)
  }

  /** The header of a block as it stands; the miner is not part of it. */
  function HeaderOf(b: Block): Header {
    Header(b.previousHash, b.merkleRoot, b.nonce, b.timestamp)
  }

  /** No two distinct headers with the same digest are at hand. */
  ghost predicate NoCollision(c: Crypto, a: Block, b: Block) {
    c.digest(HeaderOf(a)) == c.digest(HeaderOf(b)) ==> HeaderOf(a) == HeaderOf(b)
  }

  lemma VerifiedHash(c: Crypto, b: Block)
    requires Verified(c, b)
    ensures b.transactions != [] && b.hash == Encode(c.digest(HeaderOf(b))) && IsDigest(b.hash)
    ensures Merkle.Root(c.pair, LeafHashes(c, b.transactions)) == Some(b.merkleRoot)
  {
  }

  /** Exactly which blocks pass the check. */
  lemma VerifiedExactly(c: Crypto, b: Block)
    ensures Verified(c, b) <==>
              && b.transactions != []
              && Merkle.Root(c.pair, LeafHashes(c, b.transactions)) == Some(b.merkleRoot)
              && b.hash == Encode(c.digest(HeaderOf(b)))
              && Pow.LeadingZeroBits(c.digest(HeaderOf(b))) >= 16
    ensures Verify(c, b).Err? <==> b.transactions == []
  {
    Pow.SolvesMeansSixteenZeroBits(c.digest(HeaderOf(b)));
  }

  /** The hash of a checked block stands for a digest of 64 bytes with at least 16 leading zero bits. */
  ghost predicate IsSolvedHash(h: Hash) {
    exists d: Digest :: h == Encode(d) && Pow.LeadingZeroBits(d) >= 16
  }

  /** Equal hashes mean equal headers, not equal blocks. */
  lemma EqualHashesMeanEqualHeaders(c: Crypto, a: Block, b: Block)
    requires Verified(c, a) && Verified(c, b) && NoCollision(c, a, b)
    ensures a.hash == b.hash <==> HeaderOf(a) == HeaderOf(b)
  {
    VerifiedHash(c, a);
    VerifiedHash(c, b);
    if a.hash == b.hash {
      EncodeIsInjective(c.digest(HeaderOf(a)), c.digest(HeaderOf(b)));
    }
  }

  /** The sibling pairs hashed for the Merkle root of a block. */
  function PairsOf(c: Crypto, b: Block, d: nat): Merkle.Pairs
    requires Merkle.IsHeight(d, |b.transactions|) && b.transactions != []
  {
    Merkle.PairsIn(c.pair, d, LeafHashes(c, b.transactions))
  }

  /** Two different transactions, at the same place of two lists, with the same hash. */
  ghost predicate TransactionsCollide(c: Crypto, ts: seq<Transaction>, us: seq<Transaction>) {
    exists i :: 0 <= i < |ts| && i < |us| && ts[i] != us[i] && c.txHash(ts[i]) == c.txHash(us[i])
  }

  /** Two checked blocks with the same hash and equally many transactions are the same up to the miner,
      or else two headers, two sibling pairs or two transactions at hand are different with the same hash. */
  lemma HashBindsBlock(c: Crypto, a: Block, b: Block, d: nat)
    requires Verified(c, a) && Verified(c, b) && a.hash == b.hash
    requires |a.transactions| == |b.transactions| && Merkle.IsHeight(d, |a.transactions|)
    ensures a.transactions != [] && b.transactions != []
    ensures || a == b.(miner := a.miner)
            || !NoCollision(c, a, b)
            || Merkle.Collide(c.pair, PairsOf(c, a, d), PairsOf(c, b, d))
            || TransactionsCollide(c, a.transactions, b.transactions)
  {
    var ts, us := a.transactions, b.transactions;
    VerifiedHash(c, a);
    VerifiedHash(c, b);
    if NoCollision(c, a, b) {
      EqualHashesMeanEqualHeaders(c, a, b);
      Merkle.RootBinds(c.pair, d, LeafHashes(c, ts), LeafHashes(c, us));
      if LeafHashes(c, ts) == LeafHashes(c, us) && !TransactionsCollide(c, ts, us) {
        forall i | 0 <= i < |ts| ensures ts[i] == us[i] {
          LeafHashAt(c, ts, i);
          LeafHashAt(c, us, i);
        }
      }
    }
  }

  /** Two different headers, sibling pairs or transactions of the two blocks have the same hash. */
  ghost predicate BlocksCollide(c: Crypto, a: Block, b: Block) {
    || !NoCollision(c, a, b)
    || TransactionsCollide(c, a.transactions, b.transactions)
    || (a.transactions != [] && b.transactions != []
        && exists d :: Merkle.IsHeight(d, |a.transactions|) && Merkle.IsHeight(d, |b.transactions|)
                       && Merkle.Collide(c.pair, PairsOf(c, a, d), PairsOf(c, b, d)))
  }

  /** Short of a collision, checked blocks with the same hash have the same transactions exactly if they
      have equally many. */
  lemma SameBodyExactly(c: Crypto, a: Block, b: Block)
    requires Verified(c, a) && Verified(c, b) && a.hash == b.hash && !BlocksCollide(c, a, b)
    ensures a.transactions == b.transactions <==> |a.transactions| == |b.transactions|
  {
    if |a.transactions| == |b.transactions| {
      VerifiedHash(c, a);
      var d := Merkle.HeightExists(|a.transactions|);
      HashBindsBlock(c, a, b, d);
    }
  }

  /** Repeating the last transaction of an odd list gives another block that passes the check
      with the same hash. */
  lemma BlocksAreMalleable(c: Crypto, b: Block)
    requires Verified(c, b) && |b.transactions| % 2 == 1
    ensures Verified(c, b.(transactions := b.transactions + [b.transactions[|b.transactions| - 1]]))
  {
    var n := |b.transactions| - 1;
    LeafHashesJoin(c, b.transactions, [b.transactions[n]]);
    LeafHashAt(c, b.transactions, n);
    Merkle.OddListsAreMalleable(c.pair, LeafHashes(c, b.transactions));
    assert LeafHashes(c, [b.transactions[n]]) == [LeafHashes(c, b.transactions)[n]];
  }

  /** The same goes for the last two transactions of lists that make an odd number of pairs. */
  lemma BlocksAreMalleableByPairs(c: Crypto, b: Block)
    requires Verified(c, b) && |b.transactions| % 4 == 2 && |b.transactions| > 2
    ensures Verified(c, b.(transactions := b.transactions + b.transactions[|b.transactions| - 2..]))
  {
    var n := |b.transactions| - 2;
    var last := b.transactions[n..];
    LeafHashesJoin(c, b.transactions, last);
    LeafHashesJoin(c, b.transactions[..n], last);
    assert b.transactions == b.transactions[..n] + last;
    assert LeafHashes(c, last) == LeafHashes(c, b.transactions)[n..];
    Merkle.OddPairsAreMalleable(c.pair, LeafHashes(c, b.transactions));
  }

  lemma {:induction false} LeafHashAt(c: Crypto, ts: seq<Transaction>, i: nat)
    requires i < |ts|
    ensures LeafHashes(c, ts)[i] == c.txHash(ts[i])
  {
    if i > 0 {
      LeafHashAt(c, ts[1..], i - 1);
    }
  }

  lemma {:induction false} LeafHashesJoin(c: Crypto, a: seq<Transaction>, b: seq<Transaction>)
    ensures LeafHashes(c, a + b) == LeafHashes(c, a) + LeafHashes(c, b)
  {
    if a == [] {
      assert a + b == b;
    } else {
      LeafHashesJoin(c, a[1..], b);
      assert (a + b)[1..] == a[1..] + b;
    }
  }

  /* Mining */

  datatype Mined = Mined(hash: Hash, nonce: nat, timestamp: nat)

  predicate Hits(c: Crypto, previousHash: Hash, ts: seq<Transaction>, nonce: nat, timestamp: nat) {
    var header := NewHeader(c, previousHash, ts, nonce, timestamp);
    header.Ok? && Pow.Solves(c.digest(header.value))
  }

  /** Exactly which nonces hit. */
  lemma HitsExactly(c: Crypto, previousHash: Hash, ts: seq<Transaction>, nonce: nat, timestamp: nat)
    ensures Hits(c, previousHash, ts, nonce, timestamp) <==>
              && ts != []
              && var root := Merkle.Root(c.pair, LeafHashes(c, ts)).value;
                 Pow.LeadingZeroBits(c.digest(Header(previousHash, root, nonce, timestamp))) >= 16
  {
    if ts != [] {
      var root := Merkle.Root(c.pair, LeafHashes(c, ts)).value;
      Pow.SolvesMeansSixteenZeroBits(c.digest(Header(previousHash, root, nonce, timestamp)));
    }
  }

  ghost predicate AllMiss(c: Crypto, previousHash: Hash, ts: seq<Transaction>, nonces: nat, timestamp: nat) {
    forall n: nat :: n < nonces ==> !Hits(c, previousHash, ts, n, timestamp)
  }

  /** No nonce below the bound solves the puzzle at any of the clock readings. */
  ghost predicate NothingHits(c: Crypto, previousHash: Hash, ts: seq<Transaction>, difficulty: nat, clock: seq<nat>) {
    forall i :: 0 <= i < |clock| ==> AllMiss(c, previousHash, ts, difficulty, clock[i])
  }

  lemma FirstHitIsHit(c: Crypto, previousHash: Hash, ts: seq<Transaction>, difficulty: nat, clock: seq<nat>,
                      nonce: nat, timestamp: nat)
    requires IsFirstHit(c, previousHash, ts, difficulty, clock, nonce, timestamp)
    ensures !NothingHits(c, previousHash, ts, difficulty, clock)
  {
  }

  /** The first nonce of the first clock reading that solves the puzzle. */
  ghost predicate IsFirstHit(c: Crypto, previousHash: Hash, ts: seq<Transaction>, difficulty: nat, clock: seq<nat>,
                             nonce: nat, timestamp: nat)
  {
    && nonce < difficulty
    && Hits(c, previousHash, ts, nonce, timestamp)
    && exists i :: 0 <= i < |clock| && clock[i] == timestamp
                   && (forall j :: 0 <= j < i ==> AllMiss(c, previousHash, ts, difficulty, clock[j]))
                   && AllMiss(c, previousHash, ts, nonce, clock[i])
  }

  lemma FirstHitIsUnique(c: Crypto, previousHash: Hash, ts: seq<Transaction>, difficulty: nat, clock: seq<nat>,
                         nonce: nat, timestamp: nat, nonce': nat, timestamp': nat)
    requires IsFirstHit(c, previousHash, ts, difficulty, clock, nonce, timestamp)
    requires IsFirstHit(c, previousHash, ts, difficulty, clock, nonce', timestamp')
    ensures nonce == nonce' && timestamp == timestamp'
  {
    var i :| 0 <= i < |clock| && clock[i] == timestamp
             && (forall j :: 0 <= j < i ==> AllMiss(c, previousHash, ts, difficulty, clock[j]))
             && AllMiss(c, previousHash, ts, nonce, clock[i]);
    var k :| 0 <= k < |clock| && clock[k] == timestamp'
             && (forall j :: 0 <= j < k ==> AllMiss(c, previousHash, ts, difficulty, clock[j]))
             && AllMiss(c, previousHash, ts, nonce', clock[k]);
    assert i <= k && k <= i;
  }

  /** The mining loop under the successive clock readings. It stops at the first nonce of the first
      reading that solves the puzzle; with no solution in any of them it is still mining. */
  method Mine(c: Crypto, ts: seq<Transaction>, difficulty: nat, previousHash: Hash, clock: seq<nat>)
    returns (r: Result<Mined, BlockError>)
    ensures r == Err(EmptyTransactions) <==> ts == [] && clock != [] && difficulty > 0
    ensures r == Err(StillMining) ==> NothingHits(c, previousHash, ts, difficulty, clock)
    ensures r.Ok? ==> IsFirstHit(c, previousHash, ts, difficulty, clock, r.value.nonce, r.value.timestamp)
    ensures r.Ok? ==> var header := NewHeader(c, previousHash, ts, r.value.nonce, r.value.timestamp).value;
                      r.value.hash == Encode(c.digest(header))
  {
    var i := 0;
    while i < |clock|
      invariant 0 <= i <= |clock|
      invariant i > 0 && difficulty > 0 ==> ts != []
      invariant forall j :: 0 <= j < i ==> AllMiss(c, previousHash, ts, difficulty, clock[j])
    {
      var nonce := 0;
      while nonce < difficulty
        invariant 0 <= nonce <= difficulty
        invariant nonce > 0 ==> ts != []
        invariant AllMiss(c, previousHash, ts, nonce, clock[i])
      {
        match NewHeader(c, previousHash, ts, nonce, clock[i]) {
          case Err(e) =>
            return Err(EmptyTransactions);
          case Ok(header) =>
            var digest := c.digest(header);
            if Pow.Solves(digest) {
              return Ok(Mined(Encode(digest), nonce, clock[i]));
            }
        }
        nonce := nonce + 1;
      }
      i := i + 1;
    }
    return Err(StillMining);
  }

  /** A mined block passes the block check, whatever the hash functions are. */
  method NewBlock(c: Crypto, publicKey: string, previousHash: Option<Hash>, ts: seq<Transaction>,
                  difficulty: nat, clock: seq<nat>)
    returns (r: Result<Block, BlockError>)
    ensures ts != [] ==>
              var parent := if previousHash.Some? then previousHash.value else ROOT;
              r == Err(StillMining) <==> NothingHits(c, parent, ts, difficulty, clock)
    ensures ts != [] && r.Err? ==> r.error == StillMining
    ensures r.Ok? ==> Verified(c, r.value)
    ensures r.Ok? ==> r.value.previousHash == (if previousHash.Some? then previousHash.value else ROOT)
    ensures r.Ok? ==> r.value.transactions == ts && r.value.miner == publicKey
    ensures r.Ok? ==> IsFirstHit(c, r.value.previousHash, ts, difficulty, clock, r.value.nonce, r.value.timestamp)
  {
    var parent := if previousHash.Some? then previousHash.value else ROOT;
    var mined := Mine(c, ts, difficulty, parent, clock);
    if mined.Err? {
      assert ts != [] ==> mined.error == StillMining && mined == Err(mined.error);
      return Err(mined.error);
    }
    var root := Merkle.ComputeRoot(c.pair, LeafHashes(c, ts));
    if root.None? {
      return Err(EmptyTransactions);
    }
    FirstHitIsHit(c, parent, ts, difficulty, clock, mined.value.nonce, mined.value.timestamp);
    return Ok(Block(parent, ts, root.value, mined.value.hash, mined.value.nonce, mined.value.timestamp, publicKey));
  }
}
