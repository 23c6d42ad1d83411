/** Accounts and auctions, the execution of transactions and blocks, replay, and nonce accounting. */
module WorldState {
  import opened Blocks
  import opened Hashes
  import opened Wrappers

  const U32: nat := 0x1_0000_0000

  datatype Account = Account(publicKey: string, nonce: nat)

  /** The accounts by public key; the open auctions with the block that holds their creation and
      their stop time. */
  datatype World = World(accounts: map<string, Account>, auctions: map<string, (Hash, nat)>)

  const EMPTY_WORLD: World := World(map[], map[])

  type BlockMap = map<Hash, Block>

  datatype Rejection =
    | BadSignature | SenderMismatch | NonZeroNonce | AccountExists
    | UnknownAccount | InvalidNonce | NotTheCreator

  /** The first transaction of a list that creates the auction. */
  function FindCreation(ts: seq<Transaction>, auctionId: string): (r: Option<Transaction>)
    ensures r.Some? ==> r.value in ts && r.value.record.CreateAuction? && r.value.record.auctionId == auctionId
    ensures r.None? ==> forall t :: t in ts && t.record.CreateAuction? ==> t.record.auctionId != auctionId
  {
    if ts == [] then None
    else if ts[0].record.CreateAuction? && ts[0].record.auctionId == auctionId then Some(ts[0])
    else FindCreation(ts[1..], auctionId)
  }

  function GetAuction(blocks: BlockMap, w: World, auctionId: string): Option<Transaction> {
    if auctionId in w.auctions && w.auctions[auctionId].0 in blocks
    then FindCreation(blocks[w.auctions[auctionId].0].transactions, auctionId)
    else None
  }

  /** Checks and advances the sender's nonce; the counter is a wrapping 32-bit one. */
  function Advance(w: World, t: Transaction): Result<World, Rejection> {
    if t.sender !in w.accounts then Err(UnknownAccount)
    else
      var account := w.accounts[t.sender];
      if t.nonce != account.nonce then Err(InvalidNonce)
      else Ok(w.(accounts := w.accounts[t.sender := account.(nonce := (account.nonce + 1) % U32)]))
  }

  function ApplyTransaction(c: Crypto, blocks: BlockMap, w: World, t: Transaction, blockHash: Hash)
    : Result<World, Rejection>
  {
    if !c.signed(t) then Err(BadSignature)
    else
      match t.record
      case CreateUserAccount(publicKey) =>
        if t.sender != publicKey then Err(SenderMismatch)
        else if t.nonce != 0 then Err(NonZeroNonce)
        else if publicKey in w.accounts then Err(AccountExists)
        else Ok(w.(accounts := w.accounts[publicKey := Account(publicKey, 1)]))
      case Bid(_, _) => Advance(w, t)
      case CreateAuction(auctionId, _, stopTime) =>
        (match Advance(w, t)
         case Err(e) => Err(e)
         case Ok(w') => Ok(w'.(auctions := w'.auctions[auctionId := (blockHash, stopTime)])))
      case StopAuction(auctionId) =>
        var creation := GetAuction(blocks, w, auctionId);
        if creation.Some? && t.timestamp < creation.value.record.stopTime && t.sender != creation.value.sender
        then Err(NotTheCreator)
        else
          match Advance(w, t)
          case Err(e) => Err(e)
          case Ok(w') => Ok(w'.(auctions := w'.auctions - {auctionId}))
  }

  /** A transaction that succeeded, and the block in which it was executed. */
  datatype Success = Success(t: Transaction, block: Hash)

  /** The world so far and the successes, in order. */
  datatype Progress = Progress(world: World, journal: seq<Success>)

  const START: Progress := Progress(EMPTY_WORLD, [])

  /** A rejected transaction changes nothing. */
  function Step(c: Crypto, blocks: BlockMap, p: Progress, t: Transaction, blockHash: Hash): Progress {
    match ApplyTransaction(c, blocks, p.world, t, blockHash)
    case Ok(w) => Progress(w, p.journal + [Success(t, blockHash)])
    case Err(_) => p
  }

  function ExecuteTransactions(c: Crypto, blocks: BlockMap, p: Progress, ts: seq<Transaction>, blockHash: Hash)
    : Progress
  {
    if ts == [] then p
    else Step(c, blocks, ExecuteTransactions(c, blocks, p, ts[..|ts| - 1], blockHash), ts[|ts| - 1], blockHash)
  }

  function ExecuteBlock(c: Crypto, blocks: BlockMap, p: Progress, h: Hash): Progress {
    if h in blocks then ExecuteTransactions(c, blocks, p, blocks[h].transactions, blocks[h].hash) else p
  }

  function Execute(c: Crypto, blocks: BlockMap, p: Progress, hs: seq<Hash>): Progress {
    if hs == [] then p
    else ExecuteBlock(c, blocks, Execute(c, blocks, p, hs[..|hs| - 1]), hs[|hs| - 1])
  }

  /** The world that the listed blocks produce from nothing. */
  function Replay(c: Crypto, blocks: BlockMap, hs: seq<Hash>): Progress {
    Execute(c, blocks, START, hs)
  }

  lemma {:induction false} ExecuteJoins(c: Crypto, blocks: BlockMap, p: Progress, a: seq<Hash>, b: seq<Hash>)
    ensures Execute(c, blocks, Execute(c, blocks, p, a), b) == Execute(c, blocks, p, a + b)
  {
    if b == [] {
      assert a + b == a;
    } else {
      var n := |b| - 1;
      ExecuteJoins(c, blocks, p, a, b[..n]);
      assert (a + b)[..|a + b| - 1] == a + b[..n];
    }
  }

  /* Framing: execution looks only into the blocks it has executed. */

  ghost predicate Agree(bs: BlockMap, bs': BlockMap, hs: set<Hash>) {
    forall h :: h in hs ==> h in bs && h in bs' && bs[h].transactions == bs'[h].transactions
                            && bs[h].hash == h && bs'[h].hash == h
  }

  /** Every open auction points into one of the given blocks. */
  ghost predicate AuctionsWithin(w: World, hs: set<Hash>) {
    forall a :: a in w.auctions ==> w.auctions[a].0 in hs
  }

  lemma StepFrame(c: Crypto, bs: BlockMap, bs': BlockMap, p: Progress, t: Transaction, h: Hash, hs: set<Hash>)
    requires Agree(bs, bs', hs) && h in hs && AuctionsWithin(p.world, hs)
    ensures Step(c, bs, p, t, h) == Step(c, bs', p, t, h)
    ensures AuctionsWithin(Step(c, bs, p, t, h).world, hs)
  {
  }

  lemma {:induction false} TransactionsFrame(c: Crypto, bs: BlockMap, bs': BlockMap, p: Progress,
                                             ts: seq<Transaction>, h: Hash, hs: set<Hash>)
    requires Agree(bs, bs', hs) && h in hs && AuctionsWithin(p.world, hs)
    ensures ExecuteTransactions(c, bs, p, ts, h) == ExecuteTransactions(c, bs', p, ts, h)
    ensures AuctionsWithin(ExecuteTransactions(c, bs, p, ts, h).world, hs)
  {
    if ts != [] {
      var init := ts[..|ts| - 1];
      TransactionsFrame(c, bs, bs', p, init, h, hs);
      StepFrame(c, bs, bs', ExecuteTransactions(c, bs, p, init, h), ts[|ts| - 1], h, hs);
    }
  }

  lemma {:induction false} ExecuteFrame(c: Crypto, bs: BlockMap, bs': BlockMap, p: Progress,
                                        hs: seq<Hash>, seen: set<Hash>)
    requires Agree(bs, bs', seen) && AuctionsWithin(p.world, seen) && forall h :: h in hs ==> h in seen
    ensures Execute(c, bs, p, hs) == Execute(c, bs', p, hs)
    ensures AuctionsWithin(Execute(c, bs, p, hs).world, seen)
  {
    if hs != [] {
      var n := |hs| - 1;
      ExecuteFrame(c, bs, bs', p, hs[..n], seen);
      TransactionsFrame(c, bs, bs', Execute(c, bs, p, hs[..n]), bs[hs[n]].transactions, hs[n], seen);
    }
  }

  /** Two nodes that hold the same transactions for the listed blocks replay them alike. */
  lemma ReplayFrame(c: Crypto, bs: BlockMap, bs': BlockMap, hs: seq<Hash>)
    requires Agree(bs, bs', set h | h in hs)
    ensures Replay(c, bs, hs) == Replay(c, bs', hs)
  {
    ExecuteFrame(c, bs, bs', START, hs, set h | h in hs);
  }

  /* Nonce accounting */

  /** The successful transactions of one sender, in order. */
  function SuccessesOf(journal: seq<Success>, sender: string): seq<Transaction> {
    if journal == [] then []
    else
      var t := journal[|journal| - 1].t;
      SuccessesOf(journal[..|journal| - 1], sender) + (if t.sender == sender then [t] else [])
  }

  /** One account is created by its sender's first success and by no later one; the i-th success
      carries nonce i, and the stored nonce is the number of successes, both modulo 2^32. */
  ghost predicate NonceLawFor(p: Progress, a: string) {
    var ts := SuccessesOf(p.journal, a);
    && (a in p.world.accounts <==> ts != [])
    && (a in p.world.accounts ==> p.world.accounts[a] == Account(a, |ts| % U32))
    && (forall i :: 0 <= i < |ts| ==> ts[i].nonce == i % U32 && (ts[i].record.CreateUserAccount? <==> i == 0))
  }

  ghost predicate NonceLaw(p: Progress) {
    forall a :: NonceLawFor(p, a)
  }

  lemma SuccessesGrow(journal: seq<Success>, e: Success, a: string)
    ensures SuccessesOf(journal + [e], a) == SuccessesOf(journal, a) + (if e.t.sender == a then [e.t] else [])
  {
    assert (journal + [e])[..|journal|] == journal;
  }

  lemma StepKeepsNonceLaw(c: Crypto, blocks: BlockMap, p: Progress, t: Transaction, h: Hash)
    requires NonceLaw(p)
    ensures NonceLaw(Step(c, blocks, p, t, h))
  {
    var p' := Step(c, blocks, p, t, h);
    if ApplyTransaction(c, blocks, p.world, t, h).Ok? {
      forall a ensures NonceLawFor(p', a) {
        assert NonceLawFor(p, a) && NonceLawFor(p, t.sender);
        SuccessesGrow(p.journal, Success(t, h), a);
        SuccessChangesSender(c, blocks, p.world, t, h);
        if t.sender == a {
          SenderKeepsNonceLaw(p, p', t);
        }
      }
    }
  }

  /** What a success does to the accounts. */
  lemma SuccessChangesSender(c: Crypto, blocks: BlockMap, w: World, t: Transaction, h: Hash)
    requires ApplyTransaction(c, blocks, w, t, h).Ok?
    ensures var w' := ApplyTransaction(c, blocks, w, t, h).value;
            && (t.record.CreateUserAccount? <==> t.sender !in w.accounts)
            && (t.sender in w.accounts ==> w.accounts[t.sender].nonce == t.nonce)
            && (t.sender !in w.accounts ==> t.nonce == 0)
            && w'.accounts == w.accounts[t.sender :=
                 if t.sender in w.accounts then w.accounts[t.sender].(nonce := (t.nonce + 1) % U32)
                 else Account(t.sender, 1)]
  {
  }

  lemma SenderKeepsNonceLaw(p: Progress, p': Progress, t: Transaction)
    requires NonceLawFor(p, t.sender)
    requires SuccessesOf(p'.journal, t.sender) == SuccessesOf(p.journal, t.sender) + [t]
    requires t.record.CreateUserAccount? <==> t.sender !in p.world.accounts
    requires t.nonce == if t.sender in p.world.accounts then p.world.accounts[t.sender].nonce else 0
    requires t.sender in p'.world.accounts
    requires p'.world.accounts[t.sender] == Account(t.sender, (t.nonce + 1) % U32)
    ensures NonceLawFor(p', t.sender)
  {
    var ts := SuccessesOf(p.journal, t.sender);
    CounterWraps(|ts|);
    assert t.nonce == |ts| % U32;
    forall i | 0 <= i < |ts + [t]|
      ensures (ts + [t])[i].nonce == i % U32 && ((ts + [t])[i].record.CreateUserAccount? <==> i == 0)
    {
      assert i < |ts| ==> (ts + [t])[i] == ts[i];
    }
  }

  lemma CounterWraps(n: nat)
    ensures (n % U32 + 1) % U32 == (n + 1) % U32 && 0 % U32 == 0
  {
  }

  lemma {:induction false} SuccessPosition(journal: seq<Success>, i: nat)
    requires i < |journal|
    ensures |SuccessesOf(journal[..i], journal[i].t.sender)| < |SuccessesOf(journal, journal[i].t.sender)|
    ensures SuccessesOf(journal, journal[i].t.sender)[|SuccessesOf(journal[..i], journal[i].t.sender)|] == journal[i].t
    ensures SuccessesOf(journal[..i + 1], journal[i].t.sender) <= SuccessesOf(journal, journal[i].t.sender)
    ensures |SuccessesOf(journal[..i + 1], journal[i].t.sender)| == |SuccessesOf(journal[..i], journal[i].t.sender)| + 1
    decreases |journal|
  {
    var n := |journal| - 1;
    assert journal[..n + 1] == journal;
    if i < n {
      SuccessPosition(journal[..n], i);
      assert journal[..n][..i] == journal[..i] && journal[..n][..i + 1] == journal[..i + 1];
    }
  }

  lemma {:induction false} SuccessesMonotone(journal: seq<Success>, i: nat, j: nat, a: string)
    requires i <= j <= |journal|
    ensures |SuccessesOf(journal[..i], a)| <= |SuccessesOf(journal[..j], a)|
  {
    if i < j {
      SuccessesMonotone(journal, i, j - 1, a);
      assert journal[..j][..j - 1] == journal[..j - 1];
    }
  }

  /** Two successes of one sender share a nonce only when at least 2^32 of its successes lie from
      the first up to the second: until the counter wraps, no (sender, nonce) pair executes twice. */
  lemma NoReplay(p: Progress, i: nat, j: nat)
    requires NonceLaw(p) && i < j < |p.journal|
    requires p.journal[i].t.sender == p.journal[j].t.sender && p.journal[i].t.nonce == p.journal[j].t.nonce
    ensures |SuccessesOf(p.journal, p.journal[i].t.sender)| > U32
  {
    var a := p.journal[i].t.sender;
    assert NonceLawFor(p, a);
    SuccessPosition(p.journal, i);
    SuccessPosition(p.journal, j);
    SuccessesMonotone(p.journal, i + 1, j, a);
    var x, y := |SuccessesOf(p.journal[..i], a)|, |SuccessesOf(p.journal[..j], a)|;
    assert x < y && x % U32 == y % U32;
  }

  /* Auctions */

  /** The last success that opened or stopped the auction. */
  function LastEvent(journal: seq<Success>, id: string): (r: Option<Success>)
    ensures r.Some? ==> r.value in journal && IsEventOf(r.value.t, id)
    ensures r.None? ==> forall e :: e in journal ==> !IsEventOf(e.t, id)
  {
    if journal == [] then None
    else if IsEventOf(journal[|journal| - 1].t, id) then Some(journal[|journal| - 1])
    else LastEvent(journal[..|journal| - 1], id)
  }

  predicate IsEventOf(t: Transaction, id: string) {
    (t.record.CreateAuction? || t.record.StopAuction?) && t.record.auctionId == id
  }

  /** An auction is open exactly if its last successful event opened it; on record are the block in which
      this happened and the stop time. */
  ghost predicate AuctionLawFor(p: Progress, id: string) {
    var last := LastEvent(p.journal, id);
    && (id in p.world.auctions <==> last.Some? && last.value.t.record.CreateAuction?)
    && (id in p.world.auctions ==> p.world.auctions[id] == (last.value.block, last.value.t.record.stopTime))
  }

  ghost predicate AuctionLaw(p: Progress) {
    forall id :: AuctionLawFor(p, id)
  }

  lemma EventsGrow(journal: seq<Success>, e: Success, id: string)
    ensures LastEvent(journal + [e], id) == if IsEventOf(e.t, id) then Some(e) else LastEvent(journal, id)
  {
    assert (journal + [e])[..|journal|] == journal;
  }

  lemma StepKeepsAuctionLaw(c: Crypto, blocks: BlockMap, p: Progress, t: Transaction, h: Hash)
    requires AuctionLaw(p)
    ensures AuctionLaw(Step(c, blocks, p, t, h))
  {
    var p' := Step(c, blocks, p, t, h);
    if ApplyTransaction(c, blocks, p.world, t, h).Ok? {
      forall id ensures AuctionLawFor(p', id) {
        assert AuctionLawFor(p, id);
        EventsGrow(p.journal, Success(t, h), id);
      }
    }
  }

  /** Both accountings hold, and every success was signed. */
  ghost predicate Lawful(c: Crypto, p: Progress) {
    NonceLaw(p) && AuctionLaw(p) && forall e :: e in p.journal ==> c.signed(e.t)
  }

  lemma StepKeepsLaws(c: Crypto, blocks: BlockMap, p: Progress, t: Transaction, h: Hash)
    requires Lawful(c, p)
    ensures Lawful(c, Step(c, blocks, p, t, h))
  {
    StepKeepsNonceLaw(c, blocks, p, t, h);
    StepKeepsAuctionLaw(c, blocks, p, t, h);
  }

  lemma {:induction false} TransactionsKeepLaws(c: Crypto, blocks: BlockMap, p: Progress, ts: seq<Transaction>, h: Hash)
    requires Lawful(c, p)
    ensures Lawful(c, ExecuteTransactions(c, blocks, p, ts, h))
  {
    if ts != [] {
      var init := ts[..|ts| - 1];
      TransactionsKeepLaws(c, blocks, p, init, h);
      StepKeepsLaws(c, blocks, ExecuteTransactions(c, blocks, p, init, h), ts[|ts| - 1], h);
    }
  }

  lemma {:induction false} ExecuteKeepsLaws(c: Crypto, blocks: BlockMap, p: Progress, hs: seq<Hash>)
    requires Lawful(c, p)
    ensures Lawful(c, Execute(c, blocks, p, hs))
  {
    if hs != [] {
      var n := |hs| - 1;
      ExecuteKeepsLaws(c, blocks, p, hs[..n]);
      if hs[n] in blocks {
        TransactionsKeepLaws(c, blocks, Execute(c, blocks, p, hs[..n]), blocks[hs[n]].transactions, blocks[hs[n]].hash);
      }
    }
  }

  /* Where successes come from */

  /** Every success stems from the block that it is attributed to. */
  ghost predicate IsTraced(blocks: BlockMap, p: Progress) {
    forall e :: e in p.journal ==> e.block in blocks && e.t in blocks[e.block].transactions
  }

  /** `all` may hold more than the blocks that execution can look into. */
  lemma {:induction false} TransactionsAreTraced(c: Crypto, blocks: BlockMap, all: BlockMap, p: Progress,
                                                 ts: seq<Transaction>, h: Hash)
    requires IsTraced(all, p) && h in all && ts <= all[h].transactions
    ensures IsTraced(all, ExecuteTransactions(c, blocks, p, ts, h))
  {
    if ts != [] {
      var n := |ts| - 1;
      TransactionsAreTraced(c, blocks, all, p, ts[..n], h);
      assert ts[n] == all[h].transactions[n];
    }
  }

  lemma {:induction false} ExecutionIsTraced(c: Crypto, blocks: BlockMap, all: BlockMap, p: Progress, hs: seq<Hash>)
    requires IsTraced(all, p)
    requires forall h :: h in hs && h in blocks ==> blocks[h].hash == h && h in all && all[h] == blocks[h]
    ensures IsTraced(all, Execute(c, blocks, p, hs))
  {
    if hs != [] {
      var n := |hs| - 1;
      ExecutionIsTraced(c, blocks, all, p, hs[..n]);
      if hs[n] in blocks {
        var before := Execute(c, blocks, p, hs[..n]);
        TransactionsAreTraced(c, blocks, all, before, blocks[hs[n]].transactions, hs[n]);
      }
    }
  }

  /* Who may stop an auction */

  /** The check of a stop against the first record that creates its auction in a block. */
  predicate MayStop(ts: seq<Transaction>, t: Transaction)
    requires t.record.StopAuction?
  {
    var first := FindCreation(ts, t.record.auctionId);
    first.Some? && (first.value.record.stopTime <= t.timestamp || first.value.sender == t.sender)
  }

  /** The creation that the i-th success, a stop, puts an end to. */
  function OpenedBefore(journal: seq<Success>, i: nat): Option<Success>
    requires i < |journal| && journal[i].t.record.StopAuction?
  {
    var last := LastEvent(journal[..i], journal[i].t.record.auctionId);
    if last.Some? && last.value.t.record.CreateAuction? then last else None
  }

  /** If the i-th success stopped an open auction, it passed the check against the block in which that
      auction was created. */
  ghost predicate IsRightful(blocks: BlockMap, journal: seq<Success>, i: nat)
    requires i < |journal|
  {
    journal[i].t.record.StopAuction? && OpenedBefore(journal, i).Some? ==>
      var created := OpenedBefore(journal, i).value.block;
      created in blocks && MayStop(blocks[created].transactions, journal[i].t)
  }

  ghost predicate AllRightful(blocks: BlockMap, journal: seq<Success>) {
    forall i :: 0 <= i < |journal| ==> IsRightful(blocks, journal, i)
  }

  /** Everything that was executed can be traced to the blocks at hand. */
  ghost predicate Traceable(c: Crypto, blocks: BlockMap, p: Progress) {
    Lawful(c, p) && IsTraced(blocks, p) && AllRightful(blocks, p.journal)
  }

  /** What a lookup of an open auction meets: the first record of it in the block that created it. */
  lemma LookupFinds(c: Crypto, blocks: BlockMap, p: Progress, id: string)
    requires Traceable(c, blocks, p) && id in p.world.auctions
    ensures var last := LastEvent(p.journal, id);
            && last.Some? && last.value.t.record.CreateAuction? && last.value.block in blocks
            && last.value.t in blocks[last.value.block].transactions
            && GetAuction(blocks, p.world, id).Some?
            && GetAuction(blocks, p.world, id) == FindCreation(blocks[last.value.block].transactions, id)
  {
    assert AuctionLawFor(p, id);
  }

  /** Exactly which stops of an open auction succeed. */
  lemma StopSucceedsExactly(c: Crypto, blocks: BlockMap, p: Progress, t: Transaction, h: Hash)
    requires Traceable(c, blocks, p) && t.record.StopAuction? && t.record.auctionId in p.world.auctions
    ensures LastEvent(p.journal, t.record.auctionId).Some?
    ensures var created := LastEvent(p.journal, t.record.auctionId).value.block;
            && created in blocks
            && (ApplyTransaction(c, blocks, p.world, t, h).Ok? <==>
                  && c.signed(t)
                  && t.sender in p.world.accounts && p.world.accounts[t.sender].nonce == t.nonce
                  && MayStop(blocks[created].transactions, t))
  {
    LookupFinds(c, blocks, p, t.record.auctionId);
  }

  lemma SuccessIsRightful(c: Crypto, blocks: BlockMap, p: Progress, t: Transaction, h: Hash)
    requires Traceable(c, blocks, p) && ApplyTransaction(c, blocks, p.world, t, h).Ok?
    ensures IsRightful(blocks, p.journal + [Success(t, h)], |p.journal|)
  {
    var n := |p.journal|;
    assert (p.journal + [Success(t, h)])[..n] == p.journal;
    if t.record.StopAuction? {
      assert AuctionLawFor(p, t.record.auctionId);
      if t.record.auctionId in p.world.auctions {
        StopSucceedsExactly(c, blocks, p, t, h);
      }
    }
  }

  lemma RightfulStays(blocks: BlockMap, journal: seq<Success>, e: Success, i: nat)
    requires i < |journal| && IsRightful(blocks, journal, i)
    ensures IsRightful(blocks, journal + [e], i)
  {
    assert (journal + [e])[..i] == journal[..i];
  }

  lemma StepKeepsTraceable(c: Crypto, blocks: BlockMap, p: Progress, t: Transaction, h: Hash)
    requires Traceable(c, blocks, p) && h in blocks && t in blocks[h].transactions
    ensures Traceable(c, blocks, Step(c, blocks, p, t, h))
  {
    StepKeepsLaws(c, blocks, p, t, h);
    if ApplyTransaction(c, blocks, p.world, t, h).Ok? {
      SuccessIsRightful(c, blocks, p, t, h);
      forall i | 0 <= i < |p.journal| ensures IsRightful(blocks, p.journal + [Success(t, h)], i) {
        RightfulStays(blocks, p.journal, Success(t, h), i);
      }
    }
  }

  lemma {:induction false} TransactionsKeepTraceable(c: Crypto, blocks: BlockMap, p: Progress,
                                                     ts: seq<Transaction>, h: Hash)
    requires Traceable(c, blocks, p) && h in blocks && ts <= blocks[h].transactions
    ensures Traceable(c, blocks, ExecuteTransactions(c, blocks, p, ts, h))
  {
    if ts != [] {
      var init := ts[..|ts| - 1];
      TransactionsKeepTraceable(c, blocks, p, init, h);
      assert ts[|ts| - 1] == blocks[h].transactions[|ts| - 1];
      StepKeepsTraceable(c, blocks, ExecuteTransactions(c, blocks, p, init, h), ts[|ts| - 1], h);
    }
  }

  lemma StartIsLawful(c: Crypto)
    ensures Lawful(c, START)
  {
    forall a ensures NonceLawFor(START, a) && AuctionLawFor(START, a) {
    }
  }

  /** After a replay every success stems from the block that it is attributed to, every open auction is
      found there, and every stop passed the check against the block that created its auction. */
  lemma {:induction false} ReplayIsTraceable(c: Crypto, blocks: BlockMap, hs: seq<Hash>)
    requires forall h :: h in hs ==> h in blocks && blocks[h].hash == h
    ensures Traceable(c, blocks, Replay(c, blocks, hs))
  {
    if hs == [] {
      StartIsLawful(c);
    } else {
      var n := |hs| - 1;
      ReplayIsTraceable(c, blocks, hs[..n]);
      TransactionsKeepTraceable(c, blocks, Replay(c, blocks, hs[..n]), blocks[hs[n]].transactions, hs[n]);
    }
  }

  /* When only its creator can stop an auction early */

  /** The first record of the auction in the block that created it lets no other account holder stop it
      earlier than its creation says. */
  ghost predicate CreatorRules(accounts: map<string, Account>, ts: seq<Transaction>, creation: Transaction)
    requires creation.record.CreateAuction?
  {
    var first := FindCreation(ts, creation.record.auctionId);
    first.Some? ==>
      forall a :: a in accounts && a != creation.sender ==>
        && creation.record.stopTime <= first.value.record.stopTime
        && (a == first.value.sender ==> creation.record.stopTime == 0)
  }

  ghost predicate IsEarlyStopByOther(creation: Transaction, t: Transaction)
    requires creation.record.CreateAuction?
  {
    && t.record == StopAuction(creation.record.auctionId)
    && t.timestamp < creation.record.stopTime
    && t.sender != creation.sender
  }

  ghost predicate NoEarlyStopByOther(c: Crypto, blocks: BlockMap, w: World, creation: Transaction, h: Hash)
    requires creation.record.CreateAuction?
  {
    forall t :: IsEarlyStopByOther(creation, t) ==> ApplyTransaction(c, blocks, w, t, h).Err?
  }

  predicate IsSignedStop(c: Crypto, w: World, id: string, a: string, time: nat, t: Transaction) {
    && t.record == StopAuction(id) && t.timestamp == time && t.sender == a && c.signed(t)
    && a in w.accounts && t.nonce == w.accounts[a].nonce
  }

  ghost predicate HasSignedStop(c: Crypto, w: World, id: string, a: string, time: nat) {
    exists t: Transaction :: IsSignedStop(c, w, id, a, time, t)
  }

  /** Account holders can sign stops with any timestamp. */
  ghost predicate HoldersCanSign(c: Crypto, w: World, id: string) {
    forall a, time: nat :: a in w.accounts ==> HasSignedStop(c, w, id, a, time)
  }

  /** The check lets a stop by another pass early exactly for these accounts. */
  lemma RuledStopIsNotEarly(accounts: map<string, Account>, ts: seq<Transaction>, creation: Transaction, t: Transaction)
    requires creation.record.CreateAuction? && IsEarlyStopByOther(creation, t) && t.sender in accounts
    requires CreatorRules(accounts, ts, creation)
    ensures !MayStop(ts, t)
  {
  }

  /** Exactly when no early stop by another than the creator of an open auction can succeed. */
  lemma OnlyCreatorStopsEarlyExactly(c: Crypto, blocks: BlockMap, p: Progress, id: string, h: Hash)
    requires Traceable(c, blocks, p) && id in p.world.auctions && HoldersCanSign(c, p.world, id)
    ensures var last := LastEvent(p.journal, id);
            && last.Some? && last.value.t.record.CreateAuction? && last.value.block in blocks
            && (NoEarlyStopByOther(c, blocks, p.world, last.value.t, h) <==>
                  CreatorRules(p.world.accounts, blocks[last.value.block].transactions, last.value.t))
  {
    LookupFinds(c, blocks, p, id);
    var last := LastEvent(p.journal, id).value;
    var ts := blocks[last.block].transactions;
    if CreatorRules(p.world.accounts, ts, last.t) {
      forall t | IsEarlyStopByOther(last.t, t) ensures ApplyTransaction(c, blocks, p.world, t, h).Err? {
        StopSucceedsExactly(c, blocks, p, t, h);
        if t.sender in p.world.accounts {
          RuledStopIsNotEarly(p.world.accounts, ts, last.t, t);
        }
      }
    } else {
      var t := EarlyStop(c, blocks, p, id, last);
      StopSucceedsExactly(c, blocks, p, t, h);
    }
  }

  lemma EarlyStop(c: Crypto, blocks: BlockMap, p: Progress, id: string, last: Success) returns (t: Transaction)
    requires HoldersCanSign(c, p.world, id) && last.t.record.CreateAuction? && last.t.record.auctionId == id
    requires last.block in blocks && !CreatorRules(p.world.accounts, blocks[last.block].transactions, last.t)
    ensures IsEarlyStopByOther(last.t, t) && MayStop(blocks[last.block].transactions, t)
    ensures c.signed(t) && t.sender in p.world.accounts && p.world.accounts[t.sender].nonce == t.nonce
  {
    var first := FindCreation(blocks[last.block].transactions, id).value;
    var a :| a in p.world.accounts && a != last.t.sender
             && (first.record.stopTime < last.t.record.stopTime
                 || (a == first.sender && last.t.record.stopTime > 0));
    var time := if first.record.stopTime < last.t.record.stopTime then first.record.stopTime else 0;
    assert HasSignedStop(c, p.world, id, a, time);
    t :| IsSignedStop(c, p.world, id, a, time, t);
  }

  predicate CreatesSame(t: Transaction, u: Transaction) {
    t.record.CreateAuction? && u.record.CreateAuction? && t.record.auctionId == u.record.auctionId
  }

  /** No two different records of the list create the same auction. */
  ghost predicate HasUniqueIds(ts: seq<Transaction>) {
    forall t, u :: t in ts && u in ts && CreatesSame(t, u) ==> t == u
  }

  /** A block that creates no auction twice leaves its auctions to their creators. */
  lemma UniqueIdsSuffice(accounts: map<string, Account>, ts: seq<Transaction>, creation: Transaction)
    requires creation.record.CreateAuction? && creation in ts && HasUniqueIds(ts)
    ensures CreatorRules(accounts, ts, creation)
  {
    var first := FindCreation(ts, creation.record.auctionId);
    assert first.Some? && CreatesSame(first.value, creation);
  }

  /* Exactly which transactions succeed, and with what effect */

  /** The sender has an account, and it is the transaction's turn. */
  predicate HasTurn(w: World, t: Transaction) {
    t.sender in w.accounts && w.accounts[t.sender].nonce == t.nonce
  }

  /** The creation record by which a stop is judged: the first one in the block on record, if that is held. */
  ghost predicate IsJudgedBy(blocks: BlockMap, w: World, id: string, creation: Transaction) {
    id in w.auctions && w.auctions[id].0 in blocks &&
    exists i: nat :: IsFirstCreation(blocks[w.auctions[id].0].transactions, id, i)
                && blocks[w.auctions[id].0].transactions[i] == creation
  }

  ghost predicate IsFirstCreation(ts: seq<Transaction>, id: string, i: nat) {
    && i < |ts|
    && ts[i].record.CreateAuction? && ts[i].record.auctionId == id
    && forall j :: 0 <= j < i && ts[j].record.CreateAuction? ==> ts[j].record.auctionId != id
  }

  lemma {:induction false} FirstCreationIsFound(ts: seq<Transaction>, id: string, i: nat)
    requires IsFirstCreation(ts, id, i)
    ensures FindCreation(ts, id) == Some(ts[i])
  {
    if i > 0 {
      FirstCreationIsFound(ts[1..], id, i - 1);
    }
  }

  lemma {:induction false} FoundIsFirstCreation(ts: seq<Transaction>, id: string) returns (i: nat)
    requires FindCreation(ts, id).Some?
    ensures IsFirstCreation(ts, id, i) && FindCreation(ts, id) == Some(ts[i])
  {
    if ts[0].record.CreateAuction? && ts[0].record.auctionId == id {
      i := 0;
    } else {
      i := FoundIsFirstCreation(ts[1..], id);
      i := i + 1;
    }
  }

  lemma LookupExactly(blocks: BlockMap, w: World, id: string, creation: Transaction)
    ensures GetAuction(blocks, w, id) == Some(creation) <==> IsJudgedBy(blocks, w, id, creation)
  {
    if GetAuction(blocks, w, id) == Some(creation) {
      var i := FoundIsFirstCreation(blocks[w.auctions[id].0].transactions, id);
    }
    if IsJudgedBy(blocks, w, id, creation) {
      var ts := blocks[w.auctions[id].0].transactions;
      var i: nat :| IsFirstCreation(ts, id, i) && ts[i] == creation;
      FirstCreationIsFound(ts, id, i);
    }
  }

  /** Whether the stop comes from the creator, or late enough, by the record that it is judged by. */
  ghost predicate IsStopAllowed(blocks: BlockMap, w: World, id: string, t: Transaction) {
    forall creation :: IsJudgedBy(blocks, w, id, creation) ==>
      creation.record.CreateAuction?
      && (creation.record.stopTime <= t.timestamp || creation.sender == t.sender)
  }

  /** Exactly which transactions succeed. In particular neither bids nor creations depend on any auction,
      and a stop of an auction that is not open needs no more than its turn. */
  lemma SucceedsExactly(c: Crypto, blocks: BlockMap, w: World, t: Transaction, h: Hash)
    ensures t.record.CreateUserAccount? ==>
              (ApplyTransaction(c, blocks, w, t, h).Ok? <==>
                 c.signed(t) && t.sender == t.record.publicKey && t.nonce == 0 && t.sender !in w.accounts)
    ensures t.record.Bid? || t.record.CreateAuction? ==>
              (ApplyTransaction(c, blocks, w, t, h).Ok? <==> c.signed(t) && HasTurn(w, t))
    ensures t.record.StopAuction? ==>
              (ApplyTransaction(c, blocks, w, t, h).Ok? <==>
                 c.signed(t) && HasTurn(w, t) && IsStopAllowed(blocks, w, t.record.auctionId, t))
  {
    if t.record.StopAuction? {
      StopAllowedExactly(blocks, w, t);
    }
  }

  /** Exactly when each rejection comes out. */
  lemma RejectedExactly(c: Crypto, blocks: BlockMap, w: World, t: Transaction, h: Hash)
    ensures var r, creates := ApplyTransaction(c, blocks, w, t, h), t.record.CreateUserAccount?;
            var mine := creates && t.sender == t.record.publicKey;
            var other := !creates && (t.record.StopAuction? ==> IsStopAllowed(blocks, w, t.record.auctionId, t));
            && (r == Err(BadSignature) <==> !c.signed(t))
            && (r == Err(SenderMismatch) <==> c.signed(t) && creates && !mine)
            && (r == Err(NonZeroNonce) <==> c.signed(t) && mine && t.nonce != 0)
            && (r == Err(AccountExists) <==> c.signed(t) && mine && t.nonce == 0 && t.sender in w.accounts)
            && (r == Err(NotTheCreator) <==> c.signed(t) && !creates && !other)
            && (r == Err(UnknownAccount) <==> c.signed(t) && other && t.sender !in w.accounts)
            && (r == Err(InvalidNonce) <==>
                  c.signed(t) && other && t.sender in w.accounts && w.accounts[t.sender].nonce != t.nonce)
  {
    if t.record.StopAuction? {
      StopAllowedExactly(blocks, w, t);
    }
  }

  lemma StopAllowedExactly(blocks: BlockMap, w: World, t: Transaction)
    requires t.record.StopAuction?
    ensures var found := GetAuction(blocks, w, t.record.auctionId);
            IsStopAllowed(blocks, w, t.record.auctionId, t) <==>
              (found.Some? ==> found.value.record.stopTime <= t.timestamp || found.value.sender == t.sender)
  {
    var id := t.record.auctionId;
    forall creation ensures GetAuction(blocks, w, id) == Some(creation) <==> IsJudgedBy(blocks, w, id, creation) {
      LookupExactly(blocks, w, id, creation);
    }
    if GetAuction(blocks, w, id).Some? {
      assert IsJudgedBy(blocks, w, id, GetAuction(blocks, w, id).value);
    }
  }

  /** What a success does to the world. */
  lemma SuccessChanges(c: Crypto, blocks: BlockMap, w: World, t: Transaction, h: Hash)
    requires ApplyTransaction(c, blocks, w, t, h).Ok?
    ensures ApplyTransaction(c, blocks, w, t, h).value.accounts ==
              var key := if t.sender in w.accounts then w.accounts[t.sender].publicKey else t.sender;
              w.accounts[t.sender := Account(key, (t.nonce + 1) % U32)]
    ensures ApplyTransaction(c, blocks, w, t, h).value.auctions ==
              match t.record
              case CreateAuction(id, _, stopTime) => w.auctions[id := (h, stopTime)]
              case StopAuction(id) => w.auctions - {id}
              case _ => w.auctions
  {
  }

  /* Execution, transaction by transaction */

  function Attributed(ts: seq<Transaction>, h: Hash): (es: seq<Success>)
    ensures |es| == |ts| && forall i :: 0 <= i < |ts| ==> es[i] == Success(ts[i], h)
  {
    if ts == [] then [] else Attributed(ts[..|ts| - 1], h) + [Success(ts[|ts| - 1], h)]
  }

  /** `todo` lists the transactions of the blocks in order, those of the k-th block from place ends[k] on. */
  ghost predicate IsListing(blocks: BlockMap, hs: seq<Hash>, todo: seq<Success>, ends: seq<nat>) {
    && |ends| == |hs| + 1 && ends[0] == 0 && ends[|hs|] == |todo|
    && forall k :: 0 <= k < |hs| ==> IsListedAt(blocks, hs[k], todo, ends[k], ends[k + 1])
  }

  ghost predicate IsListedAt(blocks: BlockMap, h: Hash, todo: seq<Success>, from: nat, end: nat) {
    && h in blocks && from + |blocks[h].transactions| == end <= |todo|
    && forall i :: 0 <= i < |blocks[h].transactions| ==> todo[from + i] == Success(blocks[h].transactions[i], h)
  }

  /** One world leads to the next: by the transaction if it succeeds, and else unchanged. */
  ghost predicate LeadsTo(c: Crypto, blocks: BlockMap, w: World, e: Success, w': World) {
    match ApplyTransaction(c, blocks, w, e.t, e.block)
    case Ok(next) => w' == next
    case Err(_) => w' == w
  }

  /** The worlds before, between and after the listed transactions, from the empty one on. */
  ghost predicate IsPassage(c: Crypto, blocks: BlockMap, todo: seq<Success>, worlds: seq<World>) {
    && |worlds| == |todo| + 1 && worlds[0] == EMPTY_WORLD
    && forall k :: 0 <= k < |todo| ==> LeadsTo(c, blocks, worlds[k], todo[k], worlds[k + 1])
  }

  /** Places below n in ascending order. */
  ghost predicate IsAscending(places: seq<nat>, n: nat) {
    && (forall j :: 0 <= j < |places| ==> places[j] < n)
    && (forall i, j :: 0 <= i < j < |places| ==> places[i] < places[j])
  }

  /** Such worlds, and the places of those transactions that succeed: of all these, in order. */
  ghost predicate IsExecution(c: Crypto, blocks: BlockMap, todo: seq<Success>, worlds: seq<World>, places: seq<nat>) {
    && IsPassage(c, blocks, todo, worlds)
    && IsAscending(places, |todo|)
    && forall k :: 0 <= k < |todo| ==> (k in places <==> IsSuccess(c, blocks, worlds[k], todo[k]))
  }

  ghost predicate IsSuccess(c: Crypto, blocks: BlockMap, w: World, e: Success) {
    ApplyTransaction(c, blocks, w, e.t, e.block).Ok?
  }

  /** The progress is what the execution arrives at, with just its successes in the journal. */
  ghost predicate ArrivesAt(todo: seq<Success>, worlds: seq<World>, places: seq<nat>, p: Progress) {
    && |worlds| > 0 && worlds[|worlds| - 1] == p.world && |p.journal| == |places|
    && forall j :: 0 <= j < |places| ==> places[j] < |todo| && p.journal[j] == todo[places[j]]
  }

  lemma PassageGrows(c: Crypto, blocks: BlockMap, todo: seq<Success>, worlds: seq<World>, e: Success, w: World)
    requires IsPassage(c, blocks, todo, worlds) && LeadsTo(c, blocks, worlds[|todo|], e, w)
    ensures IsPassage(c, blocks, todo + [e], worlds + [w])
  {
    var todo', worlds' := todo + [e], worlds + [w];
    forall k | 0 <= k < |todo'| ensures LeadsTo(c, blocks, worlds'[k], todo'[k], worlds'[k + 1]) {
      if k < |todo| {
        assert LeadsTo(c, blocks, worlds[k], todo[k], worlds[k + 1]);
      }
    }
  }

  lemma PlacesGrow(places: seq<nat>, n: nat, more: bool) returns (places': seq<nat>)
    requires IsAscending(places, n)
    ensures places' == (if more then places + [n] else places) && IsAscending(places', n + 1)
    ensures (n in places' <==> more) && forall k :: 0 <= k < n ==> (k in places' <==> k in places)
  {
    places' := if more then places + [n] else places;
    assert n !in places;
  }

  lemma OneMoreStep(c: Crypto, blocks: BlockMap, todo: seq<Success>, worlds: seq<World>, places: seq<nat>,
                    p: Progress, e: Success)
    returns (worlds': seq<World>, places': seq<nat>)
    requires IsExecution(c, blocks, todo, worlds, places) && ArrivesAt(todo, worlds, places, p)
    ensures IsExecution(c, blocks, todo + [e], worlds', places')
    ensures ArrivesAt(todo + [e], worlds', places', Step(c, blocks, p, e.t, e.block))
  {
    var w := Step(c, blocks, p, e.t, e.block).world;
    worlds' := worlds + [w];
    places' := PlacesGrow(places, |todo|, IsSuccess(c, blocks, p.world, e));
    PassageGrows(c, blocks, todo, worlds, e, w);
    forall k | 0 <= k < |todo + [e]| ensures k in places' <==> IsSuccess(c, blocks, worlds'[k], (todo + [e])[k]) {
      if k < |todo| {
        assert worlds'[k] == worlds[k] && (todo + [e])[k] == todo[k];
      }
    }
    JournalGrowsWith(todo, e, places, places', p, Step(c, blocks, p, e.t, e.block), IsSuccess(c, blocks, p.world, e));
  }

  lemma JournalGrowsWith(todo: seq<Success>, e: Success, places: seq<nat>, places': seq<nat>,
                         p: Progress, p': Progress, more: bool)
    requires |p.journal| == |places|
    requires forall j :: 0 <= j < |places| ==> places[j] < |todo| && p.journal[j] == todo[places[j]]
    requires places' == if more then places + [|todo|] else places
    requires p'.journal == if more then p.journal + [e] else p.journal
    ensures |p'.journal| == |places'|
    ensures forall j :: 0 <= j < |places'| ==>
              places'[j] < |todo + [e]| && p'.journal[j] == (todo + [e])[places'[j]]
  {
  }

  lemma {:induction false} BlockUnfolds(c: Crypto, blocks: BlockMap, todo: seq<Success>, worlds: seq<World>,
                                        places: seq<nat>, p: Progress, ts: seq<Transaction>, h: Hash)
    returns (worlds': seq<World>, places': seq<nat>)
    requires IsExecution(c, blocks, todo, worlds, places) && ArrivesAt(todo, worlds, places, p)
    ensures IsExecution(c, blocks, todo + Attributed(ts, h), worlds', places')
    ensures ArrivesAt(todo + Attributed(ts, h), worlds', places', ExecuteTransactions(c, blocks, p, ts, h))
    decreases |ts|
  {
    if ts == [] {
      assert todo + Attributed(ts, h) == todo;
      worlds', places' := worlds, places;
    } else {
      var n := |ts| - 1;
      var init, q := todo + Attributed(ts[..n], h), ExecuteTransactions(c, blocks, p, ts[..n], h);
      worlds', places' := BlockUnfolds(c, blocks, todo, worlds, places, p, ts[..n], h);
      worlds', places' := OneMoreStep(c, blocks, init, worlds', places', q, Success(ts[n], h));
      assert init + [Success(ts[n], h)] == todo + Attributed(ts, h);
    }
  }

  lemma ListingGrows(blocks: BlockMap, hs: seq<Hash>, todo: seq<Success>, ends: seq<nat>, h: Hash)
    requires IsListing(blocks, hs, todo, ends) && h in blocks
    ensures var more := Attributed(blocks[h].transactions, h);
            IsListing(blocks, hs + [h], todo + more, ends + [|todo + more|])
  {
    var more := Attributed(blocks[h].transactions, h);
    var hs', todo', ends' := hs + [h], todo + more, ends + [|todo + more|];
    forall k | 0 <= k < |hs'| ensures IsListedAt(blocks, hs'[k], todo', ends'[k], ends'[k + 1]) {
      if k < |hs| {
        assert IsListedAt(blocks, hs[k], todo, ends[k], ends[k + 1]);
      }
    }
  }

  /** A replay is the execution of all transactions of the listed blocks, one by one. */
  lemma {:induction false} ReplayUnfolds(c: Crypto, blocks: BlockMap, hs: seq<Hash>)
    returns (todo: seq<Success>, ends: seq<nat>, worlds: seq<World>, places: seq<nat>)
    requires forall h :: h in hs ==> h in blocks && blocks[h].hash == h
    ensures IsListing(blocks, hs, todo, ends) && IsExecution(c, blocks, todo, worlds, places)
    ensures ArrivesAt(todo, worlds, places, Replay(c, blocks, hs))
  {
    if hs == [] {
      todo, ends, worlds, places := [], [0], [EMPTY_WORLD], [];
    } else {
      var n := |hs| - 1;
      var ts := blocks[hs[n]].transactions;
      todo, ends, worlds, places := ReplayUnfolds(c, blocks, hs[..n]);
      ListingGrows(blocks, hs[..n], todo, ends, hs[n]);
      worlds, places := BlockUnfolds(c, blocks, todo, worlds, places, Replay(c, blocks, hs[..n]), ts, hs[n]);
      todo := todo + Attributed(ts, hs[n]);
      ends := ends + [|todo|];
      assert hs[..n] + [hs[n]] == hs;
    }
  }
}
