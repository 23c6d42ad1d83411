/** A node: the engine, the orphans it has put aside, and the messages it sends. */
module Network {
  import opened Blocks
  import opened Engine
  import opened Forest
  import opened Hashes
  import opened Ledger
  import opened Steps
  import opened Sync
  import opened WorldState
  import opened Wrappers

  datatype Request = LongestChainBlocks | LongestChainHashes | WantedBlocks(wanted: seq<Hash>)

  datatype Response =
    | ChainBlocks(chain: seq<Block>)
    | ChainHashes(hashes: seq<Hash>)
    | RequestedBlocks(blocks: seq<Block>)

  function BlocksIn(response: Response): seq<Block> {
    match response
    case ChainBlocks(bs) => bs
    case RequestedBlocks(bs) => bs
    case ChainHashes(_) => []
  }

  datatype Message = Gossip(block: Block) | Ask(peer: string, request: Request)

  /** A verdict that is passed on, or a block that was accepted and could not be published. */
  datatype NodeError = Rejected(error: AcceptError) | NotPublished

  /** The blocks that a chain of hashes stands for, as far as they are held. */
  function HeldOf(chain: seq<Hash>, blocks: BlockMap): seq<Block> {
    if chain == [] then []
    else (if chain[0] in blocks then [blocks[chain[0]]] else []) + HeldOf(chain[1..], blocks)
  }

  /** A node without blocks that asks for whole blocks is sent what it would ask for by hash. */
  lemma WholeChainIsServed(c: Crypto, p: State)
    requires Inv(c, INITIAL) && Inv(c, p)
    ensures HeldOf(p.chain, p.blocks) == Served(INITIAL, p)
  {
    var m := ExchangeStarts(c, INITIAL, p);
    HeldOfAll(p.chain, p.blocks);
    assert p.chain[0..] == p.chain;
  }

  lemma {:induction false} HeldOfAll(hs: seq<Hash>, blocks: BlockMap)
    requires forall i :: 0 <= i < |hs| ==> hs[i] in blocks
    ensures HeldOf(hs, blocks) == BlocksAt(blocks, hs)
  {
    if hs != [] {
      HeldOfAll(hs[1..], blocks);
    }
  }

  lemma {:induction false} BlocksAtIndex(blocks: BlockMap, hs: seq<Hash>, i: nat)
    requires i < |hs| && forall k :: 0 <= k < |hs| ==> hs[k] in blocks
    ensures BlocksAt(blocks, hs)[i] == blocks[hs[i]]
  {
    if i > 0 {
      BlocksAtIndex(blocks, hs[1..], i - 1);
    }
  }

  /** All blocks of the chain: checked, the first on the sentinel and each other one on the one before. */
  ghost predicate IsWholeChain(c: Crypto, chain: seq<Hash>, bs: seq<Block>) {
    && |bs| == |chain|
    && forall i :: 0 <= i < |bs| ==>
         bs[i].hash == chain[i] && Verified(c, bs[i])
         && bs[i].previousHash == if i == 0 then ROOT else bs[i - 1].hash
  }

  lemma ChainBlockAt(c: Crypto, s: State, i: nat)
    requires Inv(c, s) && i < |s.chain|
    ensures s.chain[i] in s.blocks
    ensures var b := s.blocks[s.chain[i]];
            Verified(c, b) && b.hash == s.chain[i] && b.previousHash == if i == 0 then ROOT else s.chain[i - 1]
  {
    PathAt(ParentsOf(s.blocks), s.chain, i);
    ChainBlock(c, s, i);
  }

  lemma HeldOfIsWholeChain(c: Crypto, s: State)
    requires Inv(c, s)
    ensures IsWholeChain(c, s.chain, HeldOf(s.chain, s.blocks))
  {
    var bs := HeldOf(s.chain, s.blocks);
    forall i | 0 <= i < |s.chain| ensures s.chain[i] in s.blocks {
      ChainBlockAt(c, s, i);
    }
    HeldOfAll(s.chain, s.blocks);
    forall i | 0 <= i < |bs| ensures bs[i] == s.blocks[s.chain[i]] {
      BlocksAtIndex(s.blocks, s.chain, i);
    }
    BlocksLinked(c, s, bs);
  }

  lemma BlocksLinked(c: Crypto, s: State, bs: seq<Block>)
    requires Inv(c, s) && |bs| == |s.chain|
    requires forall i :: 0 <= i < |bs| ==> s.chain[i] in s.blocks && bs[i] == s.blocks[s.chain[i]]
    ensures IsWholeChain(c, s.chain, bs)
  {
    forall i | 0 <= i < |bs|
      ensures bs[i].hash == s.chain[i] && Verified(c, bs[i])
      ensures bs[i].previousHash == if i == 0 then ROOT else bs[i - 1].hash
    {
      ChainBlockAt(c, s, i);
      if i > 0 {
        ChainBlockAt(c, s, i - 1);
      }
    }
  }

  /* What one accepted or rejected block does to a node */

  /** Orphans are put aside, and nothing ever takes them up again. */
  function Aside(verdict: Option<AcceptError>, b: Block, kept: BlockMap): BlockMap {
    if verdict == Some(Orphan) then kept[b.hash := b] else kept
  }

  /** Duplicates and orphans are no errors. */
  function Reported(verdict: Option<AcceptError>, rebroadcast: bool, publishes: bool): Option<NodeError> {
    match verdict
    case None => if rebroadcast && !publishes then Some(NotPublished) else None
    case Some(Duplicate) => None
    case Some(Orphan) => None
    case Some(e) => Some(Rejected(e))
  }

  function Sent(verdict: Option<AcceptError>, b: Block, peer: string, rebroadcast: bool, requestMissing: bool,
                publishes: bool): seq<Message>
  {
    if verdict == None && rebroadcast && publishes then [Gossip(b)]
    else if verdict == Some(Orphan) && requestMissing then [Ask(peer, LongestChainHashes)]
    else []
  }

  /** The orphans put aside while a list of blocks is accepted. */
  ghost function PutAside(c: Crypto, s: State, bs: seq<Block>, kept: BlockMap): BlockMap
    requires Inv(c, s)
    decreases |bs|
  {
    if bs == [] then kept
    else PutAside(c, Next(c, s, Accept(bs[0])), bs[1..], Aside(Verdict(c, s, bs[0]), bs[0], kept))
  }

  ghost predicate AnyAccepted(c: Crypto, s: State, bs: seq<Block>)
    requires Inv(c, s)
    decreases |bs|
  {
    bs != [] && (Verdict(c, s, bs[0]) == None || AnyAccepted(c, Next(c, s, Accept(bs[0])), bs[1..]))
  }

  class Node {
    const engine: Blockchain
    var receivedBlocks: BlockMap
    var lastBlockAccepted: Option<nat>
    var outbox: seq<Message>

    constructor (engine: Blockchain)
      ensures this.engine == engine && receivedBlocks == map[] && lastBlockAccepted == None && outbox == []
    {
      this.engine := engine;
      receivedBlocks, lastBlockAccepted, outbox := map[], None, [];
    }

    /** What a node does with a verdict. */
    method Record(verdict: Option<AcceptError>, block: Block, peer: string, rebroadcast: bool, requestMissing: bool,
                  publishes: bool, now: nat)
      returns (r: Option<NodeError>)
      modifies this
      ensures r == Reported(verdict, rebroadcast, publishes)
      ensures receivedBlocks == Aside(verdict, block, old(receivedBlocks))
      ensures lastBlockAccepted == if verdict == None then Some(now) else old(lastBlockAccepted)
      ensures outbox == old(outbox) + Sent(verdict, block, peer, rebroadcast, requestMissing, publishes)
    {
      match verdict {
        case None =>
          lastBlockAccepted := Some(now);
          if rebroadcast {
            if !publishes {
              return Some(NotPublished);
            }
            outbox := outbox + [Gossip(block)];
          }
          return None;
        case Some(Duplicate) =>
          return None;
        case Some(Orphan) =>
          receivedBlocks := receivedBlocks[block.hash := block];
          if requestMissing {
            outbox := outbox + [Ask(peer, LongestChainHashes)];
          }
          return None;
        case Some(e) =>
          return Some(Rejected(e));
      }
    }

    /** A block from a peer. Whether the gossip layer publishes an accepted one is an input; if it does
        not, the block is accepted all the same. */
    method AcceptBlock(block: Block, peer: string, rebroadcast: bool, requestMissing: bool, publishes: bool, now: nat)
      returns (r: Option<NodeError>, ghost verdict: Option<AcceptError>)
      requires engine.Valid()
      modifies this, engine
      ensures engine.Valid() && engine.Snapshot() == Next(engine.crypto, old(engine.Snapshot()), Accept(block))
      ensures verdict == old(Verdict(engine.crypto, engine.Snapshot(), block))
      ensures r == Reported(verdict, rebroadcast, publishes)
      ensures receivedBlocks == Aside(verdict, block, old(receivedBlocks))
      ensures lastBlockAccepted == if verdict == None then Some(now) else old(lastBlockAccepted)
      ensures outbox == old(outbox) + Sent(verdict, block, peer, rebroadcast, requestMissing, publishes)
      ensures verdict == None ==>
                && receivedBlocks == old(receivedBlocks) && lastBlockAccepted == Some(now)
                && r == (if rebroadcast && !publishes then Some(NotPublished) else None)
                && outbox == old(outbox) + if rebroadcast && publishes then [Gossip(block)] else []
      ensures verdict == Some(Orphan) ==>
                && receivedBlocks == old(receivedBlocks)[block.hash := block]
                && lastBlockAccepted == old(lastBlockAccepted) && r == None
                && outbox == old(outbox) + if requestMissing then [Ask(peer, LongestChainHashes)] else []
      ensures verdict != None && verdict != Some(Orphan) ==>
                && receivedBlocks == old(receivedBlocks) && lastBlockAccepted == old(lastBlockAccepted)
                && r == (if verdict == Some(Duplicate) then None else Some(Rejected(verdict.value)))
                && outbox == old(outbox)
    {
      var v := engine.AcceptBlock(block);
      verdict := v;
      r := Record(v, block, peer, rebroadcast, requestMissing, publishes, now);
    }

    /** The whole chain, block by block; its hashes, which are the best path of the tree; or the chain's
        blocks among the wanted ones, all of them, in chain order. All blocks sent are checked. */
    method HandleRequest(request: Request) returns (response: Response)
      requires engine.Valid()
      ensures match request
              case LongestChainBlocks =>
                response.ChainBlocks? && IsWholeChain(engine.crypto, engine.longestChain, response.chain)
              case LongestChainHashes =>
                response.ChainHashes? && IsBest(ParentsOf(engine.blocks), response.hashes)
              case WantedBlocks(wanted) =>
                response.RequestedBlocks? && IsAnswer(engine.longestChain, wanted, engine.blocks, response.blocks)
      ensures forall b :: b in BlocksIn(response) ==> Verified(engine.crypto, b)
    {
      ghost var s := engine.Snapshot();
      HeldBlocks(engine.crypto, s);
      ChainIsHeldList(engine.crypto, s);
      match request {
        case LongestChainBlocks =>
          HeldOfIsWholeChain(engine.crypto, s);
          return ChainBlocks(HeldOf(engine.longestChain, engine.blocks));
        case LongestChainHashes =>
          return ChainHashes(engine.longestChain);
        case WantedBlocks(wanted) =>
          IsAnswered(engine.longestChain, wanted, engine.blocks);
          return RequestedBlocks(BlocksByHashes(engine.longestChain, wanted, engine.blocks));
      }
    }

    method AcceptInOrder(bs: seq<Block>, peer: string, now: nat)
      requires engine.Valid()
      modifies this, engine
      ensures engine.Valid() && engine.Snapshot() == AcceptAll(engine.crypto, old(engine.Snapshot()), bs)
      ensures receivedBlocks == PutAside(engine.crypto, old(engine.Snapshot()), bs, old(receivedBlocks))
      ensures var any := AnyAccepted(engine.crypto, old(engine.Snapshot()), bs);
              lastBlockAccepted == if any then Some(now) else old(lastBlockAccepted)
      ensures outbox == old(outbox)
    {
      ghost var s, kept, accepted := engine.Snapshot(), receivedBlocks, false;
      for i := 0 to |bs|
        invariant engine.Valid() && outbox == old(outbox)
        invariant AcceptAll(engine.crypto, engine.Snapshot(), bs[i..]) == AcceptAll(engine.crypto, s, bs)
        invariant PutAside(engine.crypto, engine.Snapshot(), bs[i..], receivedBlocks)
                  == PutAside(engine.crypto, s, bs, kept)
        invariant AnyAccepted(engine.crypto, s, bs)
                  <==> accepted || AnyAccepted(engine.crypto, engine.Snapshot(), bs[i..])
        invariant lastBlockAccepted == if accepted then Some(now) else old(lastBlockAccepted)
      {
        assert bs[i..][0] == bs[i] && bs[i..][1..] == bs[i + 1..];
        var rejected, verdict := AcceptBlock(bs[i], peer, false, false, false, now);
        accepted := accepted || verdict == None;
      }
    }

    /** Blocks are accepted in the order received; hashes lead to a request for the unknown ones. */
    method HandleResponse(response: Response, peer: string, now: nat)
      requires engine.Valid()
      modifies this, engine
      ensures engine.Valid()
      ensures engine.Snapshot() == AcceptAll(engine.crypto, old(engine.Snapshot()), BlocksIn(response))
      ensures receivedBlocks
              == PutAside(engine.crypto, old(engine.Snapshot()), BlocksIn(response), old(receivedBlocks))
      ensures var any := AnyAccepted(engine.crypto, old(engine.Snapshot()), BlocksIn(response));
              lastBlockAccepted == if any then Some(now) else old(lastBlockAccepted)
      ensures var missing := if response.ChainHashes? then Missing(response.hashes, old(engine.blocks)) else [];
              outbox == old(outbox) + if missing != [] then [Ask(peer, WantedBlocks(missing))] else []
    {
      match response {
        case RequestedBlocks(bs) =>
          AcceptInOrder(bs, peer, now);
        case ChainBlocks(bs) =>
          AcceptInOrder(bs, peer, now);
        case ChainHashes(hashes) =>
          var missing := Missing(hashes, engine.blocks);
          if missing != [] {
            outbox := outbox + [Ask(peer, WantedBlocks(missing))];
          }
      }
    }
  }

  lemma {:induction false} NothingWanted(chain: seq<Hash>, blocks: BlockMap)
    ensures BlocksByHashes(chain, [], blocks) == []
  {
    if chain != [] {
      NothingWanted(chain[1..], blocks);
    }
  }

  lemma AnswerIsServed(c: Crypto, r: State, p: State, bs: seq<Block>)
    requires Inv(c, p) && IsAnswer(p.chain, Missing(p.chain, r.blocks), p.blocks, bs)
    ensures bs == Served(r, p)
  {
    ChainIsHeldList(c, p);
    AnswerExactly(p.chain, Missing(p.chain, r.blocks), p.blocks, bs);
  }

  /** What the exchange leads to. */
  ghost predicate TakesOver(c: Crypto, r: State, p: State, r': State) {
    NoClash(c, r, p) && NoTombstone(r, p.chain) && Agrees(r.chain, p.chain) ==>
      r'.chain == Better(r.chain, p.chain) && forall h :: h in p.chain ==> h in r'.blocks
  }

  lemma CatchUpTakesOver(c: Crypto, r: State, p: State)
    requires Inv(c, r) && Inv(c, p)
    ensures TakesOver(c, r, p, CatchUp(c, r, p))
  {
    if NoClash(c, r, p) && NoTombstone(r, p.chain) && Agrees(r.chain, p.chain) {
      CatchUpSucceeds(c, r, p);
    }
  }

  ghost predicate ArePartners(requester: Node, peer: Node)
    reads requester.engine, requester.engine.pool, peer.engine, peer.engine.pool
  {
    && requester != peer && requester.engine != peer.engine && requester.engine.crypto == peer.engine.crypto
    && requester.engine.Valid() && peer.engine.Valid()
  }

  /** The first half of the exchange: the hashes are served, and lead to a request if some are unknown. */
  method AskForMissing(requester: Node, peer: Node, name: string, now: nat) returns (request: Option<Request>)
    requires ArePartners(requester, peer)
    modifies requester, requester.engine
    ensures ArePartners(requester, peer) && peer.engine.Snapshot() == old(peer.engine.Snapshot())
    ensures requester.engine.Snapshot() == old(requester.engine.Snapshot())
    ensures var missing := Missing(peer.engine.longestChain, requester.engine.blocks);
            request == if missing == [] then None else Some(WantedBlocks(missing))
  {
    var hashes := peer.HandleRequest(LongestChainHashes);
    BestUnique(ParentsOf(peer.engine.blocks), hashes.hashes, peer.engine.longestChain);
    var sent := |requester.outbox|;
    requester.HandleResponse(hashes, name, now);
    request := if sent < |requester.outbox| then Some(requester.outbox[sent].request) else None;
  }

  /** The second half of the exchange: the answer to a request for the missing blocks. */
  method Fetch(requester: Node, peer: Node, request: Request, name: string, now: nat)
    requires ArePartners(requester, peer)
    requires request == WantedBlocks(Missing(peer.engine.longestChain, requester.engine.blocks))
    modifies requester, requester.engine
    ensures ArePartners(requester, peer) && peer.engine.Snapshot() == old(peer.engine.Snapshot())
    ensures requester.engine.Snapshot()
            == CatchUp(requester.engine.crypto, old(requester.engine.Snapshot()), peer.engine.Snapshot())
  {
    ghost var r, p := requester.engine.Snapshot(), peer.engine.Snapshot();
    var reply := peer.HandleRequest(request);
    AnswerIsServed(requester.engine.crypto, r, p, reply.blocks);
    requester.HandleResponse(reply, name, now);
  }

  /** The exchange by hashes between two nodes, message by message. */
  method Exchange(requester: Node, peer: Node, name: string, now: nat)
    requires ArePartners(requester, peer)
    modifies requester, requester.engine
    ensures ArePartners(requester, peer) && peer.engine.Snapshot() == old(peer.engine.Snapshot())
    ensures var c, r, p := requester.engine.crypto, old(requester.engine.Snapshot()), peer.engine.Snapshot();
            requester.engine.Snapshot() == CatchUp(c, r, p) && TakesOver(c, r, p, requester.engine.Snapshot())
  {
    ghost var c, r, p := requester.engine.crypto, requester.engine.Snapshot(), peer.engine.Snapshot();
    CatchUpTakesOver(c, r, p);
    NothingWanted(p.chain, p.blocks);
    var request := AskForMissing(requester, peer, name, now);
    if request.Some? {
      Fetch(requester, peer, request.value, name, now);
    }
  }
}
