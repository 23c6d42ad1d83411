/** Catching up with a peer: serving hashes, asking for the missing blocks, accepting them in order. */
module Sync {
  import opened Blocks
  import opened Forest
  import opened Hashes
  import opened Invariant
  import opened Ledger
  import opened Runs
  import opened Steps
  import opened WorldState
  import opened Wrappers

  /** The served hashes that the requester does not hold. */
  function Missing(hashes: seq<Hash>, blocks: BlockMap): seq<Hash> {
    if hashes == [] then []
    else (if hashes[0] in blocks then [] else [hashes[0]]) + Missing(hashes[1..], blocks)
  }

  lemma {:induction false} MissingOneMore(hashes: seq<Hash>, h: Hash, blocks: BlockMap)
    ensures Missing(hashes + [h], blocks) == Missing(hashes, blocks) + if h in blocks then [] else [h]
  {
    if hashes != [] {
      MissingOneMore(hashes[1..], h, blocks);
      assert (hashes + [h])[1..] == hashes[1..] + [h];
    }
  }

  /** Just the unknown ones, all of them, in the order served. */
  lemma {:induction false} MissingExactly(hashes: seq<Hash>, blocks: BlockMap) returns (places: seq<nat>)
    ensures IsAscending(places, |hashes|) && |places| == |Missing(hashes, blocks)|
    ensures forall j :: 0 <= j < |places| ==> Missing(hashes, blocks)[j] == hashes[places[j]]
    ensures forall i :: 0 <= i < |hashes| ==> (i in places <==> hashes[i] !in blocks)
  {
    if hashes == [] {
      places := [];
    } else {
      var n := |hashes| - 1;
      var rest := MissingExactly(hashes[..n], blocks);
      MissingOneMore(hashes[..n], hashes[n], blocks);
      assert hashes[..n] + [hashes[n]] == hashes;
      places := PlacesGrow(rest, n, hashes[n] !in blocks);
    }
  }

  /** The peer's chain blocks among the wanted ones, in chain order. */
  function BlocksByHashes(chain: seq<Hash>, wanted: seq<Hash>, blocks: BlockMap): seq<Block> {
    if chain == [] then []
    else (if chain[0] in wanted && chain[0] in blocks then [blocks[chain[0]]] else [])
         + BlocksByHashes(chain[1..], wanted, blocks)
  }

  /** Accepting a list of blocks one by one, whatever the verdicts. */
  ghost function AcceptAll(c: Crypto, s: State, bs: seq<Block>): (s': State)
    requires Inv(c, s)
    ensures Inv(c, s')
    decreases |bs|
  {
    if bs == [] then s else AcceptAll(c, Next(c, s, Accept(bs[0])), bs[1..])
  }

  ghost predicate AllAccepted(c: Crypto, s: State, bs: seq<Block>)
    requires Inv(c, s)
    decreases |bs|
  {
    bs == [] || (Verdict(c, s, bs[0]) == None && AllAccepted(c, Next(c, s, Accept(bs[0])), bs[1..]))
  }

  /* What an answer to a request by hashes means */

  ghost predicate Precedes(q: seq<Hash>, g: Hash, h: Hash) {
    exists i, j :: 0 <= i < j < |q| && q[i] == g && q[j] == h
  }

  /** Blocks of the chain that were asked for, all of these, in chain order. */
  ghost predicate IsAnswer(q: seq<Hash>, wanted: seq<Hash>, blocks: BlockMap, bs: seq<Block>) {
    && (forall b :: b in bs ==> b.hash in q && b.hash in wanted && b.hash in blocks && blocks[b.hash] == b)
    && (forall h :: h in q && h in wanted ==> h in blocks && blocks[h] in bs)
    && InOrder(q, bs)
  }

  /** The hashes of a chain, each of a block held under it, none twice. */
  ghost predicate IsHeldList(q: seq<Hash>, blocks: BlockMap) {
    && (forall h :: h in q ==> h in blocks && blocks[h].hash == h)
    && (forall i, j :: 0 <= i < j < |q| ==> q[i] != q[j])
  }

  lemma PrecedesInRest(q: seq<Hash>, g: Hash, h: Hash)
    requires q != [] && g != q[0] && Precedes(q, g, h)
    ensures Precedes(q[1..], g, h)
  {
    var i, j :| 0 <= i < j < |q| && q[i] == g && q[j] == h;
    assert q[1..][i - 1] == g && q[1..][j - 1] == h;
  }

  lemma PrecedesInLonger(q: seq<Hash>, g: Hash, h: Hash)
    requires q != [] && h in q[1..] && (g == q[0] || Precedes(q[1..], g, h))
    ensures Precedes(q, g, h)
  {
    if g == q[0] {
      var j :| 0 <= j < |q| - 1 && q[1..][j] == h;
      assert q[0] == g && q[j + 1] == h;
    } else {
      var i, j :| 0 <= i < j < |q| - 1 && q[1..][i] == g && q[1..][j] == h;
      assert q[i + 1] == g && q[j + 1] == h;
    }
  }

  ghost predicate InOrder(q: seq<Hash>, bs: seq<Block>) {
    forall i, j :: 0 <= i < j < |bs| ==> Precedes(q, bs[i].hash, bs[j].hash)
  }

  lemma OneMoreInOrder(q: seq<Hash>, bs: seq<Block>, rest: seq<Block>)
    requires q != [] && InOrder(q[1..], rest) && forall b :: b in rest ==> b.hash in q[1..]
    requires bs == rest || (bs != [] && bs[0].hash == q[0] && bs[1..] == rest)
    ensures InOrder(q, bs)
  {
    var k := |bs| - |rest|;
    forall i, j | 0 <= i < j < |bs| ensures Precedes(q, bs[i].hash, bs[j].hash) {
      assert bs[j] == rest[j - k];
      if i >= k {
        assert bs[i] == rest[i - k];
      }
      PrecedesInLonger(q, bs[i].hash, bs[j].hash);
    }
  }

  lemma {:induction false} IsAnswered(q: seq<Hash>, wanted: seq<Hash>, blocks: BlockMap)
    requires IsHeldList(q, blocks)
    ensures IsAnswer(q, wanted, blocks, BlocksByHashes(q, wanted, blocks))
  {
    if q != [] {
      var bs, rest := BlocksByHashes(q, wanted, blocks), BlocksByHashes(q[1..], wanted, blocks);
      IsAnswered(q[1..], wanted, blocks);
      OneMoreInOrder(q, bs, rest);
    }
  }

  lemma AnswerIsFromChain(q: seq<Hash>, wanted: seq<Hash>, blocks: BlockMap, bs: seq<Block>)
    requires IsAnswer(q, wanted, blocks, bs)
    ensures bs == [] || bs[0].hash in q
  {
  }

  /** No block of an answer comes before the first one of the chain. */
  lemma FirstAnswer(q: seq<Hash>, wanted: seq<Hash>, blocks: BlockMap, bs: seq<Block>)
    requires q != [] && IsHeldList(q, blocks) && IsAnswer(q, wanted, blocks, bs)
    ensures q[0] in wanted ==> bs != [] && bs[0] == blocks[q[0]]
    ensures forall i :: 0 < i < |bs| ==> bs[i].hash != q[0]
  {
    forall i | 0 < i < |bs| ensures bs[i].hash != q[0] {
      assert Precedes(q, bs[0].hash, bs[i].hash);
    }
    if q[0] in wanted {
      assert q[0] in q;
      var i :| 0 <= i < |bs| && bs[i] == blocks[q[0]];
    }
  }

  lemma AnswerInRest(q: seq<Hash>, wanted: seq<Hash>, blocks: BlockMap, bs: seq<Block>, rest: seq<Block>)
    requires q != [] && IsHeldList(q, blocks) && IsAnswer(q, wanted, blocks, bs)
    requires rest == if q[0] in wanted && bs != [] then bs[1..] else bs
    ensures IsAnswer(q[1..], wanted, blocks, rest)
  {
    FirstAnswer(q, wanted, blocks, bs);
    var k := |bs| - |rest|;
    forall i | 0 <= i < |rest| ensures rest[i] == bs[i + k] && rest[i].hash in q && rest[i].hash != q[0] {
      assert rest[i] == bs[i + k];
    }
    forall i, j | 0 <= i < j < |rest| ensures Precedes(q[1..], rest[i].hash, rest[j].hash) {
      assert Precedes(q, bs[i + k].hash, bs[j + k].hash);
      PrecedesInRest(q, rest[i].hash, rest[j].hash);
    }
    forall h | h in q[1..] && h in wanted ensures h in blocks && blocks[h] in rest {
      assert h in q && blocks[h] in bs;
      var i :| 0 <= i < |bs| && bs[i] == blocks[h];
      assert i >= k && rest[i - k] == bs[i];
    }
  }

  /** There is just one answer, and it is the one that is served. */
  lemma {:induction false} AnswerExactly(q: seq<Hash>, wanted: seq<Hash>, blocks: BlockMap, bs: seq<Block>)
    requires IsHeldList(q, blocks)
    ensures IsAnswer(q, wanted, blocks, bs) <==> bs == BlocksByHashes(q, wanted, blocks)
  {
    IsAnswered(q, wanted, blocks);
    if IsAnswer(q, wanted, blocks, bs) {
      if q == [] {
        AnswerIsFromChain(q, wanted, blocks, bs);
      } else {
        var rest := if q[0] in wanted && bs != [] then bs[1..] else bs;
        FirstAnswer(q, wanted, blocks, bs);
        AnswerInRest(q, wanted, blocks, bs, rest);
        AnswerExactly(q[1..], wanted, blocks, rest);
      }
    }
  }

  lemma ChainIsHeldList(c: Crypto, s: State)
    requires Inv(c, s)
    ensures IsHeldList(s.chain, s.blocks)
  {
    HeldBlocks(c, s);
    forall h | h in s.chain ensures h in s.blocks {
      ChainIsHeld(ParentsOf(s.blocks), s.chain, h);
    }
    forall i, j | 0 <= i < j < |s.chain| ensures s.chain[i] != s.chain[j] {
      DistinctFromNext(ParentsOf(s.blocks), s.chain, i, j);
    }
  }

  function Served(r: State, p: State): seq<Block> {
    BlocksByHashes(p.chain, Missing(p.chain, r.blocks), p.blocks)
  }

  /** The requester after the whole exchange with a peer that does not change meanwhile. */
  ghost function CatchUp(c: Crypto, r: State, p: State): (r': State)
    requires Inv(c, r)
    ensures Inv(c, r')
  {
    AcceptAll(c, r, Served(r, p))
  }

  /** No block known to both nodes has different headers there. */
  ghost predicate NoClash(c: Crypto, r: State, p: State) {
    forall h {:trigger NoCollision(c, r.archive[h], p.archive[h])} ::
      h in r.archive && h in p.archive ==> NoCollision(c, r.archive[h], p.archive[h])
  }

  /** ... so both agree on the parents of the blocks that they both know. */
  ghost predicate SameParents(r: State, p: State) {
    forall h :: h in r.archive && h in p.archive ==> r.archive[h].previousHash == p.archive[h].previousHash
  }

  lemma NoClashMeansSameParents(c: Crypto, r: State, p: State)
    requires Inv(c, r) && Inv(c, p) && NoClash(c, r, p)
    ensures SameParents(r, p)
  {
    forall h | h in r.archive && h in p.archive ensures r.archive[h].previousHash == p.archive[h].previousHash {
      EqualHashesMeanEqualHeaders(c, r.archive[h], p.archive[h]);
    }
  }

  ghost predicate NoTombstone(r: State, q: seq<Hash>) {
    forall i :: 0 <= i < |q| ==> q[i] !in r.pruned
  }

  /* The part of a peer's chain that is already held */

  lemma {:induction false} HeldPath(up: Parents, other: Parents, q: seq<Hash>)
    requires IsPath(other, q)
    requires forall i :: 0 <= i < |q| ==> q[i] in up && q[i] in other && up[q[i]] == other[q[i]]
    ensures IsPath(up, q)
  {
    if q != [] {
      HeldPath(up, other, Init(q));
      assert Tip(q) == q[|q| - 1];
    }
  }

  /** A held block of the peer's chain comes with all its predecessors. */
  lemma {:induction false} HeldDownward(up: Parents, other: Parents, q: seq<Hash>, i: nat, k: nat)
    requires IsForest(up) && ROOT !in other && IsPath(other, q) && i <= k < |q| && q[k] in up
    requires forall h :: h in up && h in other ==> up[h] == other[h]
    ensures q[i] in up && q[i] in other && up[q[i]] == other[q[i]]
    decreases k - i
  {
    PathAt(other, q, k);
    if i < k {
      PathOfChild(up, q[k]);
      PathAt(other, q, k - 1);
      assert q[k - 1] == Tip(q[..k]);
      HeldDownward(up, other, q, i, k - 1);
    }
  }

  ghost predicate HoldsJust(up: Parents, q: seq<Hash>, m: nat)
    requires m <= |q|
  {
    (forall i :: 0 <= i < m ==> q[i] in up) && (forall i :: m <= i < |q| ==> q[i] !in up)
  }

  lemma HeldPrefix(up: Parents, other: Parents, q: seq<Hash>) returns (m: nat)
    requires IsForest(up) && ROOT !in other && IsPath(other, q)
    requires forall h :: h in up && h in other ==> up[h] == other[h]
    ensures m <= |q| && HoldsJust(up, q, m) && IsPath(up, q[..m])
  {
    m := |q|;
    while m > 0 && q[m - 1] !in up
      invariant m <= |q| && forall i :: m <= i < |q| ==> q[i] !in up
    {
      m := m - 1;
    }
    forall i | 0 <= i < m ensures q[i] in up && q[i] in other && up[q[i]] == other[q[i]] {
      HeldDownward(up, other, q, i, m - 1);
    }
    PathPrefix(other, q, m);
    HeldPath(up, other, q[..m]);
  }

  /* What is served */

  function BlocksAt(blocks: BlockMap, hs: seq<Hash>): (bs: seq<Block>)
    requires forall i :: 0 <= i < |hs| ==> hs[i] in blocks
    ensures |bs| == |hs|
  {
    if hs == [] then [] else [blocks[hs[0]]] + BlocksAt(blocks, hs[1..])
  }

  lemma {:induction false} MissingIsSuffix(q: seq<Hash>, m: nat, blocks: BlockMap)
    requires m <= |q| && (forall i :: 0 <= i < m ==> q[i] in blocks) && (forall i :: m <= i < |q| ==> q[i] !in blocks)
    ensures Missing(q, blocks) == q[m..]
  {
    if q != [] {
      MissingIsSuffix(q[1..], if m == 0 then 0 else m - 1, blocks);
    }
  }

  lemma {:induction false} SuffixIsServed(chain: seq<Hash>, m: nat, wanted: seq<Hash>, blocks: BlockMap)
    requires m <= |chain| && (forall i :: 0 <= i < |chain| ==> chain[i] in blocks)
    requires forall i :: 0 <= i < |chain| ==> (chain[i] in wanted <==> m <= i)
    ensures BlocksByHashes(chain, wanted, blocks) == BlocksAt(blocks, chain[m..])
  {
    if chain != [] {
      SuffixIsServed(chain[1..], if m == 0 then 0 else m - 1, wanted, blocks);
      assert m > 0 ==> chain[1..][m - 1..] == chain[m..];
    }
  }

  lemma InSuffix(up: Parents, q: seq<Hash>, m: nat, i: nat)
    requires ROOT !in up && IsPath(up, q) && m <= |q| && i < |q|
    ensures q[i] in q[m..] <==> m <= i
  {
    if q[i] in q[m..] {
      var j :| 0 <= j < |q| - m && q[m..][j] == q[i];
      PathPosition(up, q, q, i, m + j);
    }
    if m <= i {
      assert q[m..][i - m] == q[i];
    }
  }

  lemma ServedIsSuffix(c: Crypto, r: State, p: State, m: nat)
    requires Inv(c, p) && m <= |p.chain| && HoldsJust(ParentsOf(r.blocks), p.chain, m)
    ensures forall i :: 0 <= i < |p.chain| ==> p.chain[i] in p.blocks
    ensures Served(r, p) == BlocksAt(p.blocks, p.chain[m..])
  {
    var up := ParentsOf(p.blocks);
    RootIsNoBlock(up);
    forall i | 0 <= i < |p.chain| ensures p.chain[i] in p.blocks {
      PathAt(up, p.chain, i);
    }
    MissingIsSuffix(p.chain, m, r.blocks);
    forall i | 0 <= i < |p.chain| ensures p.chain[i] in p.chain[m..] <==> m <= i {
      InSuffix(up, p.chain, m, i);
    }
    SuffixIsServed(p.chain, m, p.chain[m..], p.blocks);
  }

  /* Accepting it */

  lemma BetterGrows(c: seq<Hash>, q: seq<Hash>, j: nat)
    requires j < |q|
    ensures Better(Better(c, q[..j]), q[..j + 1]) == Better(c, q[..j + 1])
    ensures Better(c, q[..j]) == c || Better(c, q[..j + 1]) == q[..j + 1]
  {
  }

  /** Where the requester stands after the first j blocks of the peer's chain q. */
  ghost predicate HasTaken(c0: seq<Hash>, s: State, p: State, j: nat)
    requires j <= |p.chain|
  {
    && HoldsJust(ParentsOf(s.blocks), p.chain, j)
    && IsPath(ParentsOf(s.blocks), p.chain[..j])
    && NoTombstone(s, p.chain)
    && SameParents(s, p)
    && s.chain == Better(c0, p.chain[..j])
    && Agrees(s.chain, p.chain)
  }

  lemma NextBlockIsPushable(c: Crypto, s: State, p: State, j: nat)
    requires Inv(c, s) && Inv(c, p) && j < |p.chain| && p.chain[j] in p.blocks
    requires HoldsJust(ParentsOf(s.blocks), p.chain, j) && NoTombstone(s, p.chain)
    requires IsPath(ParentsOf(s.blocks), p.chain[..j])
    ensures var b := p.blocks[p.chain[j]];
            && IsPushable(c, s, b) && b.hash == p.chain[j] && p.archive[b.hash] == b
            && b.previousHash == Tip(p.chain[..j])
            && Branch(s, b) == p.chain[..j + 1]
  {
    ChainBlock(c, p, j);
    ChildOfHeldPath(c, s, p.chain, j, p.blocks[p.chain[j]]);
  }

  lemma ChildOfHeldPath(c: Crypto, s: State, q: seq<Hash>, j: nat, b: Block)
    requires IsForest(ParentsOf(s.blocks)) && IsAccounted(s) && j < |q|
    requires q[j] !in s.blocks && q[j] !in s.pruned && IsPath(ParentsOf(s.blocks), q[..j])
    requires Verified(c, b) && b.hash == q[j] && b.previousHash == Tip(q[..j])
    ensures IsPushable(c, s, b) && Branch(s, b) == q[..j + 1]
  {
    PathToIs(ParentsOf(s.blocks), q[..j]);
    assert q[..j + 1] == q[..j] + [q[j]];
  }

  /** A block of a peer's chain: checked, filed under its hash, on top of its predecessor. */
  lemma ChainBlock(c: Crypto, p: State, j: nat)
    requires Inv(c, p) && j < |p.chain| && p.chain[j] in p.blocks
    ensures var b := p.blocks[p.chain[j]];
            && Verified(c, b) && b.hash == p.chain[j] && b.hash in p.archive && p.archive[b.hash] == b
            && b.previousHash == Tip(p.chain[..j])
  {
    HeldBlocks(c, p);
    PathAt(ParentsOf(p.blocks), p.chain, j);
  }

  /** The chain after the next block still agrees with the peer's. */
  lemma StillAgrees(c0: seq<Hash>, q: seq<Hash>, j: nat)
    requires j < |q| && Agrees(Better(c0, q[..j]), q)
    ensures Agrees(Better(c0, q[..j + 1]), q)
    ensures Agrees(Better(c0, q[..j + 1]), q[..j + 1])
  {
    BetterGrows(c0, q, j);
  }

  lemma DistinctFromNext(up: Parents, q: seq<Hash>, i: nat, j: nat)
    requires IsForest(up) && IsPath(up, q) && i < |q| && j < |q| && i != j
    ensures q[i] != q[j]
  {
    RootIsNoBlock(up);
    if q[i] == q[j] {
      PathPosition(up, q, q, i, j);
    }
  }

  /** On the tree: insert the next block x of q, then cut by a chain that agrees with q so far. */
  lemma CutSparesPath(up: Parents, other: Parents, c: seq<Hash>, q: seq<Hash>, j: nat, x: Hash, y: Hash)
    requires IsForest(other) && IsPath(other, q) && j < |q| && x == q[j] && y == Tip(q[..j])
    requires HoldsJust(up, q, j) && IsPath(up, q[..j])
    requires IsForest(up[x := y]) && IsPath(up[x := y], c) && Agrees(c, q[..j + 1])
    ensures HoldsJust(Cut(up[x := y], c), q, j + 1)
    ensures IsPath(Cut(up[x := y], c), q[..j + 1])
    ensures forall i :: 0 <= i < |q| ==> q[i] !in Doomed(up[x := y], c)
  {
    var up' := up[x := y];
    var r := q[..j + 1];
    assert r == q[..j] + [x];
    PathSurvivesInsert(up, x, y, q[..j]);
    PathExtends(up', q[..j], x);
    forall i | 0 <= i < |q| ensures q[i] !in Doomed(up', c) && (q[i] in up' <==> i < j + 1) {
      if i < j + 1 {
        assert q[i] == r[i];
        AgreementIsSpared(up', c, r, q[i]);
      } else {
        DistinctFromNext(other, q, i, j);
      }
    }
    assert Tip(r) == q[j];
    PruneKeepsPath(up', c, r);
  }

  /** Nothing of the peer's chain is lost in a push of its next block. */
  lemma PushSparesChain(c: Crypto, s: State, p: State, j: nat)
    requires Inv(c, s) && Inv(c, p) && j < |p.chain| && p.chain[j] in p.blocks
    requires HoldsJust(ParentsOf(s.blocks), p.chain, j) && NoTombstone(s, p.chain)
    requires IsPath(ParentsOf(s.blocks), p.chain[..j])
    requires IsPushable(c, s, p.blocks[p.chain[j]]) && IsForest(ParentsOf(Insert(s, p.blocks[p.chain[j]]).blocks))
    requires Agrees(Push(c, s, p.blocks[p.chain[j]]).chain, p.chain[..j + 1])
    ensures var s' := Push(c, s, p.blocks[p.chain[j]]);
            && HoldsJust(ParentsOf(s'.blocks), p.chain, j + 1)
            && NoTombstone(s', p.chain)
            && IsPath(ParentsOf(s'.blocks), p.chain[..j + 1])
  {
    var b := p.blocks[p.chain[j]];
    NextBlockIsPushable(c, s, p, j);
    PushTree(c, s, b);
    InsertParents(s, b);
    CutSparesPath(ParentsOf(s.blocks), ParentsOf(p.blocks), Push(c, s, b).chain, p.chain, j, b.hash, b.previousHash);
  }

  /** Taking the next block of the peer's chain. */
  lemma TakeNext(c: Crypto, c0: seq<Hash>, s: State, p: State, j: nat)
    requires Inv(c, s) && Inv(c, p) && j < |p.chain| && p.chain[j] in p.blocks && HasTaken(c0, s, p, j)
    ensures Verdict(c, s, p.blocks[p.chain[j]]) == None
    ensures HasTaken(c0, Next(c, s, Accept(p.blocks[p.chain[j]])), p, j + 1)
  {
    var b := p.blocks[p.chain[j]];
    NextBlockIsPushable(c, s, p, j);
    JudgeExactly(c, s, b);
    PushKeepsInv(c, s, b);
    ChainNeverShrinks(c, s, b);
    BetterGrows(c0, p.chain, j);
    StillAgrees(c0, p.chain, j);
    PushSparesChain(c, s, p, j);
  }

  lemma AcceptFirst(c: Crypto, s: State, blocks: BlockMap, q: seq<Hash>, j: nat)
    requires Inv(c, s) && j < |q| && forall i :: 0 <= i < |q| ==> q[i] in blocks
    ensures var s' := Next(c, s, Accept(blocks[q[j]]));
            var bs, rest := BlocksAt(blocks, q[j..]), BlocksAt(blocks, q[j + 1..]);
            && AcceptAll(c, s, bs) == AcceptAll(c, s', rest)
            && (AllAccepted(c, s, bs) <==> Verdict(c, s, blocks[q[j]]) == None && AllAccepted(c, s', rest))
  {
    assert q[j..][1..] == q[j + 1..];
    var bs := BlocksAt(blocks, q[j..]);
    assert bs[1..] == BlocksAt(blocks, q[j + 1..]);
  }

  lemma {:induction false} TakeAll(c: Crypto, c0: seq<Hash>, s: State, p: State, j: nat)
    requires Inv(c, s) && Inv(c, p) && j <= |p.chain| && HasTaken(c0, s, p, j)
    requires forall i :: 0 <= i < |p.chain| ==> p.chain[i] in p.blocks
    ensures AllAccepted(c, s, BlocksAt(p.blocks, p.chain[j..]))
    ensures HasTaken(c0, AcceptAll(c, s, BlocksAt(p.blocks, p.chain[j..])), p, |p.chain|)
    decreases |p.chain| - j
  {
    if j < |p.chain| {
      TakeNext(c, c0, s, p, j);
      AcceptFirst(c, s, p.blocks, p.chain, j);
      TakeAll(c, c0, Next(c, s, Accept(p.blocks[p.chain[j]])), p, j + 1);
    }
  }

  lemma TakenAll(c0: seq<Hash>, s: State, p: State)
    requires HasTaken(c0, s, p, |p.chain|)
    ensures s.chain == Better(c0, p.chain)
    ensures forall h :: h in p.chain ==> h in s.blocks
  {
    assert p.chain[..|p.chain|] == p.chain;
  }

  /** Both nodes' trees give the blocks they share the same parents. */
  lemma SharedParents(c: Crypto, r: State, p: State)
    requires Inv(c, r) && Inv(c, p) && SameParents(r, p)
    ensures forall h :: h in ParentsOf(r.blocks) && h in ParentsOf(p.blocks) ==>
              ParentsOf(r.blocks)[h] == ParentsOf(p.blocks)[h]
    ensures ROOT !in ParentsOf(p.blocks)
  {
    RootIsNoBlock(ParentsOf(p.blocks));
    forall h | h in r.blocks && h in p.blocks ensures r.blocks[h].previousHash == p.blocks[h].previousHash {
      assert r.archive[h] == r.blocks[h] && p.archive[h] == p.blocks[h];
    }
  }

  /** How the exchange starts: a prefix of the peer's chain is held and the rest is served. */
  lemma ExchangeStarts(c: Crypto, r: State, p: State) returns (m: nat)
    requires Inv(c, r) && Inv(c, p) && SameParents(r, p)
    ensures m <= |p.chain| && HoldsJust(ParentsOf(r.blocks), p.chain, m) && IsPath(ParentsOf(r.blocks), p.chain[..m])
    ensures forall i :: 0 <= i < |p.chain| ==> p.chain[i] in p.blocks
    ensures Served(r, p) == BlocksAt(p.blocks, p.chain[m..])
    ensures r.chain == Better(r.chain, p.chain[..m])
  {
    SharedParents(c, r, p);
    m := HeldPrefix(ParentsOf(r.blocks), ParentsOf(p.blocks), p.chain);
    ServedIsSuffix(c, r, p, m);
    assert AtLeast(r.chain, p.chain[..m]);
  }

  /** With no tombstone on the peer's chain and no disagreement below the last two blocks, every
      served block is accepted, so none is an orphan, pruned or below a pruned one, and the
      requester ends on the better of its own chain and the peer's. */
  lemma CatchUpSucceeds(c: Crypto, r: State, p: State)
    requires Inv(c, r) && Inv(c, p) && NoClash(c, r, p)
    requires NoTombstone(r, p.chain) && Agrees(r.chain, p.chain)
    ensures AllAccepted(c, r, Served(r, p))
    ensures CatchUp(c, r, p).chain == Better(r.chain, p.chain)
    ensures forall h :: h in p.chain ==> h in CatchUp(c, r, p).blocks
  {
    NoClashMeansSameParents(c, r, p);
    var m := ExchangeStarts(c, r, p);
    TakeAll(c, r.chain, r, p, m);
    TakenAll(r.chain, CatchUp(c, r, p), p);
  }

  /* When a peer's chain can be taken over */

  /** A requester whose settled chain is on the peer's chain meets none of its own tombstones there. */
  lemma SettledPrefixSuffices(c: Crypto, r: State, p: State)
    requires Inv(c, r) && Inv(c, p) && NoClash(c, r, p)
    requires r.chain == [] || r.chain[..|r.chain| - 1] <= p.chain
    ensures NoTombstone(r, p.chain) && Agrees(r.chain, p.chain)
  {
    NoClashMeansSameParents(c, r, p);
    forall i | 0 <= i < |p.chain| ensures p.chain[i] !in r.pruned {
      NoTombstoneUpTo(c, r, p, i);
    }
  }

  lemma {:induction false} NoTombstoneUpTo(c: Crypto, r: State, p: State, k: nat)
    requires Inv(c, r) && Inv(c, p) && SameParents(r, p) && k < |p.chain|
    requires r.chain == [] || r.chain[..|r.chain| - 1] <= p.chain
    ensures p.chain[k] !in r.pruned
  {
    if k > 0 {
      NoTombstoneUpTo(c, r, p, k - 1);
    }
    if p.chain[k] in r.pruned {
      TombstoneIsShallow(c, r, p, k);
      assert r.chain[k] == p.chain[k];
      ChainIsHeld(ParentsOf(r.blocks), r.chain, r.chain[k]);
    }
  }

  /** The first tombstone on a peer's chain lies above the last two places of one's own. */
  lemma TombstoneIsShallow(c: Crypto, r: State, p: State, k: nat)
    requires Inv(c, r) && Inv(c, p) && SameParents(r, p) && k < |p.chain|
    requires p.chain[k] in r.pruned && (k > 0 ==> p.chain[k - 1] !in r.pruned)
    ensures k < |r.chain| - 1
  {
    var up, other := ParentsOf(r.blocks), ParentsOf(p.blocks);
    SharedParents(c, r, p);
    PathAt(other, p.chain, k);
    assert p.archive[p.chain[k]] == p.blocks[p.chain[k]];
    assert IsBuried(r, p.chain[k]);
    RootIsNoBlock(up);
    SentinelIsNoBlock(c, r);
    if k > 0 {
      HeldUpTo(up, other, p.chain, k);
      PathToIs(up, p.chain[..k]);
    }
  }

  lemma HeldUpTo(up: Parents, other: Parents, q: seq<Hash>, k: nat)
    requires IsForest(up) && ROOT !in other && IsPath(other, q) && 0 < k <= |q| && q[k - 1] in up
    requires forall h :: h in up && h in other ==> up[h] == other[h]
    ensures IsPath(up, q[..k])
  {
    forall i | 0 <= i < k ensures q[i] in up && q[i] in other && up[q[i]] == other[q[i]] {
      HeldDownward(up, other, q, i, k - 1);
    }
    PathPrefix(other, q, k);
    HeldPath(up, other, q[..k]);
  }

  /** The blocks of a list all lie on the peer's chain. */
  ghost predicate FromChain(p: State, bs: seq<Block>) {
    forall i :: 0 <= i < |bs| ==> bs[i].hash in p.chain && bs[i].hash in p.blocks && p.blocks[bs[i].hash] == bs[i]
  }

  /** A block of a chain with one's own first block never overturns it. */
  lemma SameRootNeverOverturns(c: Crypto, s: State, p: State, b: Block)
    requires Inv(c, s) && Inv(c, p) && SameParents(s, p) && FromChain(p, [b]) && IsPushable(c, s, b)
    requires s.chain != [] && p.chain != [] && s.chain[0] == p.chain[0]
    ensures !Overturns(s, b)
  {
    assert [b][0] == b;
    var k :| 0 <= k < |p.chain| && p.chain[k] == b.hash;
    var up, other := ParentsOf(s.blocks), ParentsOf(p.blocks);
    SharedParents(c, s, p);
    PathAt(other, p.chain, k);
    if k == 0 {
      PathToIs(up, []);
    } else {
      HeldUpTo(up, other, p.chain, k);
      PathToIs(up, p.chain[..k]);
    }
  }

  lemma AcceptKeepsRoot(c: Crypto, s: State, p: State, b: Block)
    requires Inv(c, s) && Inv(c, p) && SameParents(s, p) && FromChain(p, [b])
    requires s.chain != [] && p.chain != [] && s.chain[0] == p.chain[0]
    ensures var s' := Next(c, s, Accept(b));
            && |s.chain| <= |s'.chain| && s'.chain[0] == p.chain[0] && s.chain[..|s.chain| - 1] <= s'.chain
            && SameParents(s', p)
  {
    var x := StepIsPush(c, s, Accept(b));
    assert [b][0] == b;
    assert p.archive[b.hash] == p.blocks[b.hash];
    StepKeepsChain(c, s, Accept(b));
    if Next(c, s, Accept(b)) != s {
      SameRootNeverOverturns(c, s, p, b);
      PrefixIsFinalExactly(c, s, b);
    }
  }

  lemma {:induction false} AcceptAllKeepsRoot(c: Crypto, s: State, p: State, bs: seq<Block>, settled: seq<Hash>)
    requires Inv(c, s) && Inv(c, p) && SameParents(s, p) && FromChain(p, bs)
    requires s.chain != [] && p.chain != [] && s.chain[0] == p.chain[0]
    requires settled <= s.chain && |settled| < |s.chain|
    ensures settled <= AcceptAll(c, s, bs).chain && |settled| < |AcceptAll(c, s, bs).chain|
    ensures AcceptAll(c, s, bs).chain[0] == p.chain[0] && SameParents(AcceptAll(c, s, bs), p)
    decreases |bs|
  {
    if bs != [] {
      assert FromChain(p, [bs[0]]);
      AcceptKeepsRoot(c, s, p, bs[0]);
      AcceptAllKeepsRoot(c, Next(c, s, Accept(bs[0])), p, bs[1..], settled);
    }
  }

  lemma {:induction false} AcceptAllExtends(c: Crypto, s: State, bs: seq<Block>)
    requires Inv(c, s)
    ensures Extends(s, AcceptAll(c, s, bs))
    decreases |bs|
  {
    if bs != [] {
      var s1 := Next(c, s, Accept(bs[0]));
      StepExtends(c, s, Accept(bs[0]));
      AcceptAllExtends(c, s1, bs[1..]);
      ExtendsTransitive(s, s1, AcceptAll(c, s1, bs[1..]));
    }
  }

  lemma {:induction false} BlocksAtFromChain(c: Crypto, p: State, m: nat)
    requires Inv(c, p) && m <= |p.chain| && forall i :: 0 <= i < |p.chain| ==> p.chain[i] in p.blocks
    ensures FromChain(p, BlocksAt(p.blocks, p.chain[m..]))
    decreases |p.chain| - m
  {
    if m < |p.chain| {
      HeldBlocks(c, p);
      assert p.chain[m..][1..] == p.chain[m + 1..];
      BlocksAtFromChain(c, p, m + 1);
    }
  }

  /** A node that ends up holding the whole of a peer's chain, with its own first block, agrees with it. */
  lemma HoldingAllMeansAgreeing(c: Crypto, r: State, f: State, p: State)
    requires Inv(c, r) && Inv(c, f) && Inv(c, p) && SameParents(f, p)
    requires p.chain != [] && r.chain != [] && f.chain != [] && f.chain[0] == p.chain[0]
    requires r.chain[..|r.chain| - 1] <= f.chain && |r.chain| <= |f.chain|
    requires forall h :: h in p.chain ==> h in f.blocks
    ensures Agrees(r.chain, p.chain)
  {
    var up, other := ParentsOf(f.blocks), ParentsOf(p.blocks);
    SharedParents(c, f, p);
    assert p.chain[|p.chain| - 1] in p.chain;
    HeldUpTo(up, other, p.chain, |p.chain|);
    assert p.chain[..|p.chain|] == p.chain;
    forall i | 0 <= i < |p.chain| && i < |r.chain| - 1 ensures p.chain[i] == r.chain[i] {
      TrimmedPathFollows(up, f.chain, p.chain, i);
      assert r.chain[..|r.chain| - 1][i] == f.chain[i];
    }
  }

  /** The exchange leaves the requester with the whole of the peer's chain exactly when none of it
      was tombstoned and it forks off, if at all, at the first block or above the settled chain. */
  lemma CatchUpCompleteExactly(c: Crypto, r: State, p: State)
    requires Inv(c, r) && Inv(c, p) && NoClash(c, r, p)
    ensures (forall h :: h in p.chain ==> h in CatchUp(c, r, p).blocks)
              <==> NoTombstone(r, p.chain) && Agrees(r.chain, p.chain)
  {
    var f := CatchUp(c, r, p);
    if NoTombstone(r, p.chain) && Agrees(r.chain, p.chain) {
      CatchUpSucceeds(c, r, p);
    }
    if forall h :: h in p.chain ==> h in f.blocks {
      AcceptAllExtends(c, r, Served(r, p));
      assert NoTombstone(r, p.chain);
      if r.chain != [] && p.chain != [] && r.chain[0] == p.chain[0] {
        NoClashMeansSameParents(c, r, p);
        var m := ExchangeStarts(c, r, p);
        BlocksAtFromChain(c, p, m);
        AcceptAllKeepsRoot(c, r, p, Served(r, p), r.chain[..|r.chain| - 1]);
        HoldingAllMeansAgreeing(c, r, f, p);
      }
    }
  }

  /* The exchange as a run */

  function AcceptsOf(bs: seq<Block>): (acts: seq<Action>)
    ensures |acts| == |bs|
  {
    if bs == [] then [] else [Accept(bs[0])] + AcceptsOf(bs[1..])
  }

  lemma {:induction false} RunOfAccepts(c: Crypto, states: seq<State>, acts: seq<Action>, bs: seq<Block>)
    requires IsRun(c, states, acts) && Inv(c, states[0]) && acts == AcceptsOf(bs)
    ensures states[|acts|] == AcceptAll(c, states[0], bs)
  {
    if bs != [] {
      StepOfRun(c, states, acts, 0);
      RunTail(c, states, acts);
      assert acts[1..] == AcceptsOf(bs[1..]);
      RunOfAccepts(c, states[1..], acts[1..], bs[1..]);
    }
  }

  lemma RunTail(c: Crypto, states: seq<State>, acts: seq<Action>)
    requires IsRun(c, states, acts) && acts != []
    ensures IsRun(c, states[1..], acts[1..])
  {
    forall i | 0 <= i < |acts[1..]| ensures IsStep(c, states[1..][i], acts[1..][i], states[1..][i + 1]) {
      assert acts[1..][i] == acts[i + 1];
    }
  }

  /** A requester that takes the served blocks step by step ends up with the whole of the peer's chain
      exactly when none of it was tombstoned and it agrees with the requester's settled chain. */
  lemma ExchangeCompleteExactly(c: Crypto, p: State, states: seq<State>, acts: seq<Action>)
    requires IsRun(c, states, acts) && Inv(c, states[0]) && Inv(c, p) && NoClash(c, states[0], p)
    requires acts == AcceptsOf(Served(states[0], p))
    ensures (forall h :: h in p.chain ==> h in states[|acts|].blocks)
              <==> NoTombstone(states[0], p.chain) && Agrees(states[0].chain, p.chain)
  {
    RunOfAccepts(c, states, acts, Served(states[0], p));
    CatchUpCompleteExactly(c, states[0], p);
  }

  /* A fresh node */

  /** The first j blocks of the peer's chain, executed as far as confirmed, and nothing else on top. */
  ghost predicate IsFreshCopy(c: Crypto, s: State, p: State, j: nat)
    requires j <= |p.chain|
  {
    && HasTaken([], s, p, j)
    && InSync(c, s)
    && SharesFirst(s, p, j)
  }

  ghost predicate SharesFirst(s: State, p: State, j: nat)
    requires j <= |p.chain|
  {
    forall i :: 0 <= i < j ==>
      p.chain[i] in s.archive && p.chain[i] in p.archive && s.archive[p.chain[i]] == p.archive[p.chain[i]]
  }

  lemma SharesNext(s: State, s': State, p: State, j: nat)
    requires j < |p.chain| && SharesFirst(s, p, j) && Extends(s, s')
    requires p.chain[j] in s'.archive && p.chain[j] in p.archive && s'.archive[p.chain[j]] == p.archive[p.chain[j]]
    ensures SharesFirst(s', p, j + 1)
  {
  }

  lemma FreshChain(s: State, p: State, j: nat)
    requires j <= |p.chain| && HasTaken([], s, p, j)
    ensures s.chain == p.chain[..j]
  {
  }

  lemma NextBlockIsArchived(c: Crypto, s: State, p: State, j: nat)
    requires Inv(c, s) && Inv(c, p) && j < |p.chain| && p.chain[j] in p.blocks && HasTaken([], s, p, j)
    ensures var s' := Next(c, s, Accept(p.blocks[p.chain[j]]));
            p.chain[j] in s'.archive && p.chain[j] in p.archive && s'.archive[p.chain[j]] == p.archive[p.chain[j]]
  {
    NextBlockIsPushable(c, s, p, j);
    JudgeExactly(c, s, p.blocks[p.chain[j]]);
  }

  lemma FreshTakesNext(c: Crypto, s: State, p: State, j: nat)
    requires Inv(c, s) && Inv(c, p) && j < |p.chain| && p.chain[j] in p.blocks && IsFreshCopy(c, s, p, j)
    ensures IsFreshCopy(c, Next(c, s, Accept(p.blocks[p.chain[j]])), p, j + 1)
  {
    var b := p.blocks[p.chain[j]];
    TakeNext(c, [], s, p, j);
    NextBlockIsArchived(c, s, p, j);
    StepExtends(c, s, Accept(b));
    SharesNext(s, Next(c, s, Accept(b)), p, j);
    FreshStaysInSync(c, s, p, j);
  }

  lemma FreshStaysInSync(c: Crypto, s: State, p: State, j: nat)
    requires Inv(c, s) && j < |p.chain| && p.chain[j] in p.blocks && HasTaken([], s, p, j) && InSync(c, s)
    requires HasTaken([], Next(c, s, Accept(p.blocks[p.chain[j]])), p, j + 1)
    ensures InSync(c, Next(c, s, Accept(p.blocks[p.chain[j]])))
  {
    FreshChain(s, p, j);
    FreshChain(Next(c, s, Accept(p.blocks[p.chain[j]])), p, j + 1);
    StepKeepsReplay(c, s, Accept(p.blocks[p.chain[j]]));
  }

  lemma {:induction false} FreshTakesAll(c: Crypto, s: State, p: State, j: nat)
    requires Inv(c, s) && Inv(c, p) && j <= |p.chain| && IsFreshCopy(c, s, p, j)
    requires forall i :: 0 <= i < |p.chain| ==> p.chain[i] in p.blocks
    ensures IsFreshCopy(c, AcceptAll(c, s, BlocksAt(p.blocks, p.chain[j..])), p, |p.chain|)
    decreases |p.chain| - j
  {
    if j < |p.chain| {
      FreshTakesNext(c, s, p, j);
      AcceptFirst(c, s, p.blocks, p.chain, j);
      FreshTakesAll(c, Next(c, s, Accept(p.blocks[p.chain[j]])), p, j + 1);
    }
  }

  lemma FreshCopyReplays(c: Crypto, f: State, p: State)
    requires Inv(c, f) && Inv(c, p) && IsFreshCopy(c, f, p, |p.chain|)
    ensures f.chain == p.chain && f.Progress() == Replay(c, p.blocks, p.chain[..p.committed])
  {
    TakenAll([], f, p);
    var hs := p.chain[..p.committed];
    HeldStaysOnChain(c, f, hs);
    HeldStaysOnChain(c, p, hs);
    forall h | h in hs ensures f.archive[h] == p.archive[h] {
      var i :| 0 <= i < p.committed && p.chain[i] == h;
    }
    ReplayFrame(c, f.blocks, p.blocks, hs);
  }

  /** A fresh node that takes over a peer's chain ends with its chain and cursor, with just the
      confirmed blocks executed, and with the accounts and auctions that they produce from nothing. */
  lemma FreshNodeConverges(c: Crypto, p: State)
    requires Inv(c, INITIAL) && Inv(c, p)
    ensures var f := CatchUp(c, INITIAL, p);
            && f.chain == p.chain && f.committed == p.committed && InSync(c, f)
            && f.Progress() == Replay(c, p.blocks, p.chain[..p.committed])
  {
    var m := ExchangeStarts(c, INITIAL, p);
    InitialInSync(c);
    FreshTakesAll(c, INITIAL, p, m);
    FreshCopyReplays(c, CatchUp(c, INITIAL, p), p);
  }

  /** At any moment of any run of a peer, a fresh node executes the same blocks exactly if just the
      peer's confirmed chain has been executed there, and then it reaches the peer's whole world. */
  lemma FreshNodeReachesPeerExactly(c: Crypto, states: seq<State>, acts: seq<Action>, i: nat)
    requires IsRun(c, states, acts) && states[0] == INITIAL && i < |states|
    ensures Inv(c, INITIAL)
    ensures var p, f := states[i], CatchUp(c, INITIAL, states[i]);
            && (f.executed == p.executed <==> IsSettled(p))
            && (IsSettled(p) ==> f.world == p.world && f.journal == p.journal)
  {
    InitialInv(c);
    InvThroughout(c, states, acts, i);
    FreshNodeConverges(c, states[i]);
    if IsSettled(states[i]) {
      SettledIsInSync(c, states, acts, i);
      assert CatchUp(c, INITIAL, states[i]).Progress() == states[i].Progress();
    }
  }

  /** ... in particular when the peer never changed its first block after executing something. */
  lemma FreshNodeReachesPeer(c: Crypto, states: seq<State>, acts: seq<Action>, i: nat)
    requires IsStableRun(c, states, acts) && states[0] == INITIAL && i < |states|
    ensures Inv(c, INITIAL)
    ensures var p, f := states[i], CatchUp(c, INITIAL, states[i]);
            f.chain == p.chain && f.committed == p.committed && f.world == p.world && f.journal == p.journal
  {
    StableIsSettled(c, states, acts, i);
    InvThroughout(c, states, acts, i);
    FreshNodeReachesPeerExactly(c, states, acts, i);
    FreshNodeConverges(c, states[i]);
  }

  /* Two nodes on the same chain */

  ghost predicate SameBodies(r: State, p: State) {
    forall h :: h in r.executed && h in r.blocks && h in p.blocks ==>
      r.blocks[h].transactions == p.blocks[h].transactions
  }

  ghost predicate SameCounts(r: State, p: State) {
    forall h :: h in r.executed && h in r.blocks && h in p.blocks ==>
      |r.blocks[h].transactions| == |p.blocks[h].transactions|
  }

  ghost predicate NoBlocksCollide(c: Crypto, r: State, p: State) {
    forall h :: h in r.executed && h in r.blocks && h in p.blocks ==> !BlocksCollide(c, r.blocks[h], p.blocks[h])
  }

  /** Nodes on the same chain of hashes that have executed just its confirmed blocks hold the same
      transactions for these exactly if they hold equally many, and then they have the same world. */
  lemma SameChainSameWorld(c: Crypto, r: State, p: State)
    requires Inv(c, r) && Inv(c, p) && InSync(c, r) && InSync(c, p) && r.chain == p.chain
    requires NoBlocksCollide(c, r, p)
    ensures SameBodies(r, p) <==> SameCounts(r, p)
    ensures SameCounts(r, p) ==> r.world == p.world && r.journal == p.journal
  {
    HeldBlocks(c, r);
    HeldBlocks(c, p);
    HeldStaysOnChain(c, r, r.executed);
    HeldStaysOnChain(c, p, r.executed);
    forall h | h in r.executed
      ensures r.blocks[h].transactions == p.blocks[h].transactions
              <==> |r.blocks[h].transactions| == |p.blocks[h].transactions|
    {
      SameBodyExactly(c, r.blocks[h], p.blocks[h]);
    }
    if SameCounts(r, p) {
      ReplayFrame(c, r.blocks, p.blocks, r.executed);
      assert r.Progress() == p.Progress();
    }
  }
}
