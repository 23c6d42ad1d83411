/** Concrete runs that show which conditions are needed: a rival first block wins, an executed block is
    pruned, an auction is stopped early by another than its creator, one chain leads to two worlds. */
module Witness {
  import opened Blocks
  import opened Forest
  import opened Hashes
  import opened Ledger
  import opened Lines
  import opened Runs
  import opened Steps
  import opened Sync
  import opened WorldState
  import opened Wrappers

  /* A rival first block wins */

  /** The creation of an account. */
  function Joining(name: string): Transaction {
    Transaction("id", CreateUserAccount(name), name, 0, 0, "signature")
  }

  /** Every block ever taken just creates the account. */
  ghost predicate JustJoins(blocks: BlockMap, name: string) {
    forall h :: h in blocks ==> blocks[h].transactions == [Joining(name)]
  }

  lemma LineJustJoins(hashAt: nat -> Hash, times: seq<nat>, name: string, s: State)
    requires HasJust(s, Line(hashAt, times, [Joining(name)]))
    ensures JustJoins(s.archive, name)
  {
    forall h | h in s.archive ensures s.archive[h].transactions == [Joining(name)] {
      var i := TakenAt(s, hashAt, times, [Joining(name)], h);
    }
  }

  lemma {:induction false} ReplayOfJoining(c: Crypto, blocks: BlockMap, hs: seq<Hash>, name: string)
    requires c.signed(Joining(name))
    requires forall h :: h in hs ==> h in blocks && blocks[h].transactions == [Joining(name)]
    ensures Replay(c, blocks, hs).world.accounts.Keys == if hs == [] then {} else {name}
  {
    if hs != [] {
      var n := |hs| - 1;
      ReplayOfJoining(c, blocks, hs[..n], name);
      JoiningOnce(c, blocks, Replay(c, blocks, hs[..n]), blocks[hs[n]].hash, name);
    }
  }

  lemma JoiningOnce(c: Crypto, blocks: BlockMap, p: Progress, h: Hash, name: string)
    requires c.signed(Joining(name))
    ensures ExecuteTransactions(c, blocks, p, [Joining(name)], h).world.accounts.Keys == p.world.accounts.Keys + {name}
  {
    var t := Joining(name);
    assert [t][..0] == [] && ExecuteTransactions(c, blocks, p, [t][..0], h) == p;
  }

  /** All confirmed blocks of a chain that was taken over from a peer come from there. */
  lemma TakenBlocksJoin(c: Crypto, s: State, p: State, name: string, h: Hash)
    requires Inv(c, s) && Inv(c, p) && NoClash(c, s, p) && s.archive.Keys !! p.archive.Keys
    requires JustJoins(p.archive, name) && h in p.chain && h in CatchUp(c, s, p).blocks
    ensures CatchUp(c, s, p).blocks[h].transactions == [Joining(name)]
  {
    var s' := CatchUp(c, s, p);
    NoClashMeansSameParents(c, s, p);
    var m := ExchangeStarts(c, s, p);
    BlocksAtFromChain(c, p, m);
    AcceptAllArchives(c, s, Served(s, p));
    assert s'.archive[h] == s'.blocks[h];
    ChainIsHeld(ParentsOf(p.blocks), p.chain, h);
    assert p.archive[h] == p.blocks[h];
    var i :| 0 <= i < |Served(s, p)| && Served(s, p)[i] == s'.blocks[h];
    assert p.archive[Served(s, p)[i].hash] == p.blocks[Served(s, p)[i].hash];
  }

  lemma ConfirmedJoin(c: Crypto, s: State, p: State, name: string)
    requires Inv(c, s) && Inv(c, p) && NoClash(c, s, p) && s.archive.Keys !! p.archive.Keys
    requires JustJoins(p.archive, name) && CatchUp(c, s, p).chain == p.chain && c.signed(Joining(name))
    ensures var s' := CatchUp(c, s, p);
            s'.committed <= |s'.chain| && Replay(c, s'.blocks, s'.chain[..s'.committed]).world.accounts.Keys <= {name}
  {
    var s' := CatchUp(c, s, p);
    var hs := s'.chain[..s'.committed];
    HeldStaysOnChain(c, s', hs);
    forall h | h in hs ensures s'.blocks[h].transactions == [Joining(name)] {
      TakenBlocksJoin(c, s, p, name, h);
    }
    ReplayOfJoining(c, s'.blocks, hs, name);
  }

  /** Who has joined by an execution stays. */
  lemma JoinedStays(c: Crypto, s: State, s': State, name: string)
    requires Inv(c, s) && Inv(c, s') && InSync(c, s) && Extends(s, s') && s.committed > 0
    requires JustJoins(s.archive, name) && c.signed(Joining(name))
    ensures name in s'.world.accounts
  {
    HeldStaysOnChain(c, s, s.executed);
    ReplayOfJoining(c, s.blocks, s.executed, name);
    assert name in s.Progress().world.accounts;
    AccountsStay(s.Progress(), s'.Progress(), name);
  }

  /** What was executed in s stays executed in s', which has another world than its confirmed chain. */
  ghost predicate IsOffReplay(c: Crypto, s: State, s': State) {
    && s.executed <= s'.executed
    && s'.committed <= |s'.chain|
    && s'.world != Replay(c, s'.blocks, s'.chain[..s'.committed]).world
  }

  /** A longer chain on another first block takes over. */
  lemma RivalTakesOver(c: Crypto, s: State, p: State)
    requires Inv(c, s) && Inv(c, p) && |p.chain| > |s.chain| >= 3 && s.archive.Keys !! p.archive.Keys
    ensures s.committed > 0 && CatchUp(c, s, p).chain == p.chain && p.chain[0] != s.chain[0]
    ensures Extends(s, CatchUp(c, s, p))
  {
    ChainIsArchived(c, s);
    ChainIsArchived(c, p);
    CatchUpSucceeds(c, s, p);
    AcceptAllExtends(c, s, Served(s, p));
  }

  /** ... and what was executed stays executed: the world is not the one that the new chain's
      confirmed blocks produce. */
  lemma RivalWins(c: Crypto, s: State, p: State, mine: string, other: string)
    requires Inv(c, s) && Inv(c, p) && InSync(c, s) && |p.chain| > |s.chain| >= 3
    requires s.archive.Keys !! p.archive.Keys && mine != other && c.signed(Joining(mine)) && c.signed(Joining(other))
    requires JustJoins(s.archive, mine) && JustJoins(p.archive, other)
    ensures s.committed > 0 && CatchUp(c, s, p).chain == p.chain && p.chain[0] != s.chain[0]
    ensures IsOffReplay(c, s, CatchUp(c, s, p))
  {
    RivalTakesOver(c, s, p);
    JoinedStays(c, s, CatchUp(c, s, p), mine);
    ConfirmedJoin(c, s, p, other);
  }

  /** first, first + 1, ..., n of them. */
  function Range(first: nat, n: nat): (times: seq<nat>)
    ensures |times| == n && forall i :: 0 <= i < n ==> times[i] == first + i
  {
    if n == 0 then [] else Range(first, n - 1) + [first + n - 1]
  }

  /** A run from the start in which a node takes m >= 3 blocks in line and then the chain of a peer that
      has more on another first block: what was executed by then is no longer on the chain and stays
      executed, accounts and auctions are not those of a replay of the confirmed chain, and a fresh
      node that takes over the same chain ends with others. */
  lemma FirstBlockCanChange(m: nat, n: nat) returns (c: Crypto, states: seq<State>, acts: seq<Action>)
    requires 3 <= m < n && m + n <= 256
    ensures IsRun(c, states, acts) && states[0] == INITIAL && m < |acts|
    ensures states[m].committed > 0 && InSync(c, states[m])
    ensures states[|acts|].chain != [] && states[|acts|].chain[0] != states[m].chain[0]
    ensures IsOffReplay(c, states[m], states[|acts|])
    ensures Inv(c, INITIAL)
    ensures FreshNodeDiffers(c, states[|acts|])
  {
    c := TimeCrypto();
    TimeCryptoFits();
    states, acts := RivalRun(c, HashAtTime, Range(0, m), Range(m, n));
  }

  lemma RivalRun(c: Crypto, hashAt: nat -> Hash, times: seq<nat>, times': seq<nat>)
    returns (states: seq<State>, acts: seq<Action>)
    requires Fits(c, hashAt) && AreTimes(times) && AreTimes(times') && 3 <= |times| < |times'|
    requires forall i, j :: 0 <= i < |times| && 0 <= j < |times'| ==> times[i] != times'[j]
    ensures IsRun(c, states, acts) && states[0] == INITIAL && |times| < |acts|
    ensures states[|times|].committed > 0 && InSync(c, states[|times|])
    ensures states[|acts|].chain != [] && states[|acts|].chain[0] != states[|times|].chain[0]
    ensures IsOffReplay(c, states[|times|], states[|acts|])
    ensures Inv(c, INITIAL) && FreshNodeDiffers(c, states[|acts|])
  {
    var p := TakeLine(c, hashAt, times', [Joining("bob")]);
    var x, a := LineRun(c, hashAt, times, [Joining("alice")]);
    LineWins(c, hashAt, x[|a|], p, times, times');
    states, acts := ExtendRun(c, x, a, Served(x[|a|], p));
  }

  lemma LineWins(c: Crypto, hashAt: nat -> Hash, s: State, p: State, times: seq<nat>, times': seq<nat>)
    requires Fits(c, hashAt) && AreTimes(times) && AreTimes(times') && 3 <= |times| < |times'|
    requires forall i, j :: 0 <= i < |times| && 0 <= j < |times'| ==> times[i] != times'[j]
    requires Inv(c, s) && InSync(c, s) && HasJust(s, Line(hashAt, times, [Joining("alice")]))
    requires Inv(c, p) && HasJust(p, Line(hashAt, times', [Joining("bob")]))
    ensures s.committed > 0 && CatchUp(c, s, p).chain != [] && CatchUp(c, s, p).chain[0] != s.chain[0]
    ensures IsOffReplay(c, s, CatchUp(c, s, p)) && Served(s, p) != []
    ensures Inv(c, INITIAL) && FreshNodeDiffers(c, CatchUp(c, s, p))
  {
    LinesAreDisjoint(s, p, hashAt, times, [Joining("alice")], times', [Joining("bob")]);
    LineJustJoins(hashAt, times, "alice", s);
    LineJustJoins(hashAt, times', "bob", p);
    LongerRivalWins(c, s, p);
  }

  lemma LongerRivalWins(c: Crypto, s: State, p: State)
    requires Inv(c, s) && Inv(c, p) && InSync(c, s) && |p.chain| > |s.chain| >= 3 && forall t :: c.signed(t)
    requires s.archive.Keys !! p.archive.Keys && JustJoins(s.archive, "alice") && JustJoins(p.archive, "bob")
    ensures s.committed > 0 && CatchUp(c, s, p).chain != [] && CatchUp(c, s, p).chain[0] != s.chain[0]
    ensures IsOffReplay(c, s, CatchUp(c, s, p)) && Served(s, p) != []
    ensures Inv(c, INITIAL) && FreshNodeDiffers(c, CatchUp(c, s, p))
  {
    InitialInv(c);
    RivalWins(c, s, p, "alice", "bob");
    FreshNodeConverges(c, CatchUp(c, s, p));
  }

  /** A fresh node that takes over the chain ends with another world. */
  ghost predicate FreshNodeDiffers(c: Crypto, p: State)
    requires Inv(c, INITIAL)
  {
    CatchUp(c, INITIAL, p).chain == p.chain && CatchUp(c, INITIAL, p).world != p.world
  }

  /* An executed block that is pruned */

  /** A block on the sentinel is never pruned. */
  lemma FirstBlockIsNotPruned(c: Crypto, s: State, h: Hash)
    requires Inv(c, s) && h in s.archive && s.archive[h].previousHash == ROOT
    ensures h !in s.pruned
  {
    SentinelIsNoBlock(c, s);
    RootIsNoBlock(ParentsOf(s.blocks));
    assert h in s.pruned ==> IsBuried(s, h);
  }

  /** Everything archived in an exchange was archived by one of the two nodes. */
  lemma ExchangeArchives(c: Crypto, r: State, p: State, h: Hash)
    requires Inv(c, r) && Inv(c, p) && NoClash(c, r, p) && h in CatchUp(c, r, p).archive
    ensures h in r.archive || h in p.archive
  {
    var r' := CatchUp(c, r, p);
    NoClashMeansSameParents(c, r, p);
    var m := ExchangeStarts(c, r, p);
    BlocksAtFromChain(c, p, m);
    AcceptAllArchives(c, r, Served(r, p));
    if h !in r.archive {
      var i :| 0 <= i < |Served(r, p)| && Served(r, p)[i] == r'.archive[h];
      assert p.blocks[Served(r, p)[i].hash] == Served(r, p)[i];
    }
  }

  /** r knows just the first block of p's chain and has another first block: it takes over the chain if
      that is longer. */
  lemma ForkWins(c: Crypto, r: State, p: State, first: Hash)
    requires Inv(c, r) && Inv(c, p) && |p.chain| > |r.chain| > 0 && p.chain[0] == first != r.chain[0]
    requires first in r.archive && first in p.archive && r.archive[first] == p.archive[first]
    requires forall h :: h in r.archive && h in p.archive ==> h == first
    ensures CatchUp(c, r, p).chain == p.chain && Extends(r, CatchUp(c, r, p))
  {
    PathAt(ParentsOf(p.blocks), p.chain, 0);
    assert p.archive[first] == p.blocks[first];
    FirstBlockIsNotPruned(c, r, first);
    ChainIsArchived(c, p);
    assert r.pruned <= r.archive.Keys;
    CatchUpSucceeds(c, r, p);
    AcceptAllExtends(c, r, Served(r, p));
  }

  /** A child of the first block off a chain of three or more is not held. */
  lemma SecondBlockIsPruned(c: Crypto, s: State, h: Hash)
    requires Inv(c, s) && |s.chain| >= 3 && h in s.archive && s.archive[h].previousHash == s.chain[0] && h != s.chain[1]
    ensures h !in s.blocks
  {
    if h in s.blocks {
      assert s.blocks[h] == s.archive[h];
      TrimmedOnlyChild(ParentsOf(s.blocks), s.chain, h, 0);
    }
  }

  const STEM: seq<nat> := [0, 1, 2, 3]
  const RIVAL: seq<nat> := [4, 5, 6, 7, 8]
  const FORK: seq<nat> := [0, 9, 10, 11, 12, 13]

  /** The times of four blocks, of five others, and of six of which the first is the first of the four. */
  ghost predicate AreForked(stem: seq<nat>, rival: seq<nat>, fork: seq<nat>) {
    && AreTimes(stem) && AreTimes(rival) && AreTimes(fork)
    && |stem| == 4 && |rival| == 5 && |fork| == 6 && stem[0] == fork[0]
    && (forall i, j :: 0 <= i < 4 && 0 <= j < 5 ==> stem[i] != rival[j])
    && (forall i, j :: 0 <= i < 5 && 0 <= j < 6 ==> rival[i] != fork[j])
    && (forall i, j :: 0 <= i < 4 && 0 <= j < 6 && stem[i] == fork[j] ==> i == 0 && j == 0)
  }

  /** The first two lines share no block, nor do the last two; the other two share just their first. */
  lemma LinesOverlap(s: State, x: State, p: State, hashAt: nat -> Hash,
                     stem: seq<nat>, rival: seq<nat>, fork: seq<nat>, ts: seq<Transaction>)
    requires AreForked(stem, rival, fork) && IsInjective(hashAt)
    requires HasJust(s, Line(hashAt, stem, ts)) && HasJust(x, Line(hashAt, rival, ts))
    requires HasJust(p, Line(hashAt, fork, ts))
    ensures s.archive.Keys !! x.archive.Keys && x.archive.Keys !! p.archive.Keys
    ensures forall h :: h in s.archive && h in p.archive ==> h == hashAt(stem[0])
  {
    LinesAreDisjoint(s, x, hashAt, stem, ts, rival, ts);
    LinesAreDisjoint(x, p, hashAt, rival, ts, fork, ts);
    forall h | h in s.archive && h in p.archive ensures h == hashAt(stem[0]) {
      var i, j := LinesMeet(s, p, hashAt, stem, ts, fork, ts, h);
    }
  }

  lemma LineStarts(s: State, p: State, hashAt: nat -> Hash,
                   stem: seq<nat>, rival: seq<nat>, fork: seq<nat>, ts: seq<Transaction>)
    requires AreForked(stem, rival, fork) && IsInjective(hashAt)
    requires HasJust(s, Line(hashAt, stem, ts)) && HasJust(p, Line(hashAt, fork, ts))
    ensures |s.chain| == 4 && |p.chain| == 6 && s.chain[0] == hashAt(stem[0]) == p.chain[0]
    ensures s.chain[1] == hashAt(stem[1]) != p.chain[1]
    ensures hashAt(stem[0]) in s.archive && hashAt(stem[0]) in p.archive
    ensures s.archive[hashAt(stem[0])] == p.archive[hashAt(stem[0])]
    ensures hashAt(stem[1]) in s.archive && s.archive[hashAt(stem[1])].previousHash == hashAt(stem[0])
  {
    ArchivedAt(s, hashAt, stem, ts, 0);
    ArchivedAt(s, hashAt, stem, ts, 1);
    ArchivedAt(p, hashAt, fork, ts, 0);
    ArchivedAt(p, hashAt, fork, ts, 1);
  }

  /** A node has taken four blocks in line, then takes five of a rival first block, then six that fork off
      from the first four after the first of these. */
  lemma ForkPrunes(c: Crypto, s: State, x: State, p: State, first: Hash, second: Hash)
    requires Inv(c, s) && InSync(c, s) && Inv(c, x) && Inv(c, p)
    requires |s.chain| == 4 && |x.chain| == 5 && |p.chain| == 6
    requires s.archive.Keys !! x.archive.Keys && x.archive.Keys !! p.archive.Keys
    requires forall h :: h in s.archive && h in p.archive ==> h == first
    requires first in s.archive && first in p.archive && s.archive[first] == p.archive[first] && p.chain[0] == first
    requires s.chain[1] == second != p.chain[1] && second in s.archive && s.archive[second].previousHash == first
    ensures second in CatchUp(c, CatchUp(c, s, x), p).executed
    ensures second !in CatchUp(c, CatchUp(c, s, x), p).blocks
  {
    var f := CatchUp(c, CatchUp(c, s, x), p);
    ForkTakesOver(c, s, x, p, first);
    assert s.executed[1] == second;
    SecondBlockIsPruned(c, f, second);
  }

  lemma ForkTakesOver(c: Crypto, s: State, x: State, p: State, first: Hash)
    requires Inv(c, s) && Inv(c, x) && Inv(c, p) && |p.chain| > |x.chain| > |s.chain| >= 3
    requires s.archive.Keys !! x.archive.Keys && x.archive.Keys !! p.archive.Keys
    requires forall h :: h in s.archive && h in p.archive ==> h == first
    requires first in s.archive && first in p.archive && s.archive[first] == p.archive[first] && p.chain[0] == first
    ensures var f := CatchUp(c, CatchUp(c, s, x), p);
            f.chain == p.chain && Extends(s, f)
  {
    var r := CatchUp(c, s, x);
    RivalTakesOver(c, s, x);
    ChainIsArchived(c, x);
    forall h | h in r.archive && h in p.archive ensures h == first {
      ExchangeArchives(c, s, x, h);
    }
    ForkWins(c, r, p, first);
    ExtendsTransitive(s, r, CatchUp(c, r, p));
  }

  /** Two changes of the first block can make the repair prune a block that was executed. */
  lemma ExecutedCanBePruned() returns (c: Crypto, states: seq<State>, acts: seq<Action>)
    ensures IsRun(c, states, acts) && states[0] == INITIAL
    ensures !HoldsExecuted(states[|acts|]) && !OverturnsAtMostOnce(c, states, acts)
  {
    c := TimeCrypto();
    TimeCryptoFits();
    states, acts := PruningRun(c, HashAtTime, STEM, RIVAL, FORK, [Joining("alice")]);
  }

  lemma PruningRun(c: Crypto, hashAt: nat -> Hash, stem: seq<nat>, rival: seq<nat>, fork: seq<nat>,
                   ts: seq<Transaction>)
    returns (states: seq<State>, acts: seq<Action>)
    requires Fits(c, hashAt) && AreForked(stem, rival, fork) && ts != []
    ensures IsRun(c, states, acts) && states[0] == INITIAL
    ensures !HoldsExecuted(states[|acts|]) && !OverturnsAtMostOnce(c, states, acts)
  {
    var x := TakeLine(c, hashAt, rival, ts);
    var p := TakeLine(c, hashAt, fork, ts);
    states, acts := LineRun(c, hashAt, stem, ts);
    ForkLines(c, hashAt, stem, rival, fork, ts, states[|acts|], x, p);
    states, acts := ForkRun(c, states, acts, x, p);
    if OverturnsAtMostOnce(c, states, acts) {
      ExecutedIsHeld(c, states, acts, |acts|);
    }
  }

  lemma ForkLines(c: Crypto, hashAt: nat -> Hash, stem: seq<nat>, rival: seq<nat>, fork: seq<nat>,
                  ts: seq<Transaction>, s: State, x: State, p: State)
    requires Fits(c, hashAt) && AreForked(stem, rival, fork)
    requires Inv(c, s) && InSync(c, s) && HasJust(s, Line(hashAt, stem, ts))
    requires Inv(c, x) && HasJust(x, Line(hashAt, rival, ts))
    requires Inv(c, p) && HasJust(p, Line(hashAt, fork, ts))
    ensures !HoldsExecuted(CatchUp(c, CatchUp(c, s, x), p))
  {
    LinesOverlap(s, x, p, hashAt, stem, rival, fork, ts);
    LineStarts(s, p, hashAt, stem, rival, fork, ts);
    ForkPrunes(c, s, x, p, hashAt(stem[0]), hashAt(stem[1]));
  }

  /** A run goes on with two exchanges. */
  lemma ForkRun(c: Crypto, states: seq<State>, acts: seq<Action>, x: State, p: State)
    returns (states': seq<State>, acts': seq<Action>)
    requires IsRun(c, states, acts) && Inv(c, states[|acts|])
    ensures IsRun(c, states', acts') && states'[0] == states[0]
    ensures states'[|acts'|] == CatchUp(c, CatchUp(c, states[|acts|], x), p)
  {
    var s := states[|acts|];
    states', acts' := ExtendRun(c, states, acts, Served(s, x));
    states', acts' := ExtendRun(c, states', acts', Served(CatchUp(c, s, x), p));
  }

  /* An auction stopped early by another than its creator */

  function Opening(sender: string, nonce: nat): Transaction {
    Transaction("id", CreateAuction("lot", 0, 1), sender, 0, nonce, "signature")
  }

  function Stopping(sender: string, nonce: nat): Transaction {
    Transaction("id", StopAuction("lot"), sender, 0, nonce, "signature")
  }

  /** Two records open the same auction. The first is rejected for its nonce, and its sender stops the
      auction that the second one opens. */
  const DISPUTED: seq<Transaction> :=
    [Joining("bob"), Joining("alice"), Opening("bob", 7), Opening("alice", 1), Stopping("bob", 1)]

  function DisputedSuccesses(h: Hash): seq<Success> {
    [Success(Joining("bob"), h), Success(Joining("alice"), h), Success(Opening("alice", 1), h),
     Success(Stopping("bob", 1), h)]
  }

  lemma ExecuteOneMore(c: Crypto, blocks: BlockMap, p: Progress, ts: seq<Transaction>, k: nat, h: Hash)
    requires k < |ts|
    ensures ExecuteTransactions(c, blocks, p, ts[..k + 1], h)
            == Step(c, blocks, ExecuteTransactions(c, blocks, p, ts[..k], h), ts[k], h)
  {
    assert ts[..k + 1][..k] == ts[..k];
  }

  lemma LotIsFound(c: Crypto, blocks: BlockMap, w: World, h: Hash)
    requires h in blocks && blocks[h].transactions == DISPUTED && "lot" in w.auctions && w.auctions["lot"].0 == h
    ensures GetAuction(blocks, w, "lot") == Some(Opening("bob", 7))
  {
    var ts := DISPUTED;
    assert FindCreation(ts, "lot") == FindCreation(ts[1..], "lot") == FindCreation(ts[1..][1..], "lot");
    assert ts[1..][1..][0] == Opening("bob", 7);
  }

  lemma BothJoin(c: Crypto, blocks: BlockMap, h: Hash)
    requires forall t :: t in DISPUTED ==> c.signed(t)
    ensures var accounts := map["bob" := Account("bob", 1), "alice" := Account("alice", 1)];
            ExecuteTransactions(c, blocks, START, DISPUTED[..2], h)
            == Progress(World(accounts, map[]), [Success(Joining("bob"), h), Success(Joining("alice"), h)])
  {
    assert DISPUTED[0] in DISPUTED && DISPUTED[1] in DISPUTED && DISPUTED[..0] == [];
    ExecuteOneMore(c, blocks, START, DISPUTED, 0, h);
    ExecuteOneMore(c, blocks, START, DISPUTED, 1, h);
  }

  lemma BobIsRejected(c: Crypto, blocks: BlockMap, h: Hash)
    requires forall t :: t in DISPUTED ==> c.signed(t)
    ensures ExecuteTransactions(c, blocks, START, DISPUTED[..3], h)
            == ExecuteTransactions(c, blocks, START, DISPUTED[..2], h)
  {
    assert DISPUTED[2] in DISPUTED;
    BothJoin(c, blocks, h);
    ExecuteOneMore(c, blocks, START, DISPUTED, 2, h);
  }

  lemma AliceOpens(c: Crypto, blocks: BlockMap, h: Hash)
    requires forall t :: t in DISPUTED ==> c.signed(t)
    ensures var accounts := map["bob" := Account("bob", 1), "alice" := Account("alice", 2)];
            ExecuteTransactions(c, blocks, START, DISPUTED[..4], h)
            == Progress(World(accounts, map["lot" := (h, 1)]), DisputedSuccesses(h)[..3])
  {
    assert DISPUTED[3] in DISPUTED;
    BothJoin(c, blocks, h);
    BobIsRejected(c, blocks, h);
    ExecuteOneMore(c, blocks, START, DISPUTED, 3, h);
  }

  lemma BobMayStop(c: Crypto, blocks: BlockMap, h: Hash, p: Progress)
    requires c.signed(Stopping("bob", 1)) && h in blocks && blocks[h].transactions == DISPUTED
    requires "lot" in p.world.auctions && p.world.auctions["lot"].0 == h
    requires "bob" in p.world.accounts && p.world.accounts["bob"].nonce == 1
    ensures Step(c, blocks, p, Stopping("bob", 1), h).journal == p.journal + [Success(Stopping("bob", 1), h)]
  {
    LotIsFound(c, blocks, p.world, h);
  }

  lemma BobStops(c: Crypto, blocks: BlockMap, h: Hash)
    requires forall t :: t in DISPUTED ==> c.signed(t)
    requires h in blocks && blocks[h].transactions == DISPUTED
    ensures ExecuteTransactions(c, blocks, START, DISPUTED, h).journal == DisputedSuccesses(h)
  {
    assert DISPUTED[4] in DISPUTED && DISPUTED[..5] == DISPUTED;
    AliceOpens(c, blocks, h);
    ExecuteOneMore(c, blocks, START, DISPUTED, 4, h);
    BobMayStop(c, blocks, h, ExecuteTransactions(c, blocks, START, DISPUTED[..4], h));
  }

  /** The world of a state that has executed just one block. */
  lemma FirstOfThreeExecuted(c: Crypto, s: State)
    requires |s.chain| == 3 && Inv(c, s) && InSync(c, s)
    ensures s.executed == [s.chain[0]] && s.chain[0] in s.blocks && s.chain[0] in s.archive
    ensures s.blocks[s.chain[0]] == s.archive[s.chain[0]]
    ensures s.Progress() == ExecuteTransactions(c, s.blocks, START, s.blocks[s.chain[0]].transactions, s.chain[0])
  {
    var h := s.chain[0];
    assert s.executed == [h];
    HeldStaysOnChain(c, s, s.executed);
    assert [h][..0] == [] && Replay(c, s.blocks, [h][..0]) == START;
  }

  lemma OneBlockExecuted(c: Crypto, s: State, hashAt: nat -> Hash, times: seq<nat>, ts: seq<Transaction>)
    requires |times| == 3 && HasJust(s, Line(hashAt, times, ts)) && Inv(c, s) && InSync(c, s)
    ensures s.executed == [hashAt(times[0])] && s.executed[0] in s.blocks
    ensures s.blocks[s.executed[0]].transactions == ts
    ensures s.Progress() == ExecuteTransactions(c, s.blocks, START, ts, s.executed[0])
  {
    ChainOfLine(s, hashAt, times, ts);
    FirstOfThreeExecuted(c, s);
    var i := TakenAt(s, hashAt, times, ts, s.chain[0]);
  }

  /** A run from the start, over three concrete blocks, in which an account holder stops another's auction
      before its stop time. */
  lemma OthersCanStopEarly() returns (c: Crypto, states: seq<State>, acts: seq<Action>)
    ensures IsRun(c, states, acts) && states[0] == INITIAL
    ensures InSync(c, states[|acts|]) && HoldsExecuted(states[|acts|])
    ensures EndsWithEarlyStop(states[|acts|].journal)
  {
    c := TimeCrypto();
    TimeCryptoFits();
    states, acts := DisputeRun(c, HashAtTime, [0, 1, 2]);
  }

  /** The last success stopped an auction early, and not its creator's. */
  ghost predicate EndsWithEarlyStop(journal: seq<Success>) {
    var n := |journal| - 1;
    && n >= 0
    && journal[n].t.record.StopAuction? && OpenedBefore(journal, n).Some?
    && IsEarlyStopByOther(OpenedBefore(journal, n).value.t, journal[n].t)
  }

  lemma DisputeRun(c: Crypto, hashAt: nat -> Hash, times: seq<nat>) returns (states: seq<State>, acts: seq<Action>)
    requires Fits(c, hashAt) && AreTimes(times) && |times| == 3
    ensures IsRun(c, states, acts) && states[0] == INITIAL
    ensures InSync(c, states[|acts|]) && HoldsExecuted(states[|acts|])
    ensures EndsWithEarlyStop(states[|acts|].journal)
  {
    states, acts := LineRun(c, hashAt, times, DISPUTED);
    forall blocks, h | IsBodyOf(blocks, h, DISPUTED) ensures EndsEarly(c, blocks, h, DISPUTED) {
      DisputeEndsEarly(c, blocks, ExecuteTransactions(c, blocks, START, DISPUTED, h), h);
    }
    DisputeIsExecuted(c, hashAt, times, DISPUTED, states[|acts|]);
  }

  ghost predicate IsBodyOf(blocks: BlockMap, h: Hash, ts: seq<Transaction>) {
    h in blocks && blocks[h].transactions == ts
  }

  ghost predicate EndsEarly(c: Crypto, blocks: BlockMap, h: Hash, ts: seq<Transaction>) {
    EndsWithEarlyStop(ExecuteTransactions(c, blocks, START, ts, h).journal)
  }

  lemma DisputeIsExecuted(c: Crypto, hashAt: nat -> Hash, times: seq<nat>, ts: seq<Transaction>, s: State)
    requires |times| == 3 && HasJust(s, Line(hashAt, times, ts)) && Inv(c, s) && InSync(c, s)
    requires forall blocks, h :: IsBodyOf(blocks, h, ts) ==> EndsEarly(c, blocks, h, ts)
    ensures HoldsExecuted(s) && EndsWithEarlyStop(s.journal)
  {
    OneBlockExecuted(c, s, hashAt, times, ts);
    assert IsBodyOf(s.blocks, s.executed[0], ts);
    assert s.Progress().journal == s.journal;
  }

  lemma DisputeEndsEarly(c: Crypto, blocks: BlockMap, p: Progress, h: Hash)
    requires h in blocks && blocks[h].transactions == DISPUTED && forall t :: c.signed(t)
    requires p == ExecuteTransactions(c, blocks, START, DISPUTED, h)
    ensures EndsWithEarlyStop(p.journal)
  {
    BobStops(c, blocks, h);
    OpenedByAlice(p.journal, h);
  }

  lemma OpenedByAlice(journal: seq<Success>, h: Hash)
    requires journal == DisputedSuccesses(h)
    ensures EndsWithEarlyStop(journal)
  {
    assert journal[..3][2] == Success(Opening("alice", 1), h);
  }

  /* One chain, two worlds */

  function Bidding(nonce: nat): Transaction {
    Transaction("id", Bid("lot", 1), "alice", 0, nonce, "signature")
  }

  const SHORT: seq<Transaction> :=
    [Joining("alice"), Joining("bob"), Joining("carol"), Joining("dave"), Bidding(2), Bidding(1)]

  const LONG: seq<Transaction> :=
    [Joining("alice"), Joining("bob"), Joining("carol"), Joining("dave"),
     Bidding(2), Bidding(1), Bidding(2), Bidding(1)]

  /** Alice's account with the given nonce. */
  predicate HasNonce(p: Progress, n: nat) {
    "alice" in p.world.accounts && p.world.accounts["alice"] == Account("alice", n)
  }

  lemma AliceJoins(c: Crypto, blocks: BlockMap, h: Hash)
    requires c.signed(Joining("alice"))
    ensures HasNonce(Step(c, blocks, START, Joining("alice"), h), 1)
  {
  }

  lemma OtherJoins(c: Crypto, blocks: BlockMap, p: Progress, name: string, h: Hash, n: nat)
    requires name != "alice" && HasNonce(p, n)
    ensures HasNonce(Step(c, blocks, p, Joining(name), h), n)
  {
  }

  lemma AliceBids(c: Crypto, blocks: BlockMap, p: Progress, nonce: nat, h: Hash, n: nat)
    requires c.signed(Bidding(nonce)) && HasNonce(p, n) && n < 10
    ensures HasNonce(Step(c, blocks, p, Bidding(nonce), h), if nonce == n then n + 1 else n)
  {
  }

  lemma AllJoin(c: Crypto, blocks: BlockMap, h: Hash)
    requires c.signed(Joining("alice"))
    ensures HasNonce(ExecuteTransactions(c, blocks, START, LONG[..4], h), 1)
  {
    assert LONG[..0] == [];
    AliceJoins(c, blocks, h);
    ExecuteOneMore(c, blocks, START, LONG, 0, h);
    OtherJoins(c, blocks, ExecuteTransactions(c, blocks, START, LONG[..1], h), "bob", h, 1);
    ExecuteOneMore(c, blocks, START, LONG, 1, h);
    OtherJoins(c, blocks, ExecuteTransactions(c, blocks, START, LONG[..2], h), "carol", h, 1);
    ExecuteOneMore(c, blocks, START, LONG, 2, h);
    OtherJoins(c, blocks, ExecuteTransactions(c, blocks, START, LONG[..3], h), "dave", h, 1);
    ExecuteOneMore(c, blocks, START, LONG, 3, h);
  }

  /** The bids come twice: in the wrong order only the second succeeds, and then the first. */
  lemma TwoBids(c: Crypto, blocks: BlockMap, h: Hash, k: nat, n: nat)
    requires (k == 4 && n == 1) || (k == 6 && n == 2)
    requires c.signed(Bidding(1)) && c.signed(Bidding(2))
    requires HasNonce(ExecuteTransactions(c, blocks, START, LONG[..k], h), n)
    ensures HasNonce(ExecuteTransactions(c, blocks, START, LONG[..k + 2], h), n + 1)
  {
    assert LONG[k] == Bidding(2) && LONG[k + 1] == Bidding(1);
    AliceBids(c, blocks, ExecuteTransactions(c, blocks, START, LONG[..k], h), 2, h, n);
    ExecuteOneMore(c, blocks, START, LONG, k, h);
    AliceBids(c, blocks, ExecuteTransactions(c, blocks, START, LONG[..k + 1], h), 1, h, if n == 2 then 3 else 1);
    ExecuteOneMore(c, blocks, START, LONG, k + 1, h);
  }

  lemma BodiesDiffer(c: Crypto, blocks: BlockMap, blocks': BlockMap, h: Hash)
    requires forall t :: c.signed(t)
    ensures ExecuteTransactions(c, blocks, START, SHORT, h).world
            != ExecuteTransactions(c, blocks', START, LONG, h).world
  {
    AllJoin(c, blocks, h);
    AllJoin(c, blocks', h);
    TwoBids(c, blocks, h, 4, 1);
    TwoBids(c, blocks', h, 4, 1);
    TwoBids(c, blocks', h, 6, 2);
    assert LONG[..6] == SHORT && LONG[..8] == LONG;
  }

  /** Whatever the hash functions, a checked block with the short body keeps its hash and passes the check
      with the long one, and executing it from nothing yields another world. */
  lemma SameHashOtherWorld(c: Crypto, b: Block, blocks: BlockMap, blocks': BlockMap)
    requires Verified(c, b) && b.transactions == SHORT && forall t :: c.signed(t)
    ensures Verified(c, b.(transactions := LONG))
    ensures ExecuteTransactions(c, blocks, START, b.transactions, b.hash).world
            != ExecuteTransactions(c, blocks', START, LONG, b.hash).world
  {
    BlocksAreMalleableByPairs(c, b);
    assert SHORT + SHORT[|SHORT| - 2..] == LONG;
    BodiesDiffer(c, blocks, blocks', b.hash);
  }

  /** Two runs from the start over concrete blocks, each with just its confirmed chain executed, that end on
      the same chain of hashes with different worlds. */
  lemma SameChainOtherWorld()
    returns (c: Crypto, states: seq<State>, acts: seq<Action>, states': seq<State>, acts': seq<Action>)
    ensures IsRun(c, states, acts) && states[0] == INITIAL && InSync(c, states[|acts|])
    ensures IsRun(c, states', acts') && states'[0] == INITIAL && InSync(c, states'[|acts'|])
    ensures states[|acts|].chain == states'[|acts'|].chain && states[|acts|].world != states'[|acts'|].world
  {
    c := TimeCrypto();
    TimeCryptoFits();
    states, acts, states', acts' := TwoRuns(c, HashAtTime, [0, 1, 2]);
  }

  lemma TwoRuns(c: Crypto, hashAt: nat -> Hash, times: seq<nat>)
    returns (states: seq<State>, acts: seq<Action>, states': seq<State>, acts': seq<Action>)
    requires Fits(c, hashAt) && AreTimes(times) && |times| == 3
    ensures IsRun(c, states, acts) && states[0] == INITIAL && InSync(c, states[|acts|])
    ensures IsRun(c, states', acts') && states'[0] == INITIAL && InSync(c, states'[|acts'|])
    ensures states[|acts|].chain == states'[|acts'|].chain && states[|acts|].world != states'[|acts'|].world
  {
    states, acts := LineRun(c, hashAt, times, SHORT);
    states', acts' := LineRun(c, hashAt, times, LONG);
    BodiesDisagree(c);
    WorldsDiffer(c, hashAt, times, SHORT, LONG, states[|acts|], states'[|acts'|]);
  }

  /** Executed from nothing, whatever is held, the two bodies lead to different worlds. */
  ghost predicate Disagree(c: Crypto, ts: seq<Transaction>, us: seq<Transaction>) {
    forall blocks, blocks', h ::
      ExecuteTransactions(c, blocks, START, ts, h).world != ExecuteTransactions(c, blocks', START, us, h).world
  }

  lemma BodiesDisagree(c: Crypto)
    requires forall t :: c.signed(t)
    ensures Disagree(c, SHORT, LONG)
  {
    forall blocks, blocks', h
      ensures ExecuteTransactions(c, blocks, START, SHORT, h).world
              != ExecuteTransactions(c, blocks', START, LONG, h).world
    {
      BodiesDiffer(c, blocks, blocks', h);
    }
  }

  lemma WorldsDiffer(c: Crypto, hashAt: nat -> Hash, times: seq<nat>, ts: seq<Transaction>, us: seq<Transaction>,
                     s: State, s': State)
    requires |times| == 3 && Disagree(c, ts, us)
    requires HasJust(s, Line(hashAt, times, ts)) && Inv(c, s) && InSync(c, s)
    requires HasJust(s', Line(hashAt, times, us)) && Inv(c, s') && InSync(c, s')
    ensures s.chain == s'.chain && s.world != s'.world
  {
    ChainOfLine(s, hashAt, times, ts);
    ChainOfLine(s', hashAt, times, us);
    OneBlockExecuted(c, s, hashAt, times, ts);
    OneBlockExecuted(c, s', hashAt, times, us);
    assert s.Progress().world != s'.Progress().world;
  }
}
