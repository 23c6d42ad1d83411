/** Lines of blocks, the runs in which nodes take them, and a family of concrete ones. */
module Lines {
  import opened Blocks
  import opened Hashes
  import opened Forest
  import opened Invariant
  import opened Ledger
  import Merkle
  import Pow
  import opened Runs
  import opened Steps
  import opened Sync
  import opened WorldState
  import opened Wrappers

  /** Blocks in which each one is the child of the one before, the first a child of the sentinel. */
  ghost predicate IsLinked(c: Crypto, bs: seq<Block>) {
    forall i {:trigger IsNextInLine(c, bs, i)} :: 0 <= i < |bs| ==> IsNextInLine(c, bs, i)
  }

  ghost predicate IsNextInLine(c: Crypto, bs: seq<Block>, i: nat)
    requires i < |bs|
  {
    && Verified(c, bs[i])
    && bs[i].previousHash == Tip(HashesOf(bs[..i]))
    && (forall j :: 0 <= j < i ==> bs[j].hash != bs[i].hash)
  }

  function HashesOf(bs: seq<Block>): (hs: seq<Hash>)
    ensures |hs| == |bs|
  {
    if bs == [] then [] else HashesOf(bs[..|bs| - 1]) + [bs[|bs| - 1].hash]
  }

  lemma {:induction false} HashAt(bs: seq<Block>, i: nat)
    requires i < |bs|
    ensures HashesOf(bs)[i] == bs[i].hash
  {
    if i < |bs| - 1 {
      HashAt(bs[..|bs| - 1], i);
    }
  }

  /** The state that has taken just the given blocks. */
  ghost predicate HasJust(s: State, bs: seq<Block>) {
    && s.chain == HashesOf(bs)
    && s.archive.Keys == Elements(HashesOf(bs))
    && forall h :: h in s.archive ==> s.archive[h] in bs && s.archive[h].hash == h
  }

  ghost predicate IsLineState(c: Crypto, s: State, bs: seq<Block>) {
    HasJust(s, bs) && InSync(c, s)
  }

  lemma HashesGrow(bs: seq<Block>, b: Block)
    ensures HashesOf(bs + [b]) == HashesOf(bs) + [b.hash]
    ensures Elements(HashesOf(bs + [b])) == Elements(HashesOf(bs)) + {b.hash}
  {
    assert (bs + [b])[..|bs|] == bs;
    assert HashesOf(bs + [b]) == HashesOf(bs) + [b.hash];
  }

  lemma NextInLineIsPushable(c: Crypto, s: State, b: Block)
    requires Inv(c, s) && Verified(c, b) && b.previousHash == Tip(s.chain) && b.hash !in s.archive
    ensures IsPushable(c, s, b) && Branch(s, b) == s.chain + [b.hash]
  {
    var up := ParentsOf(s.blocks);
    if s.chain != [] {
      ChainIsHeld(up, s.chain, Tip(s.chain));
    }
    PathToIs(up, s.chain);
  }

  lemma JustOneMore(s: State, s': State, bs: seq<Block>, b: Block, longer: seq<Block>)
    requires longer == bs + [b] && HasJust(s, bs)
    requires s'.chain == s.chain + [b.hash] && s'.archive == s.archive[b.hash := b]
    ensures HasJust(s', longer)
  {
    HashesGrow(bs, b);
    assert b in longer && forall x :: x in bs ==> x in longer;
  }

  lemma AcceptNextInLine(c: Crypto, s: State, bs: seq<Block>, b: Block, longer: seq<Block>)
    requires longer == bs + [b]
    requires Inv(c, s) && IsLineState(c, s, bs)
    requires Verified(c, b) && b.previousHash == Tip(HashesOf(bs)) && b.hash !in HashesOf(bs)
    ensures IsLineState(c, Next(c, s, Accept(b)), longer)
  {
    NextInLineIsPushed(c, s, b);
    JustOneMore(s, Next(c, s, Accept(b)), bs, b, longer);
    LineStaysInSync(c, s, b);
  }

  lemma LineStaysInSync(c: Crypto, s: State, b: Block)
    requires Inv(c, s) && InSync(c, s) && Next(c, s, Accept(b)).chain == s.chain + [b.hash]
    ensures InSync(c, Next(c, s, Accept(b)))
  {
    StepKeepsReplay(c, s, Accept(b));
  }

  lemma NextInLineIsPushed(c: Crypto, s: State, b: Block)
    requires Inv(c, s) && Verified(c, b) && b.previousHash == Tip(s.chain) && b.hash !in s.archive
    ensures Next(c, s, Accept(b)).chain == s.chain + [b.hash]
    ensures Next(c, s, Accept(b)).archive == s.archive[b.hash := b]
  {
    NextInLineIsPushable(c, s, b);
    JudgeExactly(c, s, b);
    ChainNeverShrinks(c, s, b);
  }

  lemma WholeOf(bs: seq<Block>)
    ensures bs[..|bs|] == bs && bs[|bs|..] == [] && bs[..0] == [] && bs[0..] == bs
  {
  }

  lemma {:induction false} AcceptLine(c: Crypto, bs: seq<Block>, s: State, j: nat)
    requires Inv(c, s) && j <= |bs| && IsLinked(c, bs) && IsLineState(c, s, bs[..j])
    ensures IsLineState(c, AcceptAll(c, s, bs[j..]), bs)
    decreases |bs| - j
  {
    if j == |bs| {
      WholeOf(bs);
    } else {
      LineStep(c, bs, s, j);
      AcceptAllUnfolds(c, s, bs, j);
      AcceptLine(c, bs, Next(c, s, Accept(bs[j])), j + 1);
    }
  }

  lemma TakeOneMore(bs: seq<Block>, j: nat)
    requires j < |bs|
    ensures bs[..j + 1] == bs[..j] + [bs[j]]
  {
  }

  lemma LineStep(c: Crypto, bs: seq<Block>, s: State, j: nat)
    requires Inv(c, s) && j < |bs| && IsLinked(c, bs) && IsLineState(c, s, bs[..j])
    ensures IsLineState(c, Next(c, s, Accept(bs[j])), bs[..j + 1])
  {
    NotYetInLine(c, bs, j);
    TakeOneMore(bs, j);
    AcceptNextInLine(c, s, bs[..j], bs[j], bs[..j + 1]);
  }

  lemma AcceptAllUnfolds(c: Crypto, s: State, bs: seq<Block>, j: nat)
    requires Inv(c, s) && j < |bs|
    ensures AcceptAll(c, s, bs[j..]) == AcceptAll(c, Next(c, s, Accept(bs[j])), bs[j + 1..])
  {
    assert bs[j..][0] == bs[j] && bs[j..][1..] == bs[j + 1..];
  }

  lemma NotYetInLine(c: Crypto, bs: seq<Block>, j: nat)
    requires IsLinked(c, bs) && j < |bs|
    ensures Verified(c, bs[j]) && bs[j].previousHash == Tip(HashesOf(bs[..j])) && bs[j].hash !in HashesOf(bs[..j])
  {
    assert IsNextInLine(c, bs, j);
    if bs[j].hash in HashesOf(bs[..j]) {
      var i :| 0 <= i < j && HashesOf(bs[..j])[i] == bs[j].hash;
      HashAt(bs[..j], i);
    }
  }

  /** The state of a node that has taken a line of blocks, from the start. */
  lemma LineState(c: Crypto, bs: seq<Block>)
    requires IsLinked(c, bs)
    ensures Inv(c, INITIAL) && HasJust(AcceptAll(c, INITIAL, bs), bs) && InSync(c, AcceptAll(c, INITIAL, bs))
  {
    InitialInSync(c);
    WholeOf(bs);
    AcceptLine(c, bs, INITIAL, 0);
  }

  /* Runs */

  /** The states that a node passes through when it accepts a list of blocks. */
  ghost function StatesOf(c: Crypto, s: State, bs: seq<Block>): (states: seq<State>)
    requires Inv(c, s)
    ensures |states| == |bs| + 1 && states[0] == s
    decreases |bs|
  {
    if bs == [] then [s] else [s] + StatesOf(c, Next(c, s, Accept(bs[0])), bs[1..])
  }

  lemma {:induction false} StatesAreRun(c: Crypto, s: State, bs: seq<Block>)
    requires Inv(c, s)
    ensures IsRun(c, StatesOf(c, s, bs), AcceptsOf(bs))
    ensures StatesOf(c, s, bs)[|bs|] == AcceptAll(c, s, bs)
    decreases |bs|
  {
    if bs != [] {
      var s1 := Next(c, s, Accept(bs[0]));
      StatesAreRun(c, s1, bs[1..]);
      OneStepRun(c, s, bs[0], s1);
      RunsJoin(c, [s, s1], [Accept(bs[0])], StatesOf(c, s1, bs[1..]), AcceptsOf(bs[1..]));
    }
  }

  lemma OneStepRun(c: Crypto, s: State, b: Block, s': State)
    requires Inv(c, s) && s' == Next(c, s, Accept(b))
    ensures IsRun(c, [s, s'], [Accept(b)]) && [s, s'][..1] == [s]
  {
    StepIsNext(c, s, Accept(b), s');
  }

  lemma RunsJoin(c: Crypto, x: seq<State>, a: seq<Action>, y: seq<State>, b: seq<Action>)
    requires IsRun(c, x, a) && IsRun(c, y, b) && x[|a|] == y[0]
    ensures IsRun(c, x[..|a|] + y, a + b)
  {
    var states, acts := x[..|a|] + y, a + b;
    forall i | 0 <= i < |acts| ensures IsStep(c, states[i], acts[i], states[i + 1]) {
      if i < |a| {
        assert acts[i] == a[i];
      } else {
        assert acts[i] == b[i - |a|];
      }
    }
  }

  /** A run goes on with the acceptance of a list of blocks. */
  lemma ExtendRun(c: Crypto, x: seq<State>, a: seq<Action>, bs: seq<Block>)
    returns (states: seq<State>, acts: seq<Action>)
    requires IsRun(c, x, a) && Inv(c, x[|a|])
    ensures IsRun(c, states, acts) && |acts| == |a| + |bs| && states[0] == x[0] && states[|a|] == x[|a|]
    ensures states[|acts|] == AcceptAll(c, x[|a|], bs)
  {
    var more := StatesOf(c, x[|a|], bs);
    StatesAreRun(c, x[|a|], bs);
    RunsJoin(c, x, a, more, AcceptsOf(bs));
    states, acts := x[..|a|] + more, a + AcceptsOf(bs);
  }

  /** What is archived is what was there, or was taken. */
  lemma {:induction false} AcceptAllArchives(c: Crypto, s: State, bs: seq<Block>)
    requires Inv(c, s)
    ensures forall h :: h in AcceptAll(c, s, bs).archive ==> h in s.archive || AcceptAll(c, s, bs).archive[h] in bs
    decreases |bs|
  {
    if bs != [] {
      var s1 := Next(c, s, Accept(bs[0]));
      var b := StepIsPush(c, s, Accept(bs[0]));
      AcceptAllArchives(c, s1, bs[1..]);
      AcceptAllExtends(c, s1, bs[1..]);
    }
  }

  lemma ChainIsArchived(c: Crypto, s: State)
    requires Inv(c, s)
    ensures forall i :: 0 <= i < |s.chain| ==> s.chain[i] in s.archive
  {
    forall i | 0 <= i < |s.chain| ensures s.chain[i] in s.archive {
      ChainIsHeld(ParentsOf(s.blocks), s.chain, s.chain[i]);
    }
  }

  /* Concrete blocks */

  function Zeros(n: nat): (bs: seq<byte>)
    ensures |bs| == n
  {
    if n == 0 then [] else [0] + Zeros(n - 1)
  }

  /** A digest that solves the puzzle and tells timestamps below 256 apart. */
  function TimeDigest(timestamp: nat): Digest {
    [0, 0, timestamp % 256] + Zeros(61)
  }

  function TimeCrypto(): Crypto {
    Crypto((h: Header) => TimeDigest(h.timestamp), (l: string, r: string) => "",
           (t: Transaction) => "", (t: Transaction) => true)
  }

  function HashAtTime(timestamp: nat): Hash {
    Encode(TimeDigest(timestamp))
  }

  function BlockAt(previous: Hash, hash: Hash, timestamp: nat, ts: seq<Transaction>): Block {
    Block(previous, ts, "", hash, 0, timestamp, "miner")
  }

  /** Blocks in line with the given timestamps and the hashes of those times, each with the same body. */
  function Line(hashAt: nat -> Hash, times: seq<nat>, ts: seq<Transaction>): (bs: seq<Block>)
    ensures |bs| == |times|
  {
    if times == [] then []
    else
      var n := |times| - 1;
      var previous := if n == 0 then ROOT else hashAt(times[n - 1]);
      Line(hashAt, times[..n], ts) + [BlockAt(previous, hashAt(times[n]), times[n], ts)]
  }

  lemma TimesAreToldApart(t: nat, u: nat)
    requires t < 256 && u < 256 && HashAtTime(t) == HashAtTime(u)
    ensures t == u
  {
    EncodeIsInjective(TimeDigest(t), TimeDigest(u));
    assert TimeDigest(t)[2] == t && TimeDigest(u)[2] == u;
  }

  ghost predicate IsConstant(pair: Merkle.PairHash) {
    forall l, r :: pair(l, r) == ""
  }

  ghost predicate IsBlank(row: seq<string>) {
    forall x :: x in row ==> x == ""
  }

  lemma {:induction false} LevelIsBlank(pair: Merkle.PairHash, row: seq<string>)
    requires IsConstant(pair)
    ensures IsBlank(Merkle.Level(pair, row))
  {
    if |row| > 1 {
      LevelIsBlank(pair, row[2..]);
    }
  }

  lemma {:induction false} AscendIsBlank(pair: Merkle.PairHash, row: seq<string>)
    requires IsConstant(pair) && row != [] && IsBlank(row)
    ensures Merkle.Ascend(pair, row) == ""
    decreases |row|
  {
    assert row[0] in row;
    if |row| > 1 {
      LevelIsBlank(pair, row);
      AscendIsBlank(pair, Merkle.Level(pair, row));
    }
  }

  lemma RootIsBlank(pair: Merkle.PairHash, leaves: seq<string>)
    requires IsConstant(pair) && leaves != []
    ensures Merkle.Root(pair, leaves) == Some("")
  {
    LevelIsBlank(pair, leaves);
    AscendIsBlank(pair, Merkle.Level(pair, leaves));
  }

  lemma TimeDigestSolves(time: nat)
    ensures Pow.Solves(TimeDigest(time))
  {
    Pow.TwoZeroBytes(TimeDigest(time), Pow.TARGET);
  }

  lemma BlockAtVerifies(previous: Hash, time: nat, ts: seq<Transaction>)
    requires ts != []
    ensures Verified(TimeCrypto(), BlockAt(previous, HashAtTime(time), time, ts))
  {
    RootIsBlank(TimeCrypto().pair, LeafHashes(TimeCrypto(), ts));
    TimeDigestSolves(time);
  }

  lemma {:induction false} LineAt(hashAt: nat -> Hash, times: seq<nat>, ts: seq<Transaction>, i: nat)
    requires i < |times|
    ensures var previous := if i == 0 then ROOT else hashAt(times[i - 1]);
            Line(hashAt, times, ts)[i] == BlockAt(previous, hashAt(times[i]), times[i], ts)
    ensures Line(hashAt, times, ts)[..i] == Line(hashAt, times[..i], ts)
  {
    var n := |times| - 1;
    if i < n {
      LineAt(hashAt, times[..n], ts, i);
      assert times[..n][..i] == times[..i];
      assert Line(hashAt, times, ts)[..i] == Line(hashAt, times[..n], ts)[..i];
    } else {
      assert Line(hashAt, times, ts)[..i] == Line(hashAt, times[..i], ts);
    }
  }

  lemma HashesOfLine(hashAt: nat -> Hash, times: seq<nat>, ts: seq<Transaction>, i: nat)
    requires i < |times|
    ensures HashesOf(Line(hashAt, times, ts))[i] == hashAt(times[i])
  {
    HashAt(Line(hashAt, times, ts), i);
    LineAt(hashAt, times, ts, i);
  }

  ghost predicate IsInjective(hashAt: nat -> Hash) {
    forall t: nat, u: nat :: t < 256 && u < 256 && hashAt(t) == hashAt(u) ==> t == u
  }

  ghost predicate AllVerify(c: Crypto, hashAt: nat -> Hash) {
    forall previous: Hash, time: nat, ts: seq<Transaction> ::
      ts != [] ==> Verified(c, BlockAt(previous, hashAt(time), time, ts))
  }

  ghost predicate AreTimes(times: seq<nat>) {
    && (forall i :: 0 <= i < |times| ==> times[i] < 256)
    && (forall i, j :: 0 <= i < j < |times| ==> times[i] != times[j])
  }

  /** Times below 256 have different hashes, everything verifies, and everything is signed. */
  ghost predicate Fits(c: Crypto, hashAt: nat -> Hash) {
    IsInjective(hashAt) && AllVerify(c, hashAt) && forall t :: c.signed(t)
  }

  lemma TimeCryptoFits()
    ensures Fits(TimeCrypto(), HashAtTime)
  {
    forall t: nat, u: nat | t < 256 && u < 256 && HashAtTime(t) == HashAtTime(u) ensures t == u {
      TimesAreToldApart(t, u);
    }
    forall previous: Hash, time: nat, ts: seq<Transaction> | ts != []
      ensures Verified(TimeCrypto(), BlockAt(previous, HashAtTime(time), time, ts))
    {
      BlockAtVerifies(previous, time, ts);
    }
  }

  lemma LineIsLinked(c: Crypto, hashAt: nat -> Hash, times: seq<nat>, ts: seq<Transaction>)
    requires AreTimes(times) && IsInjective(hashAt) && AllVerify(c, hashAt) && ts != []
    ensures IsLinked(c, Line(hashAt, times, ts))
  {
    var bs := Line(hashAt, times, ts);
    forall i | 0 <= i < |times| ensures IsNextInLine(c, bs, i) {
      LineAt(hashAt, times, ts, i);
      forall j | 0 <= j < i ensures bs[j].hash != bs[i].hash {
        LineAt(hashAt, times, ts, j);
      }
      if i > 0 {
        HashesOfLine(hashAt, times[..i], ts, i - 1);
      }
    }
  }

  /** Where a block comes from that a node has taken in line. */
  lemma TakenAt(s: State, hashAt: nat -> Hash, times: seq<nat>, ts: seq<Transaction>, h: Hash)
    returns (i: nat)
    requires HasJust(s, Line(hashAt, times, ts)) && h in s.archive
    ensures i < |times| && h == hashAt(times[i]) && s.archive[h].transactions == ts
    ensures var previous := if i == 0 then ROOT else hashAt(times[i - 1]);
            s.archive[h] == BlockAt(previous, h, times[i], ts)
  {
    var bs := Line(hashAt, times, ts);
    i :| 0 <= i < |bs| && bs[i] == s.archive[h];
    LineAt(hashAt, times, ts, i);
  }

  lemma JustAt(s: State, bs: seq<Block>, i: nat)
    requires HasJust(s, bs) && i < |bs|
    ensures |s.chain| == |bs| && s.chain[i] == bs[i].hash && bs[i].hash in s.archive
  {
    HashAt(bs, i);
    assert HashesOf(bs)[i] in Elements(HashesOf(bs));
  }

  lemma SameTime(hashAt: nat -> Hash, times: seq<nat>, i: nat, j: nat)
    requires AreTimes(times) && IsInjective(hashAt) && i < |times| && j < |times|
    requires hashAt(times[i]) == hashAt(times[j])
    ensures i == j
  {
  }

  lemma ArchivedAt(s: State, hashAt: nat -> Hash, times: seq<nat>, ts: seq<Transaction>, i: nat)
    requires HasJust(s, Line(hashAt, times, ts)) && AreTimes(times) && IsInjective(hashAt) && i < |times|
    ensures |s.chain| == |times| && s.chain[i] == hashAt(times[i]) && hashAt(times[i]) in s.archive
    ensures var previous := if i == 0 then ROOT else hashAt(times[i - 1]);
            s.archive[hashAt(times[i])] == BlockAt(previous, hashAt(times[i]), times[i], ts)
  {
    LineAt(hashAt, times, ts, i);
    JustAt(s, Line(hashAt, times, ts), i);
    var k := TakenAt(s, hashAt, times, ts, hashAt(times[i]));
    SameTime(hashAt, times, k, i);
  }

  /** A block that two lines share has a time that they share. */
  lemma LinesMeet(s: State, p: State, hashAt: nat -> Hash, times: seq<nat>, ts: seq<Transaction>,
                  times': seq<nat>, ts': seq<Transaction>, h: Hash)
    returns (i: nat, j: nat)
    requires HasJust(s, Line(hashAt, times, ts)) && AreTimes(times) && IsInjective(hashAt)
    requires HasJust(p, Line(hashAt, times', ts')) && AreTimes(times')
    requires h in s.archive && h in p.archive
    ensures i < |times| && j < |times'| && times[i] == times'[j] && h == hashAt(times[i])
  {
    i := TakenAt(s, hashAt, times, ts, h);
    j := TakenAt(p, hashAt, times', ts', h);
  }

  /** Two lines over different times share no block. */
  lemma LinesAreDisjoint(s: State, p: State, hashAt: nat -> Hash, times: seq<nat>, ts: seq<Transaction>,
                         times': seq<nat>, ts': seq<Transaction>)
    requires HasJust(s, Line(hashAt, times, ts)) && AreTimes(times) && IsInjective(hashAt)
    requires HasJust(p, Line(hashAt, times', ts')) && AreTimes(times')
    requires forall i, j :: 0 <= i < |times| && 0 <= j < |times'| ==> times[i] != times'[j]
    ensures s.archive.Keys !! p.archive.Keys
  {
    forall h | h in s.archive ensures h !in p.archive {
      if h in p.archive {
        var i, j := LinesMeet(s, p, hashAt, times, ts, times', ts', h);
        assert false;
      }
    }
  }

  /** A node that takes a line of concrete blocks. */
  lemma TakeLine(c: Crypto, hashAt: nat -> Hash, times: seq<nat>, ts: seq<Transaction>) returns (s: State)
    requires AreTimes(times) && IsInjective(hashAt) && AllVerify(c, hashAt) && ts != []
    ensures Inv(c, INITIAL) && s == AcceptAll(c, INITIAL, Line(hashAt, times, ts))
    ensures Inv(c, s) && HasJust(s, Line(hashAt, times, ts)) && InSync(c, s)
  {
    LineIsLinked(c, hashAt, times, ts);
    LineState(c, Line(hashAt, times, ts));
    s := AcceptAll(c, INITIAL, Line(hashAt, times, ts));
  }

  /** ... and the run in which it does so. */
  lemma LineRun(c: Crypto, hashAt: nat -> Hash, times: seq<nat>, ts: seq<Transaction>)
    returns (states: seq<State>, acts: seq<Action>)
    requires AreTimes(times) && IsInjective(hashAt) && AllVerify(c, hashAt) && ts != []
    ensures IsRun(c, states, acts) && states[0] == INITIAL && |acts| == |times|
    ensures Inv(c, states[|acts|]) && HasJust(states[|acts|], Line(hashAt, times, ts)) && InSync(c, states[|acts|])
  {
    var s := TakeLine(c, hashAt, times, ts);
    states, acts := ExtendRun(c, [INITIAL], [], Line(hashAt, times, ts));
  }

  lemma ChainOfLine(s: State, hashAt: nat -> Hash, times: seq<nat>, ts: seq<Transaction>)
    requires HasJust(s, Line(hashAt, times, ts))
    ensures |s.chain| == |times| && forall i :: 0 <= i < |times| ==> s.chain[i] == hashAt(times[i])
  {
    forall i | 0 <= i < |times| ensures s.chain[i] == hashAt(times[i]) {
      HashesOfLine(hashAt, times, ts, i);
    }
  }
}
