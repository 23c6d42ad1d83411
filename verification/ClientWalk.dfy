/** The client's read view: the first block, one block at a time, and the walk over confirmed blocks. */
module ClientWalk {
  import opened Blocks
  import opened Forest
  import opened Hashes
  import opened Ledger
  import opened Runs
  import opened Steps
  import opened WorldState
  import opened Wrappers

  /** The 32-bit reading of an unsigned count, and of a difference of such readings. */
  function AsI32(n: int): int {
    var m := n % U32;
    if m < U32 / 2 then m else m - U32
  }

  function FirstBlockHash(s: State): Option<Hash> {
    if AsI32(AsI32(s.committed) - EXECUTE_AFTER_N_BLOCKS) >= 0
    then (if s.chain == [] then None else Some(s.chain[0]))
    else None
  }

  function ConfirmedPrefix(chain: seq<Hash>): seq<Hash> {
    chain[..Confirmed(|chain|)]
  }

  function BlockFromHash(s: State, h: Hash): Option<Block> {
    if h in ConfirmedPrefix(s.chain) && h in s.blocks then Some(s.blocks[h]) else None
  }

  /** The place after the last occurrence of h. */
  function PlaceAfter(hs: seq<Hash>, h: Hash): Option<nat> {
    if hs == [] then None
    else if hs[|hs| - 1] == h then Some(|hs|)
    else PlaceAfter(hs[..|hs| - 1], h)
  }

  function NextBlockHash(s: State, h: Hash): Option<Hash> {
    match PlaceAfter(ConfirmedPrefix(s.chain), h)
    case Some(i) => if i < |s.chain| then Some(s.chain[i]) else None
    case None => None
  }

  /** When the two reads of a request happen, counted in states of a run. */
  datatype Times = Times(block: nat, next: nat)

  /** Requests follow one another, and so do the two reads of each. */
  ghost predicate IsSchedule(times: seq<Times>, from: nat, end: nat) {
    times == [] || (from <= times[0].block <= times[0].next < end && IsSchedule(times[1..], times[0].next, end))
  }

  /** The blocks that a client obtains that asks for h and then follows the next hashes, until it is
      told that a block is not available. */
  ghost function Walk(states: seq<State>, times: seq<Times>, from: nat, h: Hash): seq<Block>
    requires IsSchedule(times, from, |states|)
    decreases |times|
  {
    if times == [] then []
    else
      match BlockFromHash(states[times[0].block], h)
      case None => []
      case Some(b) =>
        match NextBlockHash(states[times[0].next], b.hash)
        case None => [b]
        case Some(h') => [b] + Walk(states, times[1..], times[0].next, h')
  }

  lemma {:induction false} PlaceAfterFinds(up: Parents, q: seq<Hash>, n: nat, i: nat)
    requires ROOT !in up && IsPath(up, q) && i < n <= |q|
    ensures PlaceAfter(q[..n], q[i]) == Some(i + 1)
  {
    if i < n - 1 {
      if q[n - 1] == q[i] {
        PathPosition(up, q, q, n - 1, i);
      }
      PlaceAfterFinds(up, q, n - 1, i);
      assert q[..n][..n - 1] == q[..n - 1];
    }
  }

  /** What one request sees, when both reads meet the same state: the i-th chain block is available
      exactly if it is confirmed, and then the hash after it is the next one on the chain. */
  lemma ReadAt(c: Crypto, s: State, i: nat)
    requires Inv(c, s) && i < |s.chain|
    ensures s.chain[i] in s.blocks && s.blocks[s.chain[i]].hash == s.chain[i]
    ensures BlockFromHash(s, s.chain[i]) == if i + 2 < |s.chain| then Some(s.blocks[s.chain[i]]) else None
    ensures i + 2 < |s.chain| ==> NextBlockHash(s, s.chain[i]) == Some(s.chain[i + 1])
  {
    var up := ParentsOf(s.blocks);
    var n := Confirmed(|s.chain|);
    RootIsNoBlock(up);
    PathAt(up, s.chain, i);
    HeldBlocks(c, s);
    if i < n {
      PlaceAfterFinds(up, s.chain, n, i);
      assert s.chain[..n][i] == s.chain[i];
    } else if s.chain[i] in s.chain[..n] {
      var j :| 0 <= j < n && s.chain[..n][j] == s.chain[i];
      PathPosition(up, s.chain, s.chain, i, j);
    }
  }

  /** What is available to clients: just the blocks with two successors on the chain, and no other one. */
  lemma ReadExactly(c: Crypto, s: State, h: Hash, b: Block, g: Hash)
    requires Inv(c, s)
    ensures BlockFromHash(s, h) == Some(b) <==>
              h in s.blocks && b == s.blocks[h] && exists i :: 0 <= i < |s.chain| - 2 && s.chain[i] == h
    ensures NextBlockHash(s, h) == Some(g) <==>
              exists i :: 0 <= i < |s.chain| - 2 && s.chain[i] == h && s.chain[i + 1] == g
  {
    if h in s.chain {
      var i :| 0 <= i < |s.chain| && s.chain[i] == h;
      ReadAt(c, s, i);
      OnlyPlace(c, s, i);
      if i + 2 >= |s.chain| {
        NotFound(ConfirmedPrefix(s.chain), h);
      }
    } else {
      NotFound(ConfirmedPrefix(s.chain), h);
    }
  }

  lemma OnlyPlace(c: Crypto, s: State, i: nat)
    requires Inv(c, s) && i < |s.chain|
    ensures forall j :: 0 <= j < |s.chain| && s.chain[j] == s.chain[i] ==> j == i
  {
    RootIsNoBlock(ParentsOf(s.blocks));
    forall j | 0 <= j < |s.chain| && s.chain[j] == s.chain[i] ensures j == i {
      PathPosition(ParentsOf(s.blocks), s.chain, s.chain, j, i);
    }
  }

  lemma {:induction false} NotFound(hs: seq<Hash>, h: Hash)
    requires h !in hs
    ensures PlaceAfter(hs, h) == None
  {
    if hs != [] {
      NotFound(hs[..|hs| - 1], h);
    }
  }

  /** A settled place of the chain keeps its hash over a run that keeps the first block. */
  lemma SettledPlaceStays(c: Crypto, states: seq<State>, acts: seq<Action>, t: nat, u: nat, i: nat)
    requires IsStableRun(c, states, acts) && Inv(c, states[0]) && t <= u < |states|
    requires states[t].committed > 0 && i < |states[t].chain| - 1
    ensures states[u].committed > 0 && i < |states[u].chain| - 1 && states[u].chain[i] == states[t].chain[i]
  {
    ConfirmedChainIsFinal(c, states, acts, t, u, states[t].chain[..i + 1]);
    RunExtends(c, states, acts, t, u);
    assert states[t].chain[..i + 1][i] == states[t].chain[i];
  }

  /** One request whose two reads may see different states. */
  lemma RequestFollowsChain(c: Crypto, states: seq<State>, acts: seq<Action>, t: nat, at: Times, i: nat)
    requires IsStableRun(c, states, acts) && Inv(c, states[0]) && t <= at.block <= at.next < |states|
    requires states[t].committed > 0 && i < |states[t].chain| - 1
    ensures match BlockFromHash(states[at.block], states[t].chain[i])
            case None => true
            case Some(b) => b.hash == states[t].chain[i]
                            && states[at.next].committed > 0 && i + 1 < |states[at.next].chain| - 1
                            && NextBlockHash(states[at.next], b.hash) == Some(states[at.next].chain[i + 1])
  {
    SettledPlaceStays(c, states, acts, t, at.block, i);
    InvThroughout(c, states, acts, at.block);
    ReadAt(c, states[at.block], i);
    if i + 2 < |states[at.block].chain| {
      SettledPlaceStays(c, states, acts, at.block, at.next, i);
      SettledPlaceStays(c, states, acts, at.block, at.next, i + 1);
      InvThroughout(c, states, acts, at.next);
      ReadAt(c, states[at.next], i);
    }
  }

  ghost predicate Follows(bs: seq<Block>, chain: seq<Hash>, i: nat) {
    i + |bs| <= |chain| && forall k :: 0 <= k < |bs| ==> bs[k].hash == chain[i + k]
  }

  lemma FollowsOneMore(b: Block, bs: seq<Block>, chain: seq<Hash>, i: nat)
    requires i < |chain| && b.hash == chain[i] && Follows(bs, chain, i + 1)
    ensures Follows([b] + bs, chain, i)
  {
    forall k | 0 <= k < |[b] + bs| ensures ([b] + bs)[k].hash == chain[i + k] {
      if k > 0 {
        assert ([b] + bs)[k] == bs[k - 1];
      }
    }
  }

  /** Whatever is accepted and proposed between its reads, a client that starts at a settled place of
      the chain obtains the blocks of the final chain from there on: none skipped, repeated or retracted. */
  lemma {:induction false} WalkFollowsChain(c: Crypto, states: seq<State>, acts: seq<Action>,
                                            times: seq<Times>, t: nat, i: nat)
    requires IsStableRun(c, states, acts) && Inv(c, states[0]) && t < |states| && IsSchedule(times, t, |states|)
    requires states[t].committed > 0 && i < |states[t].chain| - 1
    ensures Follows(Walk(states, times, t, states[t].chain[i]), states[|states| - 1].chain, i)
    decreases |times|
  {
    SettledPlaceStays(c, states, acts, t, |states| - 1, i);
    if times != [] {
      var u := times[0].next;
      var b := BlockFromHash(states[times[0].block], states[t].chain[i]);
      RequestFollowsChain(c, states, acts, t, times[0], i);
      if b.Some? {
        WalkFollowsChain(c, states, acts, times[1..], u, i + 1);
        FollowsOneMore(b.value, Walk(states, times[1..], u, states[u].chain[i + 1]), states[|states| - 1].chain, i);
      }
    }
  }

  /** n requests to a state at rest. */
  function AtRest(n: nat): (times: seq<Times>)
    ensures |times| == n && IsSchedule(times, 0, 1)
  {
    if n == 0 then [] else [Times(0, 0)] + AtRest(n - 1)
  }

  /** On a chain at rest, enough requests obtain all the confirmed blocks. */
  lemma {:induction false} WalkIsComplete(c: Crypto, s: State, i: nat, n: nat)
    requires Inv(c, s) && s.committed > 0 && i < |s.chain| - 1 && n + i >= s.committed
    ensures |Walk([s], AtRest(n), 0, s.chain[i])| == s.committed - i
    decreases n
  {
    if n > 0 {
      assert AtRest(n)[0] == Times(0, 0) && AtRest(n)[1..] == AtRest(n - 1);
      ReadAt(c, s, i);
      if i + 2 < |s.chain| {
        WalkIsComplete(c, s, i + 1, n - 1);
      }
    }
  }

  /** The first hash is handed out exactly while the count of executed blocks, modulo 2^32, is at least
      2 and below 2^31 + 2. */
  lemma FirstHashExactly(c: Crypto, s: State)
    requires Inv(c, s)
    ensures FirstBlockHash(s) == if 2 <= s.committed % U32 < U32 / 2 + 2 then Some(s.chain[0]) else None
  {
  }

  /** Starting from the first hash, a client enumerates exactly the confirmed blocks, in order. */
  lemma ClientEnumeratesConfirmed(c: Crypto, s: State)
    requires Inv(c, s) && FirstBlockHash(s).Some?
    ensures var bs := Walk([s], AtRest(s.committed), 0, FirstBlockHash(s).value);
            |bs| == s.committed && forall i :: 0 <= i < |bs| ==> bs[i].hash == s.chain[i]
  {
    FirstHashExactly(c, s);
    WalkIsComplete(c, s, 0, s.committed);
    WalkFollowsChain(c, [s], [], AtRest(s.committed), 0, 0);
  }
}
