/** Whole runs of the engine: tombstones, finality, the world as a replay of the executed prefix,
    and the shape that a repair leaves. */
module Runs {
  import opened Blocks
  import opened Forest
  import opened Hashes
  import opened Invariant
  import opened Ledger
  import opened Mempool
  import opened Steps
  import opened WorldState
  import opened Wrappers

  /** A run: each state and action lead to the next state. */
  ghost predicate IsRun(c: Crypto, states: seq<State>, acts: seq<Action>) {
    && |states| == |acts| + 1
    && forall i {:trigger acts[i]} :: 0 <= i < |acts| ==> IsStep(c, states[i], acts[i], states[i + 1])
  }

  /** The step keeps the first block, if anything has been executed. */
  ghost predicate KeepsFirstBlock(s: State, s': State) {
    s.committed > 0 ==> s.chain != [] && s'.chain != [] && s'.chain[0] == s.chain[0]
  }

  /** A run in which no step changes the first block once something has been executed. */
  ghost predicate IsStableRun(c: Crypto, states: seq<State>, acts: seq<Action>) {
    && IsRun(c, states, acts)
    && forall i {:trigger acts[i]} :: 0 <= i < |acts| ==> KeepsFirstBlock(states[i], states[i + 1])
  }

  /** Every state of a run has the invariant if the first one has. */
  lemma {:induction false} InvThroughout(c: Crypto, states: seq<State>, acts: seq<Action>, i: nat)
    requires IsRun(c, states, acts) && Inv(c, states[0]) && i < |states|
    ensures Inv(c, states[i])
  {
    if i > 0 {
      InvThroughout(c, states, acts, i - 1);
      StepIsNext(c, states[i - 1], acts[i - 1], states[i]);
    }
  }

  lemma StepOfRun(c: Crypto, states: seq<State>, acts: seq<Action>, i: nat)
    requires IsRun(c, states, acts) && Inv(c, states[0]) && i < |acts|
    ensures Inv(c, states[i]) && Inv(c, states[i + 1])
    ensures IsEnabled(c, states[i], acts[i]) && states[i + 1] == Next(c, states[i], acts[i])
  {
    InvThroughout(c, states, acts, i);
    InvThroughout(c, states, acts, i + 1);
    StepIsNext(c, states[i], acts[i], states[i + 1]);
  }

  lemma OneStepExtends(c: Crypto, states: seq<State>, acts: seq<Action>, i: nat)
    requires IsRun(c, states, acts) && Inv(c, states[0]) && i < |acts|
    ensures Extends(states[i], states[i + 1]) && |states[i].chain| <= |states[i + 1].chain|
  {
    StepOfRun(c, states, acts, i);
    StepExtends(c, states[i], acts[i]);
    StepKeepsChain(c, states[i], acts[i]);
  }

  /** Over any run the chain never gets shorter, the cursor never moves back, no tombstone is
      lifted, no block is ever replaced and no execution is undone. */
  lemma {:induction false} RunExtends(c: Crypto, states: seq<State>, acts: seq<Action>, i: nat, j: nat)
    requires IsRun(c, states, acts) && Inv(c, states[0]) && i <= j < |states|
    ensures Extends(states[i], states[j]) && |states[i].chain| <= |states[j].chain|
    decreases j - i
  {
    if i < j {
      RunExtends(c, states, acts, i, j - 1);
      OneStepExtends(c, states, acts, j - 1);
      ExtendsTransitive(states[i], states[j - 1], states[j]);
    }
  }

  lemma ExtendsTransitive(s: State, s1: State, s2: State)
    requires Extends(s, s1) && Extends(s1, s2)
    ensures Extends(s, s2)
  {
  }

  /** A tombstoned block never comes back, and every later attempt to add it is turned down. */
  lemma TombstonesArePermanent(c: Crypto, states: seq<State>, acts: seq<Action>, i: nat, j: nat, b: Block)
    requires IsRun(c, states, acts) && Inv(c, states[0]) && i <= j < |states| && b.hash in states[i].pruned
    ensures b.hash !in states[j].blocks
    ensures Verdict(c, states[j], b) == Some(AcceptError.Pruned)
  {
    InvThroughout(c, states, acts, j);
    RunExtends(c, states, acts, i, j);
  }

  lemma StepKeepsConfirmed(c: Crypto, s: State, a: Action)
    requires Inv(c, s) && IsEnabled(c, s, a) && KeepsFirstBlock(s, Next(c, s, a)) && s.committed > 0
    ensures var s' := Next(c, s, a);
            s'.committed > 0 && |s.chain| <= |s'.chain| && s.chain[..|s.chain| - 1] <= s'.chain
  {
    StepKeepsChain(c, s, a);
    StepExtends(c, s, a);
  }

  /** Whatever a step does, it keeps all of the chain but its tip exactly when it keeps the first block. */
  lemma FirstBlockDecides(c: Crypto, states: seq<State>, acts: seq<Action>, i: nat)
    requires IsRun(c, states, acts) && Inv(c, states[0]) && i + 1 < |states| && |states[i].chain| >= 2
    ensures |states[i + 1].chain| >= |states[i].chain|
    ensures (states[i].chain[..|states[i].chain| - 1] <= states[i + 1].chain)
              <==> (states[i + 1].chain[0] == states[i].chain[0])
  {
    StepOfRun(c, states, acts, i);
    StepKeepsChain(c, states[i], acts[i]);
  }

  lemma OneStepKeepsConfirmed(c: Crypto, states: seq<State>, acts: seq<Action>, i: nat)
    requires IsStableRun(c, states, acts) && Inv(c, states[0]) && i < |acts| && states[i].committed > 0
    ensures states[i + 1].committed > 0 && |states[i].chain| <= |states[i + 1].chain|
    ensures states[i].chain != [] && states[i].chain[..|states[i].chain| - 1] <= states[i + 1].chain
  {
    StepOfRun(c, states, acts, i);
    StepKeepsConfirmed(c, states[i], acts[i]);
  }

  /** Finality: in a run that keeps the first block, every proper prefix of the chain of a moment
      at which something has been executed stays a prefix of every later chain. */
  lemma {:induction false} ConfirmedChainIsFinal(c: Crypto, states: seq<State>, acts: seq<Action>,
                                                i: nat, j: nat, p: seq<Hash>)
    requires IsStableRun(c, states, acts) && Inv(c, states[0]) && i <= j < |states|
    requires states[i].committed > 0 && p <= states[i].chain && |p| < |states[i].chain|
    ensures states[j].committed > 0 && p <= states[j].chain && |p| < |states[j].chain|
    decreases j - i
  {
    if i < j {
      ConfirmedChainIsFinal(c, states, acts, i, j - 1, p);
      OneStepKeepsConfirmed(c, states, acts, j - 1);
    }
  }

  lemma AccountsStay(p: Progress, p': Progress, k: string)
    requires NonceLaw(p) && NonceLaw(p') && p.journal <= p'.journal && k in p.world.accounts
    ensures k in p'.world.accounts
  {
    assert NonceLawFor(p, k) && NonceLawFor(p', k);
    SuccessesMonotone(p'.journal, |p.journal|, |p'.journal|, k);
    assert p'.journal[..|p.journal|] == p.journal && p'.journal[..|p'.journal|] == p'.journal;
  }

  /** No account ever vanishes, so the pool stays in order while blocks come in. */
  lemma StepKeepsPoolInv(c: Crypto, s: State, a: Action, txs: Pending)
    requires Inv(c, s) && IsEnabled(c, s, a) && PoolInv(c, txs, s.world.accounts)
    ensures PoolInv(c, txs, Next(c, s, a).world.accounts)
  {
    StepExtends(c, s, a);
    forall i | i in txs && !txs[i].record.CreateUserAccount? ensures txs[i].sender in Next(c, s, a).world.accounts {
      AccountsStay(s.Progress(), Next(c, s, a).Progress(), txs[i].sender);
    }
  }

  /* The world is a replay */

  /** The executed blocks are the confirmed chain, each once and in order. */
  ghost predicate IsSettled(s: State) {
    s.committed <= |s.chain| && s.executed == s.chain[..s.committed]
  }

  /** Accounts, auctions and successes are what the executed blocks produce from nothing. */
  ghost predicate IsReplayed(c: Crypto, s: State) {
    s.Progress() == Replay(c, s.blocks, s.executed)
  }

  ghost predicate InSync(c: Crypto, s: State) {
    IsSettled(s) && IsReplayed(c, s)
  }

  /** No executed block has been pruned. */
  ghost predicate HoldsExecuted(s: State) {
    forall h :: h in s.executed ==> h in s.blocks
  }

  lemma HeldStaysOnChain(c: Crypto, s: State, hs: seq<Hash>)
    requires Inv(c, s) && hs <= s.chain
    ensures forall h :: h in hs ==>
              h in s.blocks && h in s.archive && s.blocks[h] == s.archive[h] && s.blocks[h].hash == h
  {
    forall h | h in hs ensures h in s.blocks && s.blocks[h] == s.archive[h] {
      ChainIsHeld(ParentsOf(s.blocks), s.chain, h);
    }
  }

  /** Executing on top of a replay is replaying more. */
  lemma ReplayGoesOn(c: Crypto, bs: BlockMap, bs': BlockMap, done: seq<Hash>, more: seq<Hash>)
    requires Agree(bs, bs', set h | h in done)
    ensures Execute(c, bs', Replay(c, bs, done), more) == Replay(c, bs', done + more)
  {
    ReplayFrame(c, bs, bs', done);
    ExecuteJoins(c, bs', START, done, more);
  }

  lemma SliceContinues(a: seq<Hash>, i: nat, j: nat)
    requires i <= j <= |a|
    ensures a[..i] + a[i..j] == a[..j]
  {
  }

  lemma PushKeepsReplayed(c: Crypto, s: State, b: Block)
    requires Inv(c, s) && IsPushable(c, s, b) && IsForest(ParentsOf(Insert(s, b).blocks)) && IsReplayed(c, s)
    requires Agree(s.blocks, Push(c, s, b).blocks, set h | h in s.executed)
    ensures IsReplayed(c, Push(c, s, b))
  {
    var s' := Push(c, s, b);
    PushExecutes(c, s, b);
    ReplayGoesOn(c, s.blocks, s'.blocks, s.executed, s'.chain[s.committed..s'.committed]);
  }

  /** Blocks held before and after a step are the same. */
  lemma HeldBlocksAgree(c: Crypto, s: State, s': State, hs: seq<Hash>)
    requires Inv(c, s) && Inv(c, s') && Extends(s, s')
    requires forall h :: h in hs ==> h in s.blocks && h in s'.blocks
    ensures Agree(s.blocks, s'.blocks, set h | h in hs)
  {
    HeldBlocks(c, s);
    HeldBlocks(c, s');
    forall h | h in hs ensures s.blocks[h] == s'.blocks[h] {
      assert s.archive[h] == s.blocks[h] && s'.archive[h] == s'.blocks[h];
    }
  }

  /** A step that prunes no executed block keeps the world a replay, whatever it does to the chain. */
  lemma StepKeepsReplayed(c: Crypto, s: State, a: Action)
    requires Inv(c, s) && IsEnabled(c, s, a) && IsReplayed(c, s)
    requires forall h :: h in s.executed ==> h in s.blocks && h in Next(c, s, a).blocks
    ensures IsReplayed(c, Next(c, s, a))
  {
    var b := StepIsPush(c, s, a);
    StepExtends(c, s, a);
    HeldBlocksAgree(c, s, Next(c, s, a), s.executed);
    if Next(c, s, a) != s {
      PushKeepsReplayed(c, s, b);
    }
  }

  lemma ExecutedIsArchived(c: Crypto, states: seq<State>, acts: seq<Action>, i: nat)
    requires IsRun(c, states, acts) && states[0] == INITIAL && i < |states|
    ensures forall h :: h in states[i].executed ==> h in states[i].archive
  {
    var s := states[i];
    RunExecutesByDepth(c, states, acts, i);
    forall k | 0 <= k < |s.executed| ensures s.executed[k] in s.archive {
      assert IsAtDepth(s, k);
    }
  }

  /** What is held now was held when it was executed. */
  lemma HeldBefore(c: Crypto, states: seq<State>, acts: seq<Action>, i: nat)
    requires IsRun(c, states, acts) && states[0] == INITIAL && i + 1 < |states| && HoldsExecuted(states[i + 1])
    ensures HoldsExecuted(states[i])
    ensures forall h :: h in states[i].executed ==> h in states[i + 1].blocks
  {
    InitialInv(c);
    OneStepExtends(c, states, acts, i);
    ExecutedIsArchived(c, states, acts, i);
    StepOfRun(c, states, acts, i);
  }

  lemma OneStepKeepsReplayed(c: Crypto, states: seq<State>, acts: seq<Action>, i: nat)
    requires IsRun(c, states, acts) && states[0] == INITIAL && i < |acts|
    requires IsReplayed(c, states[i]) && HoldsExecuted(states[i + 1])
    ensures IsReplayed(c, states[i + 1])
  {
    InitialInv(c);
    HeldBefore(c, states, acts, i);
    StepOfRun(c, states, acts, i);
    StepKeepsReplayed(c, states[i], acts[i]);
  }

  /** In every run from the start, also after a change of the first block, accounts and auctions are
      those of a replay of the executed blocks from nothing as long as none of these has been pruned. */
  lemma {:induction false} WorldIsReplayOfExecuted(c: Crypto, states: seq<State>, acts: seq<Action>, i: nat)
    requires IsRun(c, states, acts) && states[0] == INITIAL && i < |states| && HoldsExecuted(states[i])
    ensures Inv(c, states[i]) && IsReplayed(c, states[i])
  {
    InitialInv(c);
    InvThroughout(c, states, acts, i);
    if i > 0 {
      HeldBefore(c, states, acts, i - 1);
      WorldIsReplayOfExecuted(c, states, acts, i - 1);
      OneStepKeepsReplayed(c, states, acts, i - 1);
    }
  }

  /** ... so they are those of the confirmed chain whenever just that has been executed. */
  lemma SettledIsInSync(c: Crypto, states: seq<State>, acts: seq<Action>, i: nat)
    requires IsRun(c, states, acts) && states[0] == INITIAL && i < |states| && IsSettled(states[i])
    ensures Inv(c, states[i]) && InSync(c, states[i])
  {
    InitialInv(c);
    InvThroughout(c, states, acts, i);
    HeldStaysOnChain(c, states[i], states[i].executed);
    WorldIsReplayOfExecuted(c, states, acts, i);
  }

  /* When the executed blocks stay the confirmed chain */

  /** The step pushes a block that makes a rival first block win after something has been executed. */
  ghost predicate OverturnsExecuted(c: Crypto, s: State, a: Action) {
    && s.committed > 0
    && a.Accept?
    && IsPushable(c, s, a.b)
    && IsForest(ParentsOf(s.blocks))
    && Overturns(s, a.b)
  }

  lemma ProposalNeverOverturns(c: Crypto, s: State, m: Block)
    requires Inv(c, s) && IsProposal(c, s, m) && IsNode(ParentsOf(s.blocks), m.previousHash)
    ensures !Overturns(s, m)
  {
    PathToIs(ParentsOf(s.blocks), s.chain);
  }

  /** The first block changes exactly when the checks of a block pass and its branch overturns it. */
  lemma FirstBlockKeptExactly(c: Crypto, s: State, a: Action)
    requires Inv(c, s) && IsEnabled(c, s, a)
    ensures KeepsFirstBlock(s, Next(c, s, a)) <==> !OverturnsExecuted(c, s, a)
  {
    var b := StepIsPush(c, s, a);
    if s.committed > 0 && IsPushable(c, s, b) {
      InsertEffect(c, s, b);
      PrefixIsFinalExactly(c, s, b);
      if a.Propose? {
        ProposalNeverOverturns(c, s, b);
      } else {
        JudgeExactly(c, s, b);
      }
    }
  }

  lemma PushKeepsSettled(c: Crypto, s: State, b: Block)
    requires Inv(c, s) && IsPushable(c, s, b) && IsForest(ParentsOf(Insert(s, b).blocks))
    requires IsSettled(s) && s.executed <= Push(c, s, b).chain
    ensures IsSettled(Push(c, s, b))
  {
    PushExecutes(c, s, b);
    SliceContinues(Push(c, s, b).chain, s.committed, Push(c, s, b).committed);
  }

  lemma StepKeepsExecuted(c: Crypto, s: State, a: Action)
    requires Inv(c, s) && IsEnabled(c, s, a) && IsSettled(s) && KeepsFirstBlock(s, Next(c, s, a))
    ensures s.executed <= s.chain && s.executed <= Next(c, s, a).chain
  {
    if s.committed > 0 {
      StepKeepsConfirmed(c, s, a);
    }
  }

  lemma StepKeepsSettled(c: Crypto, s: State, a: Action)
    requires Inv(c, s) && IsEnabled(c, s, a) && IsSettled(s) && KeepsFirstBlock(s, Next(c, s, a))
    ensures IsSettled(Next(c, s, a))
  {
    var b := StepIsPush(c, s, a);
    StepKeepsExecuted(c, s, a);
    if Next(c, s, a) != s {
      PushKeepsSettled(c, s, b);
    }
  }

  lemma StepKeepsReplay(c: Crypto, s: State, a: Action)
    requires Inv(c, s) && IsEnabled(c, s, a) && InSync(c, s) && KeepsFirstBlock(s, Next(c, s, a))
    ensures InSync(c, Next(c, s, a))
  {
    StepKeepsSettled(c, s, a);
    StepKeepsExecuted(c, s, a);
    HeldStaysOnChain(c, s, s.executed);
    HeldStaysOnChain(c, Next(c, s, a), s.executed);
    StepKeepsReplayed(c, s, a);
  }

  /** A step leaves just the confirmed chain executed exactly when it does not overturn it; then
      accounts and auctions stay a replay of it. */
  lemma StepKeepsSettledExactly(c: Crypto, s: State, a: Action)
    requires Inv(c, s) && IsEnabled(c, s, a) && IsSettled(s)
    ensures IsSettled(Next(c, s, a)) <==> !OverturnsExecuted(c, s, a)
    ensures IsReplayed(c, s) && !OverturnsExecuted(c, s, a) ==> IsReplayed(c, Next(c, s, a))
  {
    FirstBlockKeptExactly(c, s, a);
    if !OverturnsExecuted(c, s, a) {
      StepKeepsSettled(c, s, a);
      if IsReplayed(c, s) {
        StepKeepsReplay(c, s, a);
      }
    } else {
      StepExtends(c, s, a);
      assert s.executed[0] == s.chain[0] && Next(c, s, a).executed[0] == s.executed[0];
    }
  }

  /** The same at any moment of a run. */
  lemma ConfirmedIsExecutedExactly(c: Crypto, states: seq<State>, acts: seq<Action>, i: nat)
    requires IsRun(c, states, acts) && states[0] == INITIAL && i + 1 < |states| && IsSettled(states[i])
    ensures Inv(c, states[i]) && InSync(c, states[i])
    ensures IsSettled(states[i + 1]) <==> !OverturnsExecuted(c, states[i], acts[i])
    ensures !OverturnsExecuted(c, states[i], acts[i]) ==> InSync(c, states[i + 1])
  {
    SettledIsInSync(c, states, acts, i);
    StepOfRun(c, states, acts, i);
    StepKeepsSettledExactly(c, states[i], acts[i]);
  }

  lemma OneStepKeepsSettled(c: Crypto, states: seq<State>, acts: seq<Action>, i: nat)
    requires IsStableRun(c, states, acts) && states[0] == INITIAL && i < |acts| && IsSettled(states[i])
    ensures IsSettled(states[i + 1])
  {
    InitialInv(c);
    StepOfRun(c, states, acts, i);
    StepKeepsSettled(c, states[i], acts[i]);
  }

  lemma {:induction false} StableIsSettled(c: Crypto, states: seq<State>, acts: seq<Action>, i: nat)
    requires IsStableRun(c, states, acts) && states[0] == INITIAL && i < |states|
    ensures IsSettled(states[i])
  {
    if i > 0 {
      StableIsSettled(c, states, acts, i - 1);
      OneStepKeepsSettled(c, states, acts, i - 1);
    }
  }

  /** In every run from the start that keeps the first block once something has been executed, the
      accounts and auctions are those of a replay of the confirmed chain from nothing. */
  lemma WorldRefinesReplay(c: Crypto, states: seq<State>, acts: seq<Action>, i: nat)
    requires IsStableRun(c, states, acts) && states[0] == INITIAL && i < |states|
    ensures Inv(c, states[i]) && InSync(c, states[i])
  {
    StableIsSettled(c, states, acts, i);
    SettledIsInSync(c, states, acts, i);
  }

  /** A run keeps the first block, once something has been executed, exactly when none of its steps
      overturns it, and exactly when all along just the confirmed chain has been executed. */
  lemma StableExactly(c: Crypto, states: seq<State>, acts: seq<Action>)
    requires IsRun(c, states, acts) && states[0] == INITIAL
    ensures IsStableRun(c, states, acts) <==> forall i :: 0 <= i < |acts| ==> !OverturnsExecuted(c, states[i], acts[i])
    ensures IsStableRun(c, states, acts) <==> forall i :: 0 <= i < |states| ==> IsSettled(states[i])
  {
    InitialInv(c);
    forall i | 0 <= i < |acts|
      ensures KeepsFirstBlock(states[i], states[i + 1]) <==> !OverturnsExecuted(c, states[i], acts[i])
      ensures IsSettled(states[i]) ==> (IsSettled(states[i + 1]) <==> KeepsFirstBlock(states[i], states[i + 1]))
    {
      StepOfRun(c, states, acts, i);
      FirstBlockKeptExactly(c, states[i], acts[i]);
      if IsSettled(states[i]) {
        StepKeepsSettledExactly(c, states[i], acts[i]);
      }
    }
    if IsStableRun(c, states, acts) {
      forall i | 0 <= i < |states| ensures IsSettled(states[i]) {
        StableIsSettled(c, states, acts, i);
      }
    }
  }

  lemma InitialInSync(c: Crypto)
    ensures Inv(c, INITIAL) && InSync(c, INITIAL)
  {
    InitialInv(c);
  }

  /** As long as no executed block has been pruned, the world is reached from the empty one by all the
      transactions of the executed blocks, one by one and in order, each of which changes the world if it
      succeeds and else does nothing; the journal holds just the successes. */
  lemma ExecutedOneByOne(c: Crypto, states: seq<State>, acts: seq<Action>, n: nat)
    returns (todo: seq<Success>, ends: seq<nat>, worlds: seq<World>, places: seq<nat>)
    requires IsRun(c, states, acts) && states[0] == INITIAL && n < |states| && HoldsExecuted(states[n])
    ensures IsListing(states[n].blocks, states[n].executed, todo, ends)
    ensures IsExecution(c, states[n].blocks, todo, worlds, places)
    ensures ArrivesAt(todo, worlds, places, states[n].Progress())
  {
    WorldIsReplayOfExecuted(c, states, acts, n);
    HeldBlocks(c, states[n]);
    todo, ends, worlds, places := ReplayUnfolds(c, states[n].blocks, states[n].executed);
  }

  /** Every block ever pushed, in any run, has done its work: its hash stands for a digest with at least 16
      leading zero bits. */
  lemma ArchivedIsSolved(c: Crypto, states: seq<State>, acts: seq<Action>, n: nat, h: Hash)
    requires IsRun(c, states, acts) && states[0] == INITIAL && n < |states| && h in states[n].archive
    ensures IsSolvedHash(h) && states[n].archive[h].hash == h && Verified(c, states[n].archive[h])
  {
    InitialInv(c);
    InvThroughout(c, states, acts, n);
    VerifiedExactly(c, states[n].archive[h]);
  }

  /* Auctions in runs */

  lemma HeldIsTraceable(c: Crypto, s: State)
    requires Inv(c, s) && HoldsExecuted(s) && IsReplayed(c, s)
    ensures Traceable(c, s.blocks, s.Progress())
  {
    HeldBlocks(c, s);
    ReplayIsTraceable(c, s.blocks, s.executed);
  }

  /** As long as no executed block has been pruned, every open auction is found again, in the block
      that holds its last successful creation. */
  lemma OpenAuctionsAreFound(c: Crypto, states: seq<State>, acts: seq<Action>, n: nat, id: string)
    requires IsRun(c, states, acts) && states[0] == INITIAL && n < |states| && HoldsExecuted(states[n])
    requires id in states[n].world.auctions
    ensures var s, last := states[n], LastEvent(states[n].journal, id);
            && last.Some? && last.value.t.record.CreateAuction? && last.value.block in s.blocks
            && last.value.t in s.blocks[last.value.block].transactions
            && GetAuction(s.blocks, s.world, id).Some?
            && GetAuction(s.blocks, s.world, id) == FindCreation(s.blocks[last.value.block].transactions, id)
  {
    WorldIsReplayOfExecuted(c, states, acts, n);
    HeldIsTraceable(c, states[n]);
    LookupFinds(c, states[n].blocks, states[n].Progress(), id);
  }

  /** Then a stop of an open auction succeeds exactly if it is signed, carries its sender's nonce, and
      passes the check against the first record of the auction in the block that created it. */
  lemma StopsSucceedExactly(c: Crypto, states: seq<State>, acts: seq<Action>, n: nat, t: Transaction, h: Hash)
    requires IsRun(c, states, acts) && states[0] == INITIAL && n < |states| && HoldsExecuted(states[n])
    requires t.record.StopAuction? && t.record.auctionId in states[n].world.auctions
    ensures LastEvent(states[n].journal, t.record.auctionId).Some?
    ensures var s, created := states[n], LastEvent(states[n].journal, t.record.auctionId).value.block;
            && created in s.blocks
            && (ApplyTransaction(c, s.blocks, s.world, t, h).Ok? <==>
                  && c.signed(t)
                  && t.sender in s.world.accounts && s.world.accounts[t.sender].nonce == t.nonce
                  && MayStop(s.blocks[created].transactions, t))
  {
    WorldIsReplayOfExecuted(c, states, acts, n);
    HeldIsTraceable(c, states[n]);
    StopSucceedsExactly(c, states[n].blocks, states[n].Progress(), t, h);
  }

  /** ... and no early stop by another than the creator can succeed exactly if the creator rules. */
  lemma OnlyCreatorsStopEarlyExactly(c: Crypto, states: seq<State>, acts: seq<Action>, n: nat, id: string, h: Hash)
    requires IsRun(c, states, acts) && states[0] == INITIAL && n < |states| && HoldsExecuted(states[n])
    requires id in states[n].world.auctions && HoldersCanSign(c, states[n].world, id)
    ensures var s, last := states[n], LastEvent(states[n].journal, id);
            && last.Some? && last.value.t.record.CreateAuction? && last.value.block in s.blocks
            && (NoEarlyStopByOther(c, s.blocks, s.world, last.value.t, h) <==>
                  CreatorRules(s.world.accounts, s.blocks[last.value.block].transactions, last.value.t))
  {
    WorldIsReplayOfExecuted(c, states, acts, n);
    HeldIsTraceable(c, states[n]);
    OnlyCreatorStopsEarlyExactly(c, states[n].blocks, states[n].Progress(), id, h);
  }

  /** Every stop of an open auction that succeeded had passed that check, against the first record of
      the auction in the block in which it was created. */
  lemma EarlyStopsAreRightful(c: Crypto, states: seq<State>, acts: seq<Action>, n: nat, i: nat)
    requires IsRun(c, states, acts) && states[0] == INITIAL && n < |states| && HoldsExecuted(states[n])
    requires i < |states[n].journal|
    ensures IsRightful(states[n].blocks, states[n].journal, i)
  {
    WorldIsReplayOfExecuted(c, states, acts, n);
    HeldIsTraceable(c, states[n]);
  }

  lemma SenderHasAccount(p: Progress, i: nat)
    requires NonceLaw(p) && i < |p.journal|
    ensures p.journal[i].t.sender in p.world.accounts
  {
    assert NonceLawFor(p, p.journal[i].t.sender);
    SuccessPosition(p.journal, i);
  }

  /** ... hence each early one came from the creator, if the creator rules. */
  lemma EarlyStopsAreTheCreators(c: Crypto, states: seq<State>, acts: seq<Action>, n: nat, i: nat)
    requires IsRun(c, states, acts) && states[0] == INITIAL && n < |states| && HoldsExecuted(states[n])
    requires i < |states[n].journal| && states[n].journal[i].t.record.StopAuction?
    requires OpenedBefore(states[n].journal, i).Some?
    ensures var s, t, created := states[n], states[n].journal[i].t, OpenedBefore(states[n].journal, i).value;
            && created.block in s.blocks
            && (CreatorRules(s.world.accounts, s.blocks[created.block].transactions, created.t) ==>
                  created.t.record.stopTime <= t.timestamp || created.t.sender == t.sender)
  {
    var s, t, created := states[n], states[n].journal[i].t, OpenedBefore(states[n].journal, i).value;
    EarlyStopsAreRightful(c, states, acts, n, i);
    InitialInv(c);
    InvThroughout(c, states, acts, n);
    SenderHasAccount(s.Progress(), i);
    var ts := s.blocks[created.block].transactions;
    if IsEarlyStopByOther(created.t, t) && CreatorRules(s.world.accounts, ts, created.t) {
      RuledStopIsNotEarly(s.world.accounts, ts, created.t, t);
    }
  }

  lemma StepKeepsTraces(c: Crypto, s: State, a: Action)
    requires Inv(c, s) && IsEnabled(c, s, a) && IsTraced(s.archive, s.Progress())
    ensures IsTraced(Next(c, s, a).archive, Next(c, s, a).Progress())
  {
    var s' := Next(c, s, a);
    var b := StepIsPush(c, s, a);
    StepExtends(c, s, a);
    if s' != s {
      PushExecutes(c, s, b);
      HeldBlocks(c, s');
      ExecutionIsTraced(c, s'.blocks, s'.archive, s.Progress(), s'.chain[s.committed..s'.committed]);
    }
  }

  lemma {:induction false} TracesAreKept(c: Crypto, states: seq<State>, acts: seq<Action>, n: nat)
    requires IsRun(c, states, acts) && states[0] == INITIAL && n < |states|
    ensures IsTraced(states[n].archive, states[n].Progress())
  {
    if n > 0 {
      InitialInv(c);
      TracesAreKept(c, states, acts, n - 1);
      StepOfRun(c, states, acts, n - 1);
      StepKeepsTraces(c, states[n - 1], acts[n - 1]);
    }
  }

  /* When executed blocks are held */

  /** The block is confirmed on the chain or lies below another first block. */
  ghost predicate IsSafe(s: State, h: Hash)
    requires IsForest(ParentsOf(s.blocks)) && s.committed <= |s.chain|
  {
    h in s.chain[..s.committed] || IsElsewhere(ParentsOf(s.blocks), s.chain, h)
  }

  ghost predicate ExecutedIsSafe(s: State)
    requires IsForest(ParentsOf(s.blocks)) && s.committed <= |s.chain|
  {
    forall h :: h in s.executed ==> IsSafe(s, h)
  }

  lemma SafeIsHeld(c: Crypto, s: State)
    requires Inv(c, s) && ExecutedIsSafe(s)
    ensures HoldsExecuted(s)
  {
    HeldStaysOnChain(c, s, s.chain[..s.committed]);
    forall h | h in s.executed ensures h in s.blocks {
      assert IsSafe(s, h);
    }
  }

  /** A held block below another first block than the new chain survives the push. */
  lemma PushSparesElsewhere(c: Crypto, s: State, b: Block, h: Hash)
    requires Inv(c, s) && IsPushable(c, s, b) && IsForest(ParentsOf(Insert(s, b).blocks)) && h in s.blocks
    requires IsElsewhere(ParentsOf(s.blocks), Push(c, s, b).chain, h)
    ensures IsForest(ParentsOf(Push(c, s, b).blocks))
    ensures IsElsewhere(ParentsOf(Push(c, s, b).blocks), Push(c, s, b).chain, h)
  {
    PushTree(c, s, b);
    InsertParents(s, b);
    PathToAfterInsert(ParentsOf(s.blocks), b.hash, b.previousHash, h);
    ElsewhereIsSpared(ParentsOf(Insert(s, b).blocks), Push(c, s, b).chain, h);
  }

  /** A confirmed block lies below the chain's first block. */
  lemma ConfirmedStarts(c: Crypto, s: State, h: Hash)
    requires Inv(c, s) && h in s.chain[..s.committed]
    ensures h in s.blocks && s.chain != []
    ensures PathTo(ParentsOf(s.blocks), h) != [] && PathTo(ParentsOf(s.blocks), h)[0] == s.chain[0]
  {
    var k :| 0 <= k < s.committed && s.chain[k] == h;
    PathAt(ParentsOf(s.blocks), s.chain, k);
    PathToIs(ParentsOf(s.blocks), s.chain[..k + 1]);
  }

  lemma PrefixOfPrefix(a: seq<Hash>, b: seq<Hash>, i: nat, j: nat)
    requires i < |a| && i <= j <= |b| && a[..|a| - 1] <= b
    ensures a[..i] <= b[..j]
  {
    assert a[..|a| - 1][..i] == a[..i] && b[..|a| - 1][..i] == b[..i];
  }

  lemma PushKeepsConfirmed(c: Crypto, s: State, b: Block)
    requires Inv(c, s) && IsPushable(c, s, b) && IsForest(ParentsOf(Insert(s, b).blocks)) && s.committed > 0
    ensures Push(c, s, b).chain != [] && s.committed <= Push(c, s, b).committed <= |Push(c, s, b).chain|
    ensures Push(c, s, b).chain[0] == s.chain[0] ==>
              s.chain[..s.committed] <= Push(c, s, b).chain[..Push(c, s, b).committed]
  {
    PushExecutes(c, s, b);
    PrefixIsFinalExactly(c, s, b);
    if Push(c, s, b).chain[0] == s.chain[0] {
      PrefixOfPrefix(s.chain, Push(c, s, b).chain, s.committed, Push(c, s, b).committed);
    }
  }

  /** What was safe stays so if the first block stays, or if it was confirmed on the chain. */
  lemma PushKeepsSafe(c: Crypto, s: State, b: Block, h: Hash)
    requires Inv(c, s) && IsPushable(c, s, b) && IsForest(ParentsOf(Insert(s, b).blocks))
    requires Inv(c, Push(c, s, b)) && IsSafe(s, h) && s.committed > 0
    requires KeepsFirstBlock(s, Push(c, s, b)) || h in s.chain[..s.committed]
    ensures IsSafe(Push(c, s, b), h)
  {
    PushKeepsConfirmed(c, s, b);
    if h in s.chain[..s.committed] {
      ConfirmedStarts(c, s, h);
    }
    if h !in s.chain[..s.committed] || Push(c, s, b).chain[0] != s.chain[0] {
      PushSparesElsewhere(c, s, b, h);
    }
  }

  lemma StepKeepsSafe(c: Crypto, s: State, a: Action)
    requires Inv(c, s) && IsEnabled(c, s, a) && ExecutedIsSafe(s)
    requires KeepsFirstBlock(s, Next(c, s, a)) || IsSettled(s)
    ensures ExecutedIsSafe(Next(c, s, a))
  {
    var s' := Next(c, s, a);
    var b := StepIsPush(c, s, a);
    if s' != s {
      PushExecutes(c, s, b);
      forall h | h in s'.executed ensures IsSafe(s', h) {
        if h in s.executed {
          assert IsSafe(s, h);
          PushKeepsSafe(c, s, b, h);
        } else {
          assert h in s'.chain[s.committed..s'.committed];
        }
      }
    }
  }

  /** No two steps of the run overturn what has been executed. */
  ghost predicate OverturnsAtMostOnce(c: Crypto, states: seq<State>, acts: seq<Action>)
    requires |states| > |acts|
  {
    forall i, j {:trigger acts[i], acts[j]} :: 0 <= i < j < |acts| && OverturnsExecuted(c, states[i], acts[i]) ==>
      !OverturnsExecuted(c, states[j], acts[j])
  }

  lemma {:induction false} SettledUntilOverturned(c: Crypto, states: seq<State>, acts: seq<Action>, n: nat)
    requires IsRun(c, states, acts) && states[0] == INITIAL && n < |states|
    requires forall i {:trigger acts[i]} :: 0 <= i < n ==> !OverturnsExecuted(c, states[i], acts[i])
    ensures IsSettled(states[n])
  {
    if n > 0 {
      SettledUntilOverturned(c, states, acts, n - 1);
      ConfirmedIsExecutedExactly(c, states, acts, n - 1);
    }
  }

  lemma OneStepKeepsSafe(c: Crypto, states: seq<State>, acts: seq<Action>, n: nat)
    requires IsRun(c, states, acts) && states[0] == INITIAL && n < |acts| && OverturnsAtMostOnce(c, states, acts)
    requires Inv(c, states[n]) && ExecutedIsSafe(states[n])
    ensures Inv(c, states[n + 1]) && ExecutedIsSafe(states[n + 1])
  {
    InitialInv(c);
    StepOfRun(c, states, acts, n);
    FirstBlockKeptExactly(c, states[n], acts[n]);
    if OverturnsExecuted(c, states[n], acts[n]) {
      SettledUntilOverturned(c, states, acts, n);
    }
    StepKeepsSafe(c, states[n], acts[n]);
  }

  lemma {:induction false} SafeThroughout(c: Crypto, states: seq<State>, acts: seq<Action>, n: nat)
    requires IsRun(c, states, acts) && states[0] == INITIAL && n < |states| && OverturnsAtMostOnce(c, states, acts)
    ensures Inv(c, states[n]) && ExecutedIsSafe(states[n])
  {
    if n == 0 {
      InitialInv(c);
    } else {
      SafeThroughout(c, states, acts, n - 1);
      OneStepKeepsSafe(c, states, acts, n - 1);
    }
  }

  /** In every run in which at most one step overturns what has been executed, no executed block is ever
      pruned, so that all that rests on this holds. */
  lemma ExecutedIsHeld(c: Crypto, states: seq<State>, acts: seq<Action>, n: nat)
    requires IsRun(c, states, acts) && states[0] == INITIAL && n < |states| && OverturnsAtMostOnce(c, states, acts)
    ensures HoldsExecuted(states[n]) && IsReplayed(c, states[n])
  {
    SafeThroughout(c, states, acts, n);
    SafeIsHeld(c, states[n]);
    WorldIsReplayOfExecuted(c, states, acts, n);
  }

  lemma InSyncMeansConfirmed(c: Crypto, s: State, k: nat)
    requires Inv(c, s) && InSync(c, s)
    ensures k < |s.executed| <==> k + 2 < |s.chain|
    ensures k < |s.executed| ==> s.executed[k] == s.chain[k]
  {
  }

  /** Each step of such a run executes just the blocks that it buries under a second successor. */
  lemma NewlyConfirmedAreExecuted(c: Crypto, states: seq<State>, acts: seq<Action>, i: nat, k: nat)
    requires IsStableRun(c, states, acts) && states[0] == INITIAL && i + 1 < |states|
    ensures k < |states[i + 1].executed| <==> k + 2 < |states[i + 1].chain|
    ensures k < |states[i].executed| <==> k + 2 < |states[i].chain|
    ensures k < |states[i + 1].executed| ==> states[i + 1].executed[k] == states[i + 1].chain[k]
    ensures states[i].executed <= states[i + 1].executed
  {
    WorldRefinesReplay(c, states, acts, i);
    WorldRefinesReplay(c, states, acts, i + 1);
    InSyncMeansConfirmed(c, states[i], k);
    InSyncMeansConfirmed(c, states[i + 1], k);
    OneStepExtends(c, states, acts, i);
  }

  /** The executed blocks, each at the depth of its place in the order of execution. */
  ghost predicate ExecutedByDepth(s: State) {
    forall k {:trigger IsAtDepth(s, k)} :: 0 <= k < |s.executed| ==> IsAtDepth(s, k)
  }

  ghost predicate IsAtDepth(s: State, k: nat)
    requires k < |s.executed|
  {
    exists p :: IsPathTo(ParentsOf(s.archive), p, s.executed[k]) && |p| == k + 1
  }

  lemma {:induction false} PathInLarger(up: Parents, up': Parents, p: seq<Hash>)
    requires IsPath(up, p) && forall h :: h in up ==> h in up' && up'[h] == up[h]
    ensures IsPath(up', p)
  {
    if p != [] {
      PathInLarger(up, up', Init(p));
    }
  }

  lemma ArchiveParents(s: State, s': State)
    requires Extends(s, s')
    ensures forall h :: h in ParentsOf(s.archive) ==>
              h in ParentsOf(s'.archive) && ParentsOf(s'.archive)[h] == ParentsOf(s.archive)[h]
  {
  }

  lemma ChainPathInArchive(c: Crypto, s: State, k: nat)
    requires Inv(c, s) && k < |s.chain|
    ensures IsPathTo(ParentsOf(s.archive), s.chain[..k + 1], s.chain[k])
  {
    PathAt(ParentsOf(s.blocks), s.chain, k);
    forall h | h in s.blocks ensures h in s.archive && s.archive[h] == s.blocks[h] {
    }
    PathInLarger(ParentsOf(s.blocks), ParentsOf(s.archive), s.chain[..k + 1]);
  }

  lemma DepthStays(s: State, s': State, k: nat)
    requires Extends(s, s') && k < |s.executed| && IsAtDepth(s, k)
    ensures IsAtDepth(s', k)
  {
    var p :| IsPathTo(ParentsOf(s.archive), p, s.executed[k]) && |p| == k + 1;
    ArchiveParents(s, s');
    PathInLarger(ParentsOf(s.archive), ParentsOf(s'.archive), p);
    assert IsPathTo(ParentsOf(s'.archive), p, s'.executed[k]);
  }

  lemma StepExecutesByDepth(c: Crypto, s: State, a: Action)
    requires Inv(c, s) && IsEnabled(c, s, a) && ExecutedByDepth(s)
    ensures ExecutedByDepth(Next(c, s, a))
  {
    var s' := Next(c, s, a);
    StepExtends(c, s, a);
    forall k | 0 <= k < |s'.executed| ensures IsAtDepth(s', k) {
      if k < |s.executed| {
        DepthStays(s, s', k);
      } else {
        NewlyExecutedAtDepth(c, s, a, k);
      }
    }
  }

  lemma NewlyExecutedAtDepth(c: Crypto, s: State, a: Action, k: nat)
    requires Inv(c, s) && IsEnabled(c, s, a) && |s.executed| <= k < |Next(c, s, a).executed|
    ensures IsAtDepth(Next(c, s, a), k)
  {
    NewlyExecutedIsOnChain(c, s, a, k);
    ChainPathInArchive(c, Next(c, s, a), k);
  }

  lemma NewlyExecutedIsOnChain(c: Crypto, s: State, a: Action, k: nat)
    requires Inv(c, s) && IsEnabled(c, s, a) && |s.executed| <= k < |Next(c, s, a).executed|
    ensures k < |Next(c, s, a).chain| && Next(c, s, a).executed[k] == Next(c, s, a).chain[k]
  {
    var b := StepIsPush(c, s, a);
    PushExecutes(c, s, b);
    AppendedAt(s.executed, Push(c, s, b).chain, Push(c, s, b).committed, k);
  }

  lemma AppendedAt(a: seq<Hash>, b: seq<Hash>, n: nat, k: nat)
    requires |a| <= k < n <= |b|
    ensures (a + b[|a|..n])[k] == b[k]
  {
  }

  lemma {:induction false} RunExecutesByDepth(c: Crypto, states: seq<State>, acts: seq<Action>, i: nat)
    requires IsRun(c, states, acts) && states[0] == INITIAL && i < |states|
    ensures ExecutedByDepth(states[i])
  {
    if i > 0 {
      RunExecutesByDepth(c, states, acts, i - 1);
      OneStepExecutesByDepth(c, states, acts, i - 1);
    }
  }

  lemma OneStepExecutesByDepth(c: Crypto, states: seq<State>, acts: seq<Action>, i: nat)
    requires IsRun(c, states, acts) && states[0] == INITIAL && i < |acts| && ExecutedByDepth(states[i])
    ensures ExecutedByDepth(states[i + 1])
  {
    InitialInv(c);
    StepOfRun(c, states, acts, i);
    StepExecutesByDepth(c, states[i], acts[i]);
  }

  lemma DepthTellsApart(c: Crypto, s: State, i: nat, j: nat)
    requires Inv(c, s) && ExecutedByDepth(s) && i < j < |s.executed|
    ensures s.executed[i] != s.executed[j]
  {
    assert IsAtDepth(s, i) && IsAtDepth(s, j);
    SentinelIsNoBlock(c, s);
    var up := ParentsOf(s.archive);
    var p :| IsPathTo(up, p, s.executed[i]) && |p| == i + 1;
    var q :| IsPathTo(up, q, s.executed[j]) && |q| == j + 1;
    if s.executed[i] == s.executed[j] {
      PathUnique(up, p, q);
    }
  }

  /** In no run, whatever happens to the first block, is a block executed twice. */
  lemma NoBlockExecutesTwice(c: Crypto, states: seq<State>, acts: seq<Action>, n: nat, i: nat, j: nat)
    requires IsRun(c, states, acts) && states[0] == INITIAL && n < |states| && i < j < |states[n].executed|
    ensures states[n].executed[i] != states[n].executed[j]
  {
    InitialInv(c);
    InvThroughout(c, states, acts, n);
    RunExecutesByDepth(c, states, acts, n);
    DepthTellsApart(c, states[n], i, j);
  }

  /* Repair */

  /** A second repair changes nothing. */
  lemma FixIsIdempotent(c: Crypto, s: State)
    requires Inv(c, s)
    ensures Fix(c, s) == s
  {
    var up := ParentsOf(s.blocks);
    BestUnique(up, Best(up), s.chain);
    TrimmedHasNoDoomed(up, s.chain);
    assert s.blocks - {} == s.blocks;
    assert s.chain[s.committed..s.committed] == [];
  }

  /** After every step a chain block before the last two has one child, its successor, and every
      other block that descends from the chain's first block is a childless sibling of the tip. */
  lemma ShapeAfterEveryStep(c: Crypto, s: State, h: Hash)
    requires Inv(c, s) && h in s.blocks
    ensures var up := ParentsOf(s.blocks);
            && (forall i :: 0 <= i < |s.chain| - 2 && up[h] == s.chain[i] ==> h == s.chain[i + 1])
            && (h !in s.chain && s.chain != [] && [s.chain[0]] <= PathTo(up, h) ==>
                  |s.chain| >= 2 && up[h] == s.chain[|s.chain| - 2] && IsLeaf(up, h))
  {
    var up := ParentsOf(s.blocks);
    forall i | 0 <= i < |s.chain| - 2 && up[h] == s.chain[i] ensures h == s.chain[i + 1] {
      TrimmedOnlyChild(up, s.chain, h, i);
    }
    if h !in s.chain && s.chain != [] && [s.chain[0]] <= PathTo(up, h) {
      OffChainIsSibling(up, s.chain, h);
    }
  }

  lemma OffChainIsSibling(up: Parents, c: seq<Hash>, h: Hash)
    requires IsForest(up) && IsBest(up, c) && IsTrimmed(up, c) && h in up && h !in c && c != []
    requires PathTo(up, h) != [] && PathTo(up, h)[0] == c[0]
    ensures |c| >= 2 && up[h] == c[|c| - 2] && IsLeaf(up, h)
  {
    var p := PathTo(up, h);
    var n, m := |c|, |p|;
    assert AtLeast(c, p);
    if m < n {
      TrimmedPathFollows(up, c, p, m - 1);
    } else {
      assert m > 1;
      TrimmedPathFollows(up, c, p, m - 2);
      PathAt(up, p, m - 1);
      LongestEndsInLeaf(up, c, p);
    }
  }

  /** Over any run, whatever happens to the first block: a sender's successes carry the nonces
      0, 1, 2, ... modulo 2^32, the first of them being its account's creation. */
  lemma NonceAccounting(c: Crypto, states: seq<State>, acts: seq<Action>, n: nat, a: string)
    requires IsRun(c, states, acts) && states[0] == INITIAL && n < |states|
    ensures NonceLawFor(states[n].Progress(), a)
  {
    InitialInv(c);
    InvThroughout(c, states, acts, n);
  }

  /** ... so no pair of sender and nonce succeeds twice before the counter wraps. */
  lemma NoPairSucceedsTwice(c: Crypto, states: seq<State>, acts: seq<Action>, n: nat, i: nat, j: nat)
    requires IsRun(c, states, acts) && states[0] == INITIAL && n < |states|
    requires i < j < |states[n].journal|
    requires states[n].journal[i].t.sender == states[n].journal[j].t.sender
    requires |SuccessesOf(states[n].journal, states[n].journal[i].t.sender)| <= U32
    ensures states[n].journal[i].t.nonce != states[n].journal[j].t.nonce
  {
    InitialInv(c);
    InvThroughout(c, states, acts, n);
    if states[n].journal[i].t.nonce == states[n].journal[j].t.nonce {
      NoReplay(states[n].Progress(), i, j);
    }
  }

  /** In every run all that succeeded was signed and stems from a block that was pushed, and an auction is
      open exactly if the last successful event of it opened it, with the block of that event on record. */
  lemma AuctionAccounting(c: Crypto, states: seq<State>, acts: seq<Action>, n: nat, id: string)
    requires IsRun(c, states, acts) && states[0] == INITIAL && n < |states|
    ensures AuctionLawFor(states[n].Progress(), id)
    ensures IsTraced(states[n].archive, states[n].Progress())
    ensures forall e :: e in states[n].journal ==> c.signed(e.t)
  {
    InitialInv(c);
    InvThroughout(c, states, acts, n);
    TracesAreKept(c, states, acts, n);
  }

  /** No account ever vanishes, on which the order of the pool rests. */
  lemma AccountsStayThroughout(c: Crypto, states: seq<State>, acts: seq<Action>, i: nat, j: nat, a: string)
    requires IsRun(c, states, acts) && Inv(c, states[0]) && i <= j < |states| && a in states[i].world.accounts
    ensures a in states[j].world.accounts
  {
    InvThroughout(c, states, acts, i);
    InvThroughout(c, states, acts, j);
    RunExtends(c, states, acts, i, j);
    AccountsStay(states[i].Progress(), states[j].Progress(), a);
  }
}
