/** The loops of a repair that work on the tree alone: building the child index, collecting the
    losers, and the worklist that gathers their descendants. */
module Pruning {
  import opened Forest
  import opened Hashes
  import opened Ledger
  import opened LongestBranch
  import opened WorldState

  /** The child index of the blocks, built in the arbitrary order of a map iteration. */
  method BuildBranchMap(blocks: BlockMap) returns (bm: BranchMap)
    ensures Indexes(bm, ParentsOf(blocks))
  {
    bm := map[];
    var todo := blocks.Keys;
    ghost var seen: Parents := map[];
    while todo != {}
      invariant todo <= blocks.Keys
      invariant seen == map h | h in blocks && h !in todo :: blocks[h].previousHash
      invariant Indexes(bm, seen)
      decreases todo
    {
      var h :| h in todo;
      var p := blocks[h].previousHash;
      ghost var before, seenBefore := bm, seen;
      if p in bm {
        bm := bm[p := bm[p] + [h]];
      } else {
        bm := bm[p := [h]];
      }
      todo := todo - {h};
      seen := seen[h := p];
      forall q ensures ListsChildrenOf(bm, seen, q) {
        assert ListsChildrenOf(before, seenBefore, q);
      }
    }
    assert seen == ParentsOf(blocks);
  }

  /** The losers whose parent is among the first n blocks of the chain. */
  ghost predicate IsLoserBefore(up: Parents, c: seq<Hash>, n: nat, h: Hash)
    requires n <= |c|
  {
    h in up && h !in c && exists i :: 0 <= i < n && up[h] == c[i]
  }

  /** Off-chain children of every chain block that has at least two successors. */
  method CollectLosers(bm: BranchMap, chain: seq<Hash>, ghost up: Parents) returns (losers: seq<Hash>)
    requires Indexes(bm, up) && |chain| >= EXECUTE_AFTER_N_BLOCKS
    ensures forall h :: h in losers <==> IsLoser(up, chain, h)
  {
    var onChain := set h | h in chain;
    losers := [];
    for i := 0 to |chain| - EXECUTE_AFTER_N_BLOCKS
      invariant forall h :: h in losers <==> IsLoserBefore(up, chain, i, h)
    {
      var parent := chain[i];
      assert ListsChildrenOf(bm, up, parent);
      ghost var before := losers;
      if parent in bm {
        var cs := bm[parent];
        for j := 0 to |cs|
          invariant forall h :: h in losers <==> h in before || (h in cs[..j] && h !in chain)
        {
          if cs[j] !in onChain {
            losers := losers + [cs[j]];
          }
        }
        assert cs[..|cs|] == cs;
      }
    }
  }

  /** Nothing in the bin but doomed blocks; every loser is in it; and it is closed under children,
      save for the blocks still on the worklist. */
  ghost predicate IsBin(up: Parents, c: seq<Hash>, bin: set<Hash>, losers: seq<Hash>)
    requires IsForest(up)
  {
    && (forall h :: h in bin ==> h in up && IsDoomed(up, c, h))
    && (forall h :: IsLoser(up, c, h) ==> h in bin)
    && (forall h :: h in losers ==> h in bin)
    && (forall h :: h in up && up[h] in bin && up[h] !in losers ==> h in bin)
  }

  lemma {:induction false} ClosedBinIsDoomed(up: Parents, c: seq<Hash>, bin: set<Hash>, h: Hash)
    requires IsForest(up) && IsBin(up, c, bin, []) && h in up && IsDoomed(up, c, h)
    ensures h in bin
    decreases |PathTo(up, h)|
  {
    PathOfChild(up, h);
    ChildOfDoomedIsDoomed(up, c, h);
    if !IsLoser(up, c, h) {
      ClosedBinIsDoomed(up, c, bin, up[h]);
    }
  }

  lemma ChildrenAreDoomed(bm: BranchMap, up: Parents, c: seq<Hash>, h: Hash)
    requires IsForest(up) && Indexes(bm, up) && h in up && IsDoomed(up, c, h)
    ensures h in bm ==> forall x :: x in bm[h] ==> x in up && up[x] == h && IsDoomed(up, c, x)
    ensures forall x :: x in up && up[x] == h ==> h in bm && x in bm[h]
  {
    assert ListsChildrenOf(bm, up, h);
    if h in bm {
      forall x | x in bm[h] ensures IsDoomed(up, c, x) {
        ChildOfDoomedIsDoomed(up, c, x);
      }
    }
  }

  /** One pass over the children of a block taken off the worklist. */
  method BinChildren(cs: seq<Hash>, bin: set<Hash>, losers: seq<Hash>) returns (bin': set<Hash>, losers': seq<Hash>)
    ensures bin' == bin + (set x | x in cs)
    ensures forall x :: x in losers' <==> x in losers || (x in cs && x !in bin)
    ensures bin' == bin ==> losers' == losers
  {
    bin', losers' := bin, losers;
    for j := 0 to |cs|
      invariant bin' == bin + (set x | x in cs[..j])
      invariant forall x :: x in losers' <==> x in losers || (x in cs[..j] && x !in bin)
      invariant bin' == bin ==> losers' == losers
    {
      if cs[j] !in bin' {
        bin' := bin' + {cs[j]};
        losers' := losers' + [cs[j]];
      }
    }
    assert cs[..|cs|] == cs;
  }

  lemma BinGrows(bm: BranchMap, up: Parents, c: seq<Hash>, bin: set<Hash>, losers: seq<Hash>,
                 h: Hash, cs: seq<Hash>, bin': set<Hash>, losers': seq<Hash>)
    requires IsForest(up) && Indexes(bm, up) && IsBin(up, c, bin, losers + [h])
    requires cs == if h in bm then bm[h] else []
    requires bin' == bin + (set x | x in cs)
    requires forall x :: x in losers' <==> x in losers || (x in cs && x !in bin)
    ensures IsBin(up, c, bin', losers')
    ensures bin <= bin' <= up.Keys
  {
    assert h in losers + [h];
    ChildrenAreDoomed(bm, up, c, h);
    forall x | x in up && up[x] in bin' && up[x] !in losers' ensures x in bin' {
      if up[x] != h {
        assert up[x] in bin && up[x] !in losers + [h];
      }
    }
  }

  lemma SmallerDifference(all: set<Hash>, a: set<Hash>, b: set<Hash>)
    requires a <= b <= all && a != b
    ensures |all - b| < |all - a|
  {
    assert exists x :: x in b && x !in a;
    var x :| x in b && x !in a;
    SubsetIsSmaller(all - b, all - a - {x});
  }

  /** Takes one block off the worklist and bins its children. */
  method Visit(bm: BranchMap, bin: set<Hash>, losers: seq<Hash>, ghost up: Parents, ghost chain: seq<Hash>)
    returns (bin': set<Hash>, losers': seq<Hash>)
    requires IsForest(up) && Indexes(bm, up) && losers != [] && IsBin(up, chain, bin, losers)
    ensures IsBin(up, chain, bin', losers')
    ensures |up.Keys - bin'| < |up.Keys - bin| || (bin' == bin && |losers'| < |losers|)
  {
    var h, rest := losers[|losers| - 1], losers[..|losers| - 1];
    assert losers == rest + [h];
    var cs := if h in bm then bm[h] else [];
    bin', losers' := BinChildren(cs, bin, rest);
    BinGrows(bm, up, chain, bin, rest, h, cs, bin', losers');
    if bin' != bin {
      SmallerDifference(up.Keys, bin, bin');
    }
  }

  lemma BinStarts(up: Parents, c: seq<Hash>, losers: seq<Hash>)
    requires IsForest(up) && forall h :: h in losers <==> IsLoser(up, c, h)
    ensures IsBin(up, c, Elements(losers), losers)
  {
    forall h | h in losers ensures IsDoomed(up, c, h) {
      LoserIsDoomed(up, c, h);
    }
  }

  lemma BinEnds(up: Parents, c: seq<Hash>, bin: set<Hash>)
    requires IsForest(up) && IsBin(up, c, bin, [])
    ensures bin == Doomed(up, c)
  {
    forall h | h in Doomed(up, c) ensures h in bin {
      ClosedBinIsDoomed(up, c, bin, h);
    }
  }

  /** The worklist: it ends with exactly the losers and all their descendants. */
  method CollectDoomed(bm: BranchMap, chain: seq<Hash>, ghost up: Parents) returns (bin: set<Hash>)
    requires IsForest(up) && Indexes(bm, up) && |chain| >= EXECUTE_AFTER_N_BLOCKS
    ensures bin == Doomed(up, chain)
  {
    var losers := CollectLosers(bm, chain, up);
    bin := set h | h in losers;
    assert bin == Elements(losers);
    BinStarts(up, chain, losers);
    while losers != []
      invariant IsBin(up, chain, bin, losers)
      decreases |up.Keys - bin|, |losers|
    {
      bin, losers := Visit(bm, bin, losers, up, chain);
    }
    BinEnds(up, chain, bin);
  }
}
