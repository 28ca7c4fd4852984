/** The first part of `TxPool.reset`: which transactions a change of head gives back to the pool. */
module Reinjection {
  import opened Prelude
  import opened ChainStore
  import opened BlockChains

  const MAX_REORG_DEPTH := 64

  function Depth(a: nat, b: nat): nat {
    if a > b then a - b else b - a
  }

  /** The head does not just extend the old one, and is not too far from it to be compared. */
  predicate Shallow(was: Option<Block>, head: Block) {
    was.Some? && Digest(was.value) != head.parent && Depth(was.value.number, head.number) <= MAX_REORG_DEPTH
  }

  /** In the chain of `was` above the fork, and not in the chain of `head` above it. */
  ghost predicate Lost(tx: TxId, oldChain: seq<Block>, newChain: seq<Block>) {
    tx in TxsOf(oldChain) && tx !in TxsOf(newChain)
  }

  /**
   The transactions to reinject, or nothing if the reset is abandoned.  A
   missing old head is taken for a rewind when the new head is lower.
   */
  method Reinject(blocks: set<Block>, was: Option<Block>, head: Block)
    returns (txs: Option<seq<TxId>>, ghost fork: Option<Block>, ghost oldChain: seq<Block>, ghost newChain: seq<Block>)
    requires head in blocks
    ensures !Shallow(was, head) ==> txs == Some([]) && fork == None
    ensures fork.Some? ==>
      && was.Some? && Diverged(was.value, head, oldChain, newChain, fork.value, fork.value)
      && txs.Some? && forall tx :: tx in txs.value <==> Lost(tx, oldChain, newChain)
    ensures Shallow(was, head) && was.value in blocks && (exists genesis :: Rooted(blocks, genesis)) ==> fork.Some?
    ensures Shallow(was, head) && was.value in blocks && fork == None ==> txs == None
    ensures Shallow(was, head) && was.value !in blocks ==>
      txs == (if head.number >= was.value.number then None else Some([]))
  {
    hide Diverged, TxsOf, Rooted;
    txs, fork, oldChain, newChain := Some([]), None, [], [];
    if was == None || Digest(was.value) == head.parent {
      return;
    }
    if Depth(was.value.number, head.number) > MAX_REORG_DEPTH {
      return;
    }
    if was.value !in blocks {
      if head.number >= was.value.number {
        txs := None;
      }
      return;
    }
    var common, rem, add := FindCommon(blocks, was.value, head);
    if common == None {
      txs := None;
      return;
    }
    var discarded := CollectTxs(rem);
    var included := CollectTxs(add);
    var lost := HashDifference(discarded, included);
    txs, fork, oldChain, newChain := Some(lost), common, rem, add;
  }

  /** Where no chain replays a transaction, the ones lost are those of the old chain that the new one lacks. */
  lemma LostIffMissing(was: Block, head: Block, fork: Block, oldChain: seq<Block>, newChain: seq<Block>, tx: TxId)
    requires Diverged(was, head, oldChain, newChain, fork, fork) && NoReplay(was)
    ensures Lost(tx, oldChain, newChain) <==> tx in TxsOf(Path(was)) && tx !in TxsOf(Path(head))
  {
    hide TxsOf, Path, NoReplay;
    TxsOfReversed(oldChain);
    TxsOfReversed(newChain);
    TxsOfConcat(Path(fork), Reversed(oldChain), tx);
    TxsOfConcat(Path(fork), Reversed(newChain), tx);
    if tx in TxsOf(Reversed(oldChain)) {
      NoReplayAcross(was, Path(fork), Reversed(oldChain), tx);
    }
  }

  lemma TxsOfConcat(a: seq<Block>, b: seq<Block>, tx: TxId)
    ensures tx in TxsOf(a + b) <==> tx in TxsOf(a) || tx in TxsOf(b)
  {
    assert forall i :: 0 <= i < |a| ==> (a + b)[i] == a[i];
    assert forall i :: 0 <= i < |b| ==> (a + b)[|a| + i] == b[i];
  }
}
