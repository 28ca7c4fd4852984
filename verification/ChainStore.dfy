/**
 The block tree under the canonical chain.  A block hash is ideal: it is the
 block it was computed from, or a bare value no known block hashes to.  So a
 parent link is a block or leads nowhere, and the chain of ancestors of a block
 is determined by the block alone.
 */
module ChainStore {
  import opened Prelude

  datatype Hash = Raw(id: nat) | Digest(block: Block)

  type TxId = nat

  /** A header with the transactions its root commits to; `extra` is the rest of it. */
  datatype Block = Block(parent: Hash, number: nat, difficulty: nat, txs: seq<TxId>, extra: nat)

  type Canon = map<nat, Hash>

  /** A read by hash and number finds a stored block with that number. */
  function GetBlock(blocks: set<Block>, hash: Hash, number: int): Option<Block> {
    if hash.Digest? && hash.block in blocks && hash.block.number == number then Some(hash.block) else None
  }

  /** The chain that ends in a block, oldest first. */
  ghost function Path(b: Block): (p: seq<Block>)
    ensures |p| > 0 && p[|p| - 1] == b
  {
    if b.parent.Digest? then Path(b.parent.block) + [b] else [b]
  }

  ghost function TotalDifficulty(b: Block): nat {
    if b.parent.Digest? then TotalDifficulty(b.parent.block) + b.difficulty else b.difficulty
  }

  /** Block numbers count the ancestors. */
  ghost predicate Numbered(b: Block) {
    if b.parent.Digest? then b.number == b.parent.block.number + 1 && Numbered(b.parent.block) else b.number == 0
  }

  /** The stored blocks form a tree over the genesis block. */
  ghost predicate Rooted(blocks: set<Block>, genesis: Block) {
    && genesis in blocks && genesis.number == 0 && genesis.parent.Raw?
    && forall b :: b in blocks ==>
         b == genesis || (b.parent.Digest? && b.parent.block in blocks && b.number == b.parent.block.number + 1)
  }

  lemma {:induction false} StoredIsNumbered(blocks: set<Block>, genesis: Block, b: Block)
    requires Rooted(blocks, genesis) && b in blocks
    ensures Numbered(b) && Path(b)[0] == genesis && forall a :: a in Path(b) ==> a in blocks
  {
    if b.parent.Digest? {
      StoredIsNumbered(blocks, genesis, b.parent.block);
    }
  }

  lemma {:induction false} PathIsIndexed(b: Block)
    requires Numbered(b)
    ensures |Path(b)| == b.number + 1
    ensures forall i :: 0 <= i < |Path(b)| ==> Path(b)[i].number == i
  {
    if b.parent.Digest? {
      PathIsIndexed(b.parent.block);
    }
  }

  /** Every prefix of a chain is the chain of the block it ends in. */
  lemma {:induction false} PathPrefix(b: Block, i: nat)
    requires i < |Path(b)|
    ensures Path(Path(b)[i]) == Path(b)[..i + 1]
  {
    if i == |Path(b)| - 1 {
      assert Path(b)[..i + 1] == Path(b);
    } else {
      assert b.parent.Digest?;
      PathPrefix(b.parent.block, i);
      assert Path(b)[i] == Path(b.parent.block)[i];
      assert Path(b)[..i + 1] == Path(b.parent.block)[..i + 1];
    }
  }

  lemma {:induction false} PathIsLinked(b: Block, i: nat)
    requires i + 1 < |Path(b)|
    ensures Path(b)[i + 1].parent == Digest(Path(b)[i])
  {
    if i + 2 < |Path(b)| {
      PathIsLinked(b.parent.block, i);
    }
  }

  lemma {:induction false} TotalGrows(b: Block, i: nat)
    requires i < |Path(b)|
    ensures TotalDifficulty(Path(b)[i]) <= TotalDifficulty(b)
  {
    if i < |Path(b)| - 1 {
      TotalGrows(b.parent.block, i);
    }
  }

  /** Every stored block has its total difficulty: its parent's plus its own. */
  ghost predicate Weighed(blocks: set<Block>, td: map<Block, nat>) {
    td.Keys == blocks && forall b :: b in blocks ==> td[b] == TotalDifficulty(b)
  }

  ghost predicate Heaviest(blocks: set<Block>, head: Block) {
    head in blocks && forall b :: b in blocks ==> TotalDifficulty(b) <= TotalDifficulty(head)
  }

  lemma StoreGrows(blocks: set<Block>, td: map<Block, nat>, genesis: Block, block: Block, parent: Block)
    requires Rooted(blocks, genesis) && Weighed(blocks, td)
    requires block.parent == Digest(parent) && parent in blocks && parent.number == block.number - 1
    ensures Rooted(blocks + {block}, genesis) && Weighed(blocks + {block}, td[block := block.difficulty + td[parent]])
  {
  }

  /** The canonical index holds the head's ancestor at every number up to the head. */
  ghost predicate CanonicalUpTo(canon: Canon, head: Block) {
    && |Path(head)| == head.number + 1
    && forall i :: 0 <= i <= head.number ==> i in canon && canon[i] == Digest(Path(head)[i])
  }

  ghost predicate NothingAbove(canon: Canon, head: Block) {
    forall i :: i in canon ==> i <= head.number
  }

  /** `i` is in the unbroken run of entries that starts just above `n`. */
  ghost predicate InRunAbove(canon: Canon, n: nat, i: nat) {
    n < i && forall j :: n < j <= i ==> j in canon
  }

  ghost function Trimmed(canon: Canon, n: nat): Canon {
    map i | i in canon && !InRunAbove(canon, n, i) :: canon[i]
  }

  /** The loop that deletes the canonical numbers above a head, up to the first that is missing. */
  method TrimAbove(canon: Canon, n: nat) returns (r: Canon)
    ensures r == Trimmed(canon, n)
  {
    var i := n + 1;
    var deleted := {};
    while i in canon
      invariant n < i && forall j :: j in deleted <==> n < j < i
      invariant forall j :: n < j < i ==> j in canon
      decreases canon.Keys - deleted
    {
      deleted := deleted + {i};
      i := i + 1;
    }
    r := canon - deleted;
    forall j | j in canon ensures j in deleted <==> InRunAbove(canon, n, j) {
      assert j >= i ==> i !in canon && n < i <= j;
    }
  }

  /** An unbroken index loses everything above the number it is trimmed to. */
  lemma TrimmedFromRun(canon: Canon, n: nat, top: nat)
    requires forall i: nat :: i in canon <==> i <= top
    ensures forall i: nat :: i in Trimmed(canon, n) <==> i <= top && i <= n
    ensures forall i: nat :: i in canon && i <= n ==> Trimmed(canon, n)[i] == canon[i]
  {
    forall i: nat | i in canon && i > n ensures InRunAbove(canon, n, i) {
    }
  }

  lemma TrimmedKeepsBelow(canon: Canon, n: nat, i: nat)
    requires i in canon && i <= n
    ensures i in Trimmed(canon, n) && Trimmed(canon, n)[i] == canon[i]
  {
  }
}
