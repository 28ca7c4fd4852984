/**
 The canonical chain of `core/blockchain.go`: blocks are written with their
 total difficulty, and the heaviest one becomes the head by rewriting the
 canonical index and the transaction index from the fork point up.
 */
module BlockChains {
  import opened Prelude
  import opened ChainStore
  import opened ForkChoice

  /** The head markers in the database. */
  datatype Markers = Markers(headHeader: Hash, headFast: Hash, headBlock: Hash)

  /** Everything that following a head changes. */
  datatype Heads = Heads(canon: Canon, lookup: map<TxId, nat>, current: Block, markers: Markers)

  // ---------------------------------------------------------------- the walk to the fork point

  function Reversed(s: seq<Block>): (r: seq<Block>)
    ensures |r| == |s| && forall i :: 0 <= i < |s| ==> r[i] == s[|s| - 1 - i]
  {
    if s == [] then [] else Reversed(s[1..]) + [s[0]]
  }

  lemma {:induction false} ReversedAppend(s: seq<Block>, b: Block)
    ensures Reversed(s + [b]) == [b] + Reversed(s)
  {
    if s == [] {
    } else {
      ReversedAppend(s[1..], b);
      assert (s + [b])[1..] == s[1..] + [b];
    }
  }

  lemma ReversedMembers(s: seq<Block>)
    ensures forall b :: b in Reversed(s) <==> b in s
  {
    var r := Reversed(s);
    assert forall i :: 0 <= i < |s| ==> r[|s| - 1 - i] == s[i];
  }

  /** `chain` are the blocks from `top` down to just above `cursor`, newest first. */
  ghost predicate Climbs(top: Block, chain: seq<Block>, cursor: Block) {
    && Path(top) == Path(cursor) + Reversed(chain)
    && forall b :: b in chain ==> b.number > cursor.number
  }

  lemma StepDown(top: Block, chain: seq<Block>, cursor: Block, below: Block)
    requires Climbs(top, chain, cursor) && cursor.parent == Digest(below) && below.number == cursor.number - 1
    ensures Climbs(top, chain + [cursor], below)
  {
    ReversedAppend(chain, cursor);
    assert Path(cursor) == Path(below) + [cursor];
    assert Path(below) + [cursor] + Reversed(chain) == Path(below) + ([cursor] + Reversed(chain));
  }

  lemma {:induction false} CursorIsStored(blocks: set<Block>, genesis: Block, top: Block, chain: seq<Block>,
                                          cursor: Block)
    requires Rooted(blocks, genesis) && top in blocks && Climbs(top, chain, cursor)
    ensures cursor in blocks
    ensures cursor.number > 0 ==> GetBlock(blocks, cursor.parent, cursor.number - 1).Some?
    ensures cursor.number == 0 ==> cursor == genesis
  {
    StoredIsNumbered(blocks, genesis, top);
    assert cursor in Path(top) by {
      assert Path(top)[|Path(cursor)| - 1] == cursor;
    }
  }

  /** The blocks above `number`, newest first, and the ancestor there, if every block on the way is stored. */
  method WalkDown(blocks: set<Block>, top: Block, number: nat) returns (chain: seq<Block>, cursor: Option<Block>)
    requires number <= top.number
    ensures cursor.Some? ==> Climbs(top, chain, cursor.value) && cursor.value.number == number
    ensures cursor.Some? ==> |chain| == top.number - number
    ensures forall genesis :: Rooted(blocks, genesis) && top in blocks ==> cursor.Some?
  {
    hide Climbs, Rooted;
    chain, cursor := [], Some(top);
    WalkStarts(top);
    while cursor.Some? && cursor.value.number != number
      invariant cursor.Some? ==> Climbs(top, chain, cursor.value) && cursor.value.number >= number
      invariant cursor.Some? ==> |chain| == top.number - cursor.value.number
      invariant forall genesis :: Rooted(blocks, genesis) && top in blocks ==> cursor.Some?
      decreases cursor.Some?, if cursor.Some? then cursor.value.number else 0
    {
      var b := cursor.value;
      forall genesis | Rooted(blocks, genesis) && top in blocks
        ensures GetBlock(blocks, b.parent, b.number - 1).Some?
      {
        CursorIsStored(blocks, genesis, top, chain, b);
      }
      var next := GetBlock(blocks, b.parent, b.number - 1);
      if next.Some? {
        StepDown(top, chain, b, next.value);
      }
      chain, cursor := chain + [b], next;
    }
  }

  lemma WalkStarts(top: Block)
    ensures Climbs(top, [], top)
  {
  }

  /** How far the two walks have come: no block of one is a block of the other. */
  ghost predicate Diverged(oldTop: Block, newTop: Block, oldChain: seq<Block>, newChain: seq<Block>, x: Block, y: Block)
  {
    && Climbs(oldTop, oldChain, x) && Climbs(newTop, newChain, y) && x.number == y.number
    && forall b :: b in oldChain ==> b !in newChain
  }

  lemma DivergesFurther(oldTop: Block, newTop: Block, oldChain: seq<Block>, newChain: seq<Block>,
                        x: Block, y: Block, x': Block, y': Block)
    requires Diverged(oldTop, newTop, oldChain, newChain, x, y) && x != y
    requires x.parent == Digest(x') && x'.number == x.number - 1
    requires y.parent == Digest(y') && y'.number == y.number - 1
    ensures Diverged(oldTop, newTop, oldChain + [x], newChain + [y], x', y')
  {
    StepDown(oldTop, oldChain, x, x');
    StepDown(newTop, newChain, y, y');
  }

  /** The part of `reorg` that looks for the fork point. */
  method FindCommon(blocks: set<Block>, oldBlock: Block, newBlock: Block)
    returns (common: Option<Block>, oldChain: seq<Block>, newChain: seq<Block>)
    ensures common.Some? ==> Diverged(oldBlock, newBlock, oldChain, newChain, common.value, common.value)
    ensures forall genesis :: Rooted(blocks, genesis) && oldBlock in blocks && newBlock in blocks ==> common.Some?
  {
    hide Climbs, Rooted, Diverged;
    var x, y := Some(oldBlock), Some(newBlock);
    oldChain, newChain, common := [], [], None;
    WalkStarts(oldBlock);
    WalkStarts(newBlock);
    if oldBlock.number > newBlock.number {
      oldChain, x := WalkDown(blocks, oldBlock, newBlock.number);
    } else {
      newChain, y := WalkDown(blocks, newBlock, oldBlock.number);
    }
    if x == None || y == None {
      return;
    }
    LevelIsDiverged(oldBlock, newBlock, oldChain, newChain, x.value, y.value);
    while x.value != y.value
      invariant x.Some? && y.Some? && Diverged(oldBlock, newBlock, oldChain, newChain, x.value, y.value)
      decreases x.value.number
    {
      oldChain, newChain := oldChain + [x.value], newChain + [y.value];
      forall genesis | Rooted(blocks, genesis) && oldBlock in blocks && newBlock in blocks
        ensures GetBlock(blocks, x.value.parent, x.value.number - 1).Some?
        ensures GetBlock(blocks, y.value.parent, y.value.number - 1).Some?
      {
        BothStored(blocks, genesis, oldBlock, newBlock, oldChain[..|oldChain| - 1], newChain[..|newChain| - 1], x.value,
                   y.value);
      }
      var x' := GetBlock(blocks, x.value.parent, x.value.number - 1);
      var y' := GetBlock(blocks, y.value.parent, y.value.number - 1);
      if x' == None || y' == None {
        return;
      }
      DivergesFurther(oldBlock, newBlock, oldChain[..|oldChain| - 1], newChain[..|newChain| - 1],
                      x.value, y.value, x'.value, y'.value);
      x, y := x', y';
    }
    common := x;
  }

  lemma LevelIsDiverged(oldTop: Block, newTop: Block, oldChain: seq<Block>, newChain: seq<Block>, x: Block, y: Block)
    requires Climbs(oldTop, oldChain, x) && Climbs(newTop, newChain, y) && x.number == y.number
    requires oldChain == [] || newChain == []
    ensures Diverged(oldTop, newTop, oldChain, newChain, x, y)
  {
  }

  lemma BothStored(blocks: set<Block>, genesis: Block, oldTop: Block, newTop: Block,
                   oldChain: seq<Block>, newChain: seq<Block>, x: Block, y: Block)
    requires Rooted(blocks, genesis) && oldTop in blocks && newTop in blocks && x != y
    requires Diverged(oldTop, newTop, oldChain, newChain, x, y)
    ensures GetBlock(blocks, x.parent, x.number - 1).Some? && GetBlock(blocks, y.parent, y.number - 1).Some?
  {
    CursorIsStored(blocks, genesis, oldTop, oldChain, x);
    CursorIsStored(blocks, genesis, newTop, newChain, y);
  }

  // ---------------------------------------------------------------- what following a head changes

  ghost function TxsOf(chain: seq<Block>): set<TxId> {
    set i, tx | 0 <= i < |chain| && tx in chain[i].txs :: tx
  }

  function Indexed(lookup: map<TxId, nat>, b: Block): map<TxId, nat> {
    lookup + map tx | tx in b.txs :: b.number
  }

  function WithHead(s: Heads, b: Block): Heads {
    Heads(s.canon[b.number := Digest(b)], Indexed(s.lookup, b), b, Markers(Digest(b), Digest(b), Digest(b)))
  }

  /** The blocks of a branch made heads one after the other, oldest first. */
  ghost function WithHeads(s: Heads, branch: seq<Block>): Heads {
    if branch == [] then s else WithHead(WithHeads(s, branch[..|branch| - 1]), branch[|branch| - 1])
  }

  ghost function AllButHead(branch: seq<Block>): seq<Block> {
    if branch == [] then [] else branch[..|branch| - 1]
  }

  /** `reorg` from one branch to another, oldest block first, without the new head itself. */
  ghost function Reorganised(s: Heads, oldBranch: seq<Block>, newBranch: seq<Block>): Heads {
    var t := WithHeads(s, AllButHead(newBranch));
    t.(lookup := t.lookup - (TxsOf(oldBranch) - TxsOf(AllButHead(newBranch))),
       canon := Trimmed(t.canon, t.current.number))
  }

  /** The state after `reorg` and `writeHeadBlock`. */
  ghost function Switched(s: Heads, oldBranch: seq<Block>, newBranch: seq<Block>, head: Block): Heads {
    WithHead(Reorganised(s, oldBranch, newBranch), head)
  }

  /** Two heads over a common stem, each block at the position its number says. */
  ghost predicate Fork(old_: Block, new_: Block, stem: seq<Block>, oldBranch: seq<Block>, newBranch: seq<Block>) {
    && stem != [] && Path(old_) == stem + oldBranch && Path(new_) == stem + newBranch
    && |Path(old_)| == old_.number + 1 && |Path(new_)| == new_.number + 1
    && (forall i :: 0 <= i < |newBranch| ==> newBranch[i].number == |stem| + i)
    && (forall i :: 0 <= i < |stem| ==> stem[i].number == i)
  }

  lemma {:induction false} WithHeadsCanon(s: Heads, branch: seq<Block>, base: nat)
    requires forall i :: 0 <= i < |branch| ==> branch[i].number == base + i
    ensures var t := WithHeads(s, branch);
      && (forall n :: n in t.canon <==> n in s.canon || base <= n < base + |branch|)
      && (forall n :: n in t.canon ==>
            t.canon[n] == if base <= n < base + |branch| then Digest(branch[n - base]) else s.canon[n])
      && t.current == (if branch == [] then s.current else branch[|branch| - 1])
  {
    hide Indexed;
    if branch != [] {
      var front := branch[..|branch| - 1];
      WithHeadsCanon(s, front, base);
      assert forall i :: 0 <= i < |front| ==> front[i] == branch[i];
    }
  }

  /** After a reorg the index is the new head's chain up to the new head. */
  lemma SwitchIsCanonical(s: Heads, was: Block, head: Block, stem: seq<Block>, oldBranch: seq<Block>,
                          newBranch: seq<Block>)
    requires Fork(was, head, stem, oldBranch, newBranch) && s.current == was && CanonicalUpTo(s.canon, was)
    ensures CanonicalUpTo(Switched(s, oldBranch, newBranch, head).canon, head)
  {
    hide Path, WithHeads, Trimmed;
    var b := AllButHead(newBranch);
    WithHeadsCanon(s, b, |stem|);
    var t := WithHeads(s, b);
    var r := Switched(s, oldBranch, newBranch, head).canon;
    assert Path(head)[head.number] == head;
    forall i | 0 <= i < head.number ensures i in r && r[i] == Digest(Path(head)[i]) {
      TrimmedKeepsBelow(t.canon, t.current.number, i);
      if i < |stem| {
        assert Path(was)[i] == stem[i] == Path(head)[i];
      } else {
        assert Path(head)[i] == newBranch[i - |stem|];
      }
    }
  }

  /**
   Nothing survives above the new head exactly when at least two blocks were
   added or the new head is not the lower one: the deletion starts above the
   block made head last, which is the old head if only one block is added.
   */
  lemma NothingAboveIff(s: Heads, was: Block, head: Block, stem: seq<Block>, oldBranch: seq<Block>,
                        newBranch: seq<Block>)
    requires Fork(was, head, stem, oldBranch, newBranch) && s.current == was
    requires CanonicalUpTo(s.canon, was) && NothingAbove(s.canon, was)
    ensures NothingAbove(Switched(s, oldBranch, newBranch, head).canon, head)
      <==> |newBranch| >= 2 || head.number >= was.number
  {
    hide Path, WithHeads, Trimmed;
    var b := AllButHead(newBranch);
    WithHeadsCanon(s, b, |stem|);
    var t := WithHeads(s, b);
    var top := if was.number >= |stem| + |b| - 1 then was.number else |stem| + |b| - 1;
    assert forall i: nat :: i in s.canon <==> i <= was.number;
    assert forall i: nat :: i in t.canon <==> i <= top;
    TrimmedFromRun(t.canon, t.current.number, top);
    var r := Switched(s, oldBranch, newBranch, head).canon;
    assert |newBranch| < 2 && head.number < was.number ==> was.number in r;
  }

  /** The position of the last block of a chain that holds a transaction, or -1. */
  ghost function LastAt(chain: seq<Block>, tx: TxId): (i: int)
    ensures -1 <= i < |chain| && (i >= 0 ==> tx in chain[i].txs)
    ensures i == -1 <==> tx !in TxsOf(chain)
  {
    if chain == [] then -1
    else if tx in chain[|chain| - 1].txs then |chain| - 1
    else
      var i := LastAt(chain[..|chain| - 1], tx);
      assert forall k :: 0 <= k < |chain| - 1 ==> chain[k] == chain[..|chain| - 1][k];
      i
  }

  lemma {:induction false} LastAtConcat(a: seq<Block>, b: seq<Block>, tx: TxId)
    ensures LastAt(a + b, tx) == if LastAt(b, tx) != -1 then |a| + LastAt(b, tx) else LastAt(a, tx)
  {
    if b == [] {
      assert a + b == a;
    } else {
      LastAtConcat(a, b[..|b| - 1], tx);
      assert (a + b)[..|a + b| - 1] == a + b[..|b| - 1];
    }
  }

  lemma LastAtHead(chain: seq<Block>, tx: TxId)
    ensures chain != [] && tx in chain[|chain| - 1].txs ==> LastAt(chain, tx) == |chain| - 1
    ensures chain == [] || tx !in chain[|chain| - 1].txs ==> LastAt(chain, tx) == LastAt(AllButHead(chain), tx)
  {
  }

  /** The transaction index knows the transactions of a chain, each at the last block that holds it. */
  ghost predicate IndexesAll(lookup: map<TxId, nat>, chain: seq<Block>) {
    forall tx :: IndexesTx(lookup, chain, tx)
  }

  ghost predicate IndexesTx(lookup: map<TxId, nat>, chain: seq<Block>, tx: TxId) {
    if LastAt(chain, tx) == -1 then tx !in lookup else tx in lookup && lookup[tx] == LastAt(chain, tx)
  }

  lemma {:induction false} WithHeadsLookup(s: Heads, branch: seq<Block>, base: nat, tx: TxId)
    requires forall i :: 0 <= i < |branch| ==> branch[i].number == base + i
    ensures var t := WithHeads(s, branch).lookup;
      if LastAt(branch, tx) != -1 then tx in t && t[tx] == base + LastAt(branch, tx)
      else (tx in t <==> tx in s.lookup) && (tx in t ==> t[tx] == s.lookup[tx])
  {
    if branch != [] {
      WithHeadsLookup(s, branch[..|branch| - 1], base, tx);
    }
  }

  /**
   What a reorg does to the entry of one transaction: one on the new branch is
   indexed there, one only on the old branch is unindexed, others are untouched.
   */
  lemma SwitchesTx(s: Heads, was: Block, head: Block, stem: seq<Block>, oldBranch: seq<Block>, newBranch: seq<Block>,
                   tx: TxId)
    requires Fork(was, head, stem, oldBranch, newBranch)
    ensures var r := Switched(s, oldBranch, newBranch, head).lookup;
      if tx in TxsOf(newBranch) then tx in r && r[tx] == |stem| + LastAt(newBranch, tx)
      else if tx in head.txs then tx in r && r[tx] == head.number
      else if tx in TxsOf(oldBranch) then tx !in r
      else (tx in r <==> tx in s.lookup) && (tx in r ==> r[tx] == s.lookup[tx])
  {
    hide Path, WithHeads, Trimmed, TxsOf, LastAt;
    var b := AllButHead(newBranch);
    WithHeadsLookup(s, b, |stem|, tx);
    var u := Reorganised(s, oldBranch, newBranch).lookup;
    assert tx in TxsOf(oldBranch) && tx !in TxsOf(b) ==> tx !in u;
    assert newBranch != [] ==> newBranch[|newBranch| - 1] == head by {
      assert Path(head)[|Path(head)| - 1] == head;
    }
    LastAtHead(newBranch, tx);
  }

  /**
   A reorg keeps the transaction index exact for the chain followed if and only
   if no transaction dropped with the old branch is also held by a block of the
   stem, the new head aside.
   */
  lemma IndexIsExactIff(s: Heads, was: Block, head: Block, stem: seq<Block>, oldBranch: seq<Block>,
                        newBranch: seq<Block>)
    requires Fork(was, head, stem, oldBranch, newBranch) && IndexesAll(s.lookup, Path(was))
    ensures IndexesAll(Switched(s, oldBranch, newBranch, head).lookup, Path(head))
      <==> forall tx :: tx in TxsOf(oldBranch) && tx in TxsOf(stem) && tx !in TxsOf(newBranch) ==> tx in head.txs
  {
    hide IndexesTx;
    var r := Switched(s, oldBranch, newBranch, head).lookup;
    forall tx
      ensures IndexesTx(r, Path(head), tx)
        <==> (tx in TxsOf(oldBranch) && tx in TxsOf(stem) && tx !in TxsOf(newBranch) ==> tx in head.txs)
    {
      TxIsExactIff(s, was, head, stem, oldBranch, newBranch, tx);
    }
  }

  lemma TxIsExactIff(s: Heads, was: Block, head: Block, stem: seq<Block>, oldBranch: seq<Block>, newBranch: seq<Block>,
                     tx: TxId)
    requires Fork(was, head, stem, oldBranch, newBranch) && IndexesTx(s.lookup, Path(was), tx)
    ensures IndexesTx(Switched(s, oldBranch, newBranch, head).lookup, Path(head), tx)
      <==> (tx in TxsOf(oldBranch) && tx in TxsOf(stem) && tx !in TxsOf(newBranch) ==> tx in head.txs)
  {
    SwitchesTx(s, was, head, stem, oldBranch, newBranch, tx);
    LastAtConcat(stem, newBranch, tx);
    LastAtConcat(stem, oldBranch, tx);
    if newBranch == [] && tx in head.txs {
      assert stem + newBranch == stem;
      assert stem[|stem| - 1] == head;
    }
  }

  /** A block on top of the head needs no reorg: all three facts about the indexes carry over. */
  lemma Extends(s: Heads, head: Block)
    requires CanonicalUpTo(s.canon, s.current) && head.parent == Digest(s.current)
    requires head.number == s.current.number + 1 && NumberedPath(s.current)
    ensures CanonicalUpTo(WithHead(s, head).canon, head)
    ensures NothingAbove(s.canon, s.current) ==> NothingAbove(WithHead(s, head).canon, head)
    ensures IndexesAll(s.lookup, Path(s.current)) ==> IndexesAll(WithHead(s, head).lookup, Path(head))
  {
    hide IndexesTx, CanonicalUpTo, Indexed;
    ExtendsCanon(s, head);
    if IndexesAll(s.lookup, Path(s.current)) {
      forall tx ensures IndexesTx(WithHead(s, head).lookup, Path(head), tx) {
        ExtendsTx(s, head, tx);
      }
    }
  }

  lemma ExtendsCanon(s: Heads, head: Block)
    requires CanonicalUpTo(s.canon, s.current) && head.parent == Digest(s.current)
    requires head.number == s.current.number + 1 && NumberedPath(s.current)
    ensures CanonicalUpTo(WithHead(s, head).canon, head)
  {
    hide Indexed;
    var p := Path(s.current);
    assert Path(head) == p + [head];
    forall i | 0 <= i <= s.current.number ensures Path(head)[i] == p[i] {
    }
  }

  ghost predicate NumberedPath(b: Block) {
    |Path(b)| == b.number + 1
  }

  lemma ExtendsTx(s: Heads, head: Block, tx: TxId)
    requires head.parent == Digest(s.current) && head.number == s.current.number + 1 && NumberedPath(s.current)
    requires IndexesTx(s.lookup, Path(s.current), tx)
    ensures IndexesTx(WithHead(s, head).lookup, Path(head), tx)
  {
    LastAtHead(Path(head), tx);
    assert AllButHead(Path(head)) == Path(s.current);
  }

  /** No transaction is in two blocks of the chain of a block. */
  ghost predicate NoReplay(b: Block) {
    forall i, j, tx :: 0 <= i < j < |Path(b)| && tx in Path(b)[i].txs ==> tx !in Path(b)[j].txs
  }

  lemma NoReplayAcross(b: Block, stem: seq<Block>, branch: seq<Block>, tx: TxId)
    requires NoReplay(b) && Path(b) == stem + branch && tx in TxsOf(branch)
    ensures tx !in TxsOf(stem)
  {
    var j :| 0 <= j < |branch| && tx in branch[j].txs;
    assert Path(b)[|stem| + j] == branch[j];
    assert forall i :: 0 <= i < |stem| ==> Path(b)[i] == stem[i];
  }

  /** What the walk to the fork point found, oldest block first. */
  lemma ForkFound(blocks: set<Block>, genesis: Block, was: Block, head: Block, common: Block,
                  oldChain: seq<Block>, newChain: seq<Block>)
    requires Rooted(blocks, genesis) && was in blocks && head in blocks
    requires Diverged(was, head, oldChain, newChain, common, common)
    ensures Fork(was, head, Path(common), Reversed(oldChain), Reversed(newChain))
  {
    hide Rooted, Reversed, Path, Numbered;
    StoredIsNumbered(blocks, genesis, was);
    StoredIsNumbered(blocks, genesis, head);
    PathIsIndexed(was);
    PathIsIndexed(head);
    var p, b := Path(common), Reversed(newChain);
    forall i | 0 <= i < |p| ensures p[i].number == i {
      assert Path(head)[i] == p[i];
    }
    forall i | 0 <= i < |b| ensures b[i].number == |p| + i {
      assert Path(head)[|p| + i] == b[i];
    }
  }

  /** All that a reorg to a stored block does to the indexes. */
  lemma SwitchKeeps(s: Heads, was: Block, head: Block, stem: seq<Block>, oldBranch: seq<Block>, newBranch: seq<Block>)
    requires Fork(was, head, stem, oldBranch, newBranch) && s.current == was && CanonicalUpTo(s.canon, was)
    ensures CanonicalUpTo(Switched(s, oldBranch, newBranch, head).canon, head)
    ensures NothingAbove(s.canon, was) ==>
      (NothingAbove(Switched(s, oldBranch, newBranch, head).canon, head) <==>
         |newBranch| >= 2 || head.number >= was.number)
    ensures IndexesAll(s.lookup, Path(was)) && NoReplay(was) ==>
      IndexesAll(Switched(s, oldBranch, newBranch, head).lookup, Path(head))
  {
    hide CanonicalUpTo, NothingAbove, IndexesAll, NoReplay, Switched;
    SwitchIsCanonical(s, was, head, stem, oldBranch, newBranch);
    if NothingAbove(s.canon, was) {
      NothingAboveIff(s, was, head, stem, oldBranch, newBranch);
    }
    if IndexesAll(s.lookup, Path(was)) && NoReplay(was) {
      IndexIsExactIff(s, was, head, stem, oldBranch, newBranch);
      forall tx | tx in TxsOf(oldBranch) ensures tx !in TxsOf(stem) {
        NoReplayAcross(was, stem, oldBranch, tx);
      }
    }
  }

  /** A heavier sibling of the old head's parent: the old head stays canonical at its number. */
  lemma StaleEntrySurvives(g: Block, a1: Block, a2: Block, b1: Block, s: Heads)
    requires g == Block(Raw(0), 0, 1, [], 0)
    requires a1 == Block(Digest(g), 1, 1, [], 0) && a2 == Block(Digest(a1), 2, 1, [], 0)
    requires b1 == Block(Digest(g), 1, 5, [], 0)
    requires s.canon == map[0 := Digest(g), 1 := Digest(a1), 2 := Digest(a2)] && s.current == a2
    ensures TotalDifficulty(b1) > TotalDifficulty(a2) && Fork(a2, b1, [g], [a1, a2], [b1])
    ensures CanonicalUpTo(s.canon, a2) && NothingAbove(s.canon, a2)
    ensures var r := Switched(s, [a1, a2], [b1], b1).canon; 2 in r && r[2] == Digest(a2)
  {
    assert Path(g) == [g] && Path(a1) == [g, a1] && Path(a2) == [g, a1, a2] && Path(b1) == [g, b1];
    assert [b1][..0] == [];
    TrimmedKeepsBelow(s.canon, 2, 2);
  }

  /** A transaction held below the fork and again by the old head: the reorg takes it out of the index. */
  lemma ReplayedEntryIsLost(g: Block, a1: Block, a2: Block, b2: Block, s: Heads, tx: TxId)
    requires g == Block(Raw(0), 0, 1, [], 0) && a1 == Block(Digest(g), 1, 1, [tx], 0)
    requires a2 == Block(Digest(a1), 2, 1, [tx], 0) && b2 == Block(Digest(a1), 2, 5, [], 0)
    requires IndexesAll(s.lookup, Path(a2))
    ensures TotalDifficulty(b2) > TotalDifficulty(a2) && Fork(a2, b2, [g, a1], [a2], [b2])
    ensures tx in TxsOf(Path(b2)) && !IndexesAll(Switched(s, [a2], [b2], b2).lookup, Path(b2))
  {
    assert Path(g) == [g] && Path(a1) == [g, a1] && Path(a2) == [g, a1, a2] && Path(b2) == [g, a1, b2];
    var stem, p := [g, a1], Path(b2);
    assert tx in stem[1].txs && tx in p[1].txs && tx in [a2][0].txs && [b2][0].txs == [];
    assert tx in TxsOf(stem) && tx in TxsOf([a2]) && tx !in TxsOf([b2]);
    IndexIsExactIff(s, a2, b2, [g, a1], [a2], [b2]);
  }

  /** A block is on the chain of a head, or its parent is. */
  ghost predicate Joins(block: Block, was: Block) {
    block in Path(was) || (block.parent.Digest? && block.parent.block in Path(was))
  }

  lemma JoinsIff(was: Block, head: Block, stem: seq<Block>, oldBranch: seq<Block>, newBranch: seq<Block>)
    requires Fork(was, head, stem, oldBranch, newBranch) && forall b :: b in oldBranch ==> b !in newBranch
    ensures Joins(head, was) <==> |newBranch| < 2
  {
    var p := Path(head);
    assert forall i :: 0 <= i < |stem| ==> p[i] == stem[i] == Path(was)[i] && p[i] in Path(was);
    assert forall i :: 0 <= i < |newBranch| ==> p[|stem| + i] == newBranch[i];
    if |p| >= 2 {
      PathIsLinked(head, |p| - 2);
      assert |newBranch| >= 2 ==> p[|p| - 2] in newBranch && p[|p| - 1] in newBranch;
    }
    assert |p| == 1 ==> |newBranch| == 0;
    assert forall b :: b in newBranch ==> b !in stem;
  }

  // ---------------------------------------------------------------- the transactions that leave the index

  method CollectTxs(chain: seq<Block>) returns (txs: seq<TxId>)
    ensures forall tx :: tx in txs <==> tx in TxsOf(chain)
  {
    txs := [];
    for k := 0 to |chain|
      invariant forall tx :: tx in txs <==> tx in TxsOf(chain[..k])
    {
      TxsOfPush(chain[..k], chain[k]);
      assert chain[..k + 1] == chain[..k] + [chain[k]];
      txs := txs + chain[k].txs;
    }
    assert chain[..|chain|] == chain;
  }

  lemma TxsOfPush(chain: seq<Block>, b: Block)
    ensures forall tx :: tx in TxsOf(chain + [b]) <==> tx in TxsOf(chain) || tx in b.txs
  {
    forall tx ensures tx in TxsOf(chain + [b]) <==> tx in TxsOf(chain) || tx in b.txs {
      assert (chain + [b])[|chain|] == b;
      assert forall i :: 0 <= i < |chain| ==> (chain + [b])[i] == chain[i];
    }
  }

  lemma TxsOfReversed(chain: seq<Block>)
    ensures TxsOf(Reversed(chain)) == TxsOf(chain)
  {
    var r := Reversed(chain);
    assert forall i :: 0 <= i < |chain| ==> r[|chain| - 1 - i] == chain[i];
  }

  /** `types.HashDifference`: the entries of one list that are not in another, in order. */
  method HashDifference(a: seq<TxId>, b: seq<TxId>) returns (keep: seq<TxId>)
    ensures forall tx :: tx in keep <==> tx in a && tx !in b
    ensures multiset(keep) <= multiset(a)
  {
    keep := [];
    var remove := set tx | tx in b;
    for k := 0 to |a|
      invariant forall tx :: tx in keep <==> tx in a[..k] && tx !in b
      invariant multiset(keep) <= multiset(a[..k])
    {
      assert a[..k + 1] == a[..k] + [a[k]];
      if a[k] !in remove {
        keep := keep + [a[k]];
      }
    }
    assert a[..|a|] == a;
  }

  // ---------------------------------------------------------------- the chain

  datatype Status = UnknownAncestor | MissingTotal | InvalidChain | SideChain | CanonicalChain

  class BlockChain {
    const genesis: Block
    const terminal: Option<nat>

    var blocks: set<Block>
    var td: map<Block, nat>
    var canon: Canon
    var lookup: map<TxId, nat>
    var current: Block
    var markers: Markers

    ghost function View(): Heads
      reads this`canon, this`lookup, this`current, this`markers
    {
      Heads(canon, lookup, current, markers)
    }

    /** The stored blocks are a weighed tree, and the index is the chain of the marked head. */
    ghost predicate Valid()
      reads this
    {
      && Rooted(blocks, genesis) && Weighed(blocks, td) && current in blocks && CanonicalUpTo(canon, current)
      && markers == Markers(Digest(current), Digest(current), Digest(current))
    }

    constructor (genesis: Block, terminal: Option<nat>)
      requires genesis.number == 0 && genesis.parent.Raw? && genesis.txs == []
      ensures Valid() && blocks == {genesis} && current == genesis && this.terminal == terminal
      ensures Heaviest(blocks, current) && NothingAbove(canon, current) && IndexesAll(lookup, Path(current))
    {
      this.genesis, this.terminal := genesis, terminal;
      blocks, td, canon, lookup := {genesis}, map[genesis := genesis.difficulty], map[0 := Digest(genesis)], map[];
      current, markers := genesis, Markers(Digest(genesis), Digest(genesis), Digest(genesis));
    }

    method WriteHeadBlock(block: Block)
      modifies this`canon, this`lookup, this`current, this`markers
      ensures View() == WithHead(old(View()), block)
    {
      canon := canon[block.number := Digest(block)];
      lookup := Indexed(lookup, block);
      markers := Markers(Digest(block), Digest(block), Digest(block));
      current := block;
    }

    /** The part of `writeBlockWithState` that stores the block and its total difficulty. */
    method WriteBlockWithState(block: Block) returns (known: bool)
      requires Rooted(blocks, genesis) && Weighed(blocks, td)
      modifies this`blocks, this`td
      ensures Rooted(blocks, genesis) && Weighed(blocks, td)
      ensures known == GetBlock(old(blocks), block.parent, block.number - 1).Some?
      ensures blocks == if known then old(blocks) + {block} else old(blocks)
    {
      var parent := block.parent;
      if parent.Raw? || parent.block !in td || parent.block.number != block.number - 1 {
        return false;
      }
      StoreGrows(blocks, td, genesis, block, parent.block);
      td := td[block := block.difficulty + td[parent.block]];
      blocks := blocks + {block};
      known := true;
    }

    /** `reorg`.  It fails only on a missing block, and then it has changed nothing. */
    method Reorg(oldBlock: Block, newBlock: Block)
      returns (ok: bool, ghost common: Option<Block>, ghost oldChain: seq<Block>, ghost newChain: seq<Block>)
      modifies this`canon, this`lookup, this`current, this`markers
      ensures !ok ==> View() == old(View())
      ensures ok ==> common.Some? && Diverged(oldBlock, newBlock, oldChain, newChain, common.value, common.value)
      ensures ok ==> View() == Reorganised(old(View()), Reversed(oldChain), Reversed(newChain))
      ensures Rooted(blocks, genesis) && oldBlock in blocks && newBlock in blocks ==> ok
    {
      hide Diverged, Rooted, TxsOf, Reversed, Trimmed, WithHead;
      var shared, dropped, added := FindCommon(blocks, oldBlock, newBlock);
      common, oldChain, newChain := shared, dropped, added;
      if shared == None {
        return false, common, oldChain, newChain;
      }
      MakeHeads(added);
      var deletedTxs := CollectTxs(dropped);
      var addedTxs := CollectTxs(if added == [] then [] else added[1..]);
      var stale := HashDifference(deletedTxs, addedTxs);
      StaleTxs(dropped, added, stale);
      lookup := lookup - set tx | tx in stale;
      canon := TrimAbove(canon, current.number);
      ok := true;
    }

    /** Makes a stored block the head. */
    method FollowHead(block: Block) returns (ok: bool)
      requires Valid() && block in blocks
      modifies this`canon, this`lookup, this`current, this`markers
      ensures ok && Valid() && current == block
      ensures old(NothingAbove(canon, current)) ==>
        (NothingAbove(canon, block) <==> block.number >= old(current).number || !Joins(block, old(current)))
      ensures old(IndexesAll(lookup, Path(current)) && NoReplay(current)) ==> IndexesAll(lookup, Path(block))
    {
      hide Diverged, TxsOf, Reversed, Reorganised, IndexesAll, NoReplay, NothingAbove, CanonicalUpTo, Joins;
      var was := current;
      ghost var s := View();
      if block.parent != Digest(was) {
        ghost var common, oldChain, newChain;
        ok, common, oldChain, newChain := Reorg(was, block);
        FollowsFork(blocks, genesis, s, was, block, common.value, oldChain, newChain);
      } else {
        FollowsParent(blocks, genesis, s, block);
        ok := true;
      }
      WriteHeadBlock(block);
    }

    /** `writeBlockAndSetHead`. */
    method WriteBlockAndSetHead(block: Block, taste: Taste) returns (status: Status)
      requires Valid()
      modifies this
      ensures Valid()
      ensures status == UnknownAncestor <==> GetBlock(old(blocks), block.parent, block.number - 1) == None
      ensures status in {UnknownAncestor, SideChain, CanonicalChain}
      ensures blocks == old(blocks) + if status == UnknownAncestor then {} else {block}
      ensures status != CanonicalChain ==> View() == old(View())
      ensures status == CanonicalChain ==> current == block
      ensures status == CanonicalChain <==>
        status != UnknownAncestor && ReorgNeeded(td, terminal, old(current), block, taste) == Verdict(true)
      ensures terminal.None? && old(Heaviest(blocks, current)) ==> Heaviest(blocks, current)
      ensures status == CanonicalChain && old(NothingAbove(canon, current)) ==>
        (NothingAbove(canon, block) <==> block.number >= old(current).number || !Joins(block, old(current)))
      ensures old(IndexesAll(lookup, Path(current)) && NoReplay(current)) ==> IndexesAll(lookup, Path(current))
    {
      hide IndexesAll, NoReplay, NothingAbove, CanonicalUpTo, Joins, Rooted;
      var known := WriteBlockWithState(block);
      if !known {
        return UnknownAncestor;
      }
      var verdict := ReorgNeeded(td, terminal, current, block, taste);
      if !verdict.reorg {
        return SideChain;
      }
      var ok := FollowHead(block);
      return CanonicalChain;
    }

    /**
     Any sequence of insertions: exactly the blocks whose parent was known in
     their turn are stored, the index is the head's chain, no stored block is
     heavier than the head, and the transaction index is exact unless some chain
     replays a transaction.
     */
    method InsertAll(inserts: seq<(Block, Taste)>) returns (statuses: seq<Status>)
      requires Valid()
      requires Heaviest(blocks, current) && IndexesAll(lookup, Path(current))
      modifies this
      ensures Valid() && blocks == Stored(old(blocks), inserts) && Judged(old(blocks), inserts, statuses)
      ensures CanonicalChain !in statuses ==> View() == old(View())
      ensures statuses != [] && statuses[|statuses| - 1] == CanonicalChain ==> current == inserts[|inserts| - 1].0
      ensures terminal.None? ==> Heaviest(blocks, current)
      ensures (forall b :: b in blocks ==> NoReplay(b)) ==> IndexesAll(lookup, Path(current))
    {
      hide IndexesAll, NoReplay, NothingAbove, CanonicalUpTo, Joins, Rooted, Judged, Stored;
      statuses := [];
      NoneJudged(blocks, inserts);
      for k := 0 to |inserts|
        invariant Valid() && blocks == Stored(old(blocks), inserts[..k]) && |statuses| == k
        invariant Judged(old(blocks), inserts[..k], statuses)
        invariant CanonicalChain !in statuses ==> View() == old(View())
        invariant k > 0 && statuses[k - 1] == CanonicalChain ==> current == inserts[k - 1].0
        invariant terminal.None? ==> Heaviest(blocks, current)
        invariant (forall b :: b in blocks ==> NoReplay(b)) ==> IndexesAll(lookup, Path(current))
      {
        var status := WriteBlockAndSetHead(inserts[k].0, inserts[k].1);
        JudgedNext(old(blocks), inserts, k, statuses, status);
        statuses := statuses + [status];
      }
      assert inserts[..|inserts|] == inserts;
    }

    /** Makes all blocks but the first heads, from the last on. */
    method MakeHeads(chain: seq<Block>)
      modifies this`canon, this`lookup, this`current, this`markers
      ensures View() == WithHeads(old(View()), AllButHead(Reversed(chain)))
    {
      hide WithHead;
      ghost var r := Reversed(chain);
      ghost var s := View();
      var i := |chain| - 1;
      while i >= 1
        invariant chain != [] ==> 0 <= i < |chain| && View() == WithHeads(s, r[..|chain| - 1 - i])
        invariant chain == [] ==> View() == s
      {
        assert r[..|chain| - i] == r[..|chain| - 1 - i] + [chain[i]];
        WriteHeadBlock(chain[i]);
        i := i - 1;
      }
    }
  }

  /** The parent of a block is not stored. */
  predicate Orphan(blocks: set<Block>, b: Block) {
    GetBlock(blocks, b.parent, b.number - 1) == None
  }

  /** What is stored once the given blocks have been offered one after the other. */
  ghost function Stored(blocks: set<Block>, inserts: seq<(Block, Taste)>): set<Block> {
    if inserts == [] then blocks
    else
      var before, b := Stored(blocks, inserts[..|inserts| - 1]), inserts[|inserts| - 1].0;
      if Orphan(before, b) then before else before + {b}
  }

  /** Refused are exactly the blocks whose parent is not stored in their turn. */
  ghost predicate Judged(blocks: set<Block>, inserts: seq<(Block, Taste)>, statuses: seq<Status>) {
    && |statuses| == |inserts|
    && forall k :: 0 <= k < |inserts| ==>
         (statuses[k] == UnknownAncestor <==> Orphan(Stored(blocks, inserts[..k]), inserts[k].0))
  }

  lemma NoneJudged(blocks: set<Block>, inserts: seq<(Block, Taste)>)
    ensures Stored(blocks, inserts[..0]) == blocks && Judged(blocks, inserts[..0], [])
  {
  }

  lemma JudgedNext(blocks: set<Block>, inserts: seq<(Block, Taste)>, k: nat, statuses: seq<Status>, status: Status)
    requires k < |inserts| && Judged(blocks, inserts[..k], statuses)
    requires status == UnknownAncestor <==> Orphan(Stored(blocks, inserts[..k]), inserts[k].0)
    ensures Judged(blocks, inserts[..k + 1], statuses + [status])
    ensures Stored(blocks, inserts[..k + 1])
      == Stored(blocks, inserts[..k]) + if status == UnknownAncestor then {} else {inserts[k].0}
  {
    hide Orphan;
    var shorter, longer := inserts[..k], inserts[..k + 1];
    assert longer[..k] == shorter;
    forall j | 0 <= j < |longer|
      ensures (statuses + [status])[j] == UnknownAncestor <==> Orphan(Stored(blocks, longer[..j]), longer[j].0)
    {
      if j < k {
        assert shorter[..j] == longer[..j] && shorter[j] == longer[j];
      }
    }
  }

  /** A block is stored exactly if it was before, or was offered once its parent was. */
  lemma {:induction false} StoredIff(blocks: set<Block>, inserts: seq<(Block, Taste)>, b: Block)
    ensures b in Stored(blocks, inserts) <==>
      b in blocks
      || exists k :: 0 <= k < |inserts| && inserts[k].0 == b && !Orphan(Stored(blocks, inserts[..k]), b)
  {
    if inserts != [] {
      var front := inserts[..|inserts| - 1];
      StoredIff(blocks, front, b);
      assert forall k :: 0 <= k < |front| ==> front[k] == inserts[k] && front[..k] == inserts[..k];
    }
  }

  lemma StaleTxs(oldChain: seq<Block>, newChain: seq<Block>, stale: seq<TxId>)
    requires forall tx :: tx in stale <==>
      tx in TxsOf(oldChain) && tx !in TxsOf(if newChain == [] then [] else newChain[1..])
    ensures (set tx | tx in stale) == TxsOf(Reversed(oldChain)) - TxsOf(AllButHead(Reversed(newChain)))
  {
    TxsOfReversed(oldChain);
    if newChain == [] {
      assert forall tx :: tx in stale <==> tx in TxsOf(oldChain);
    } else {
      TxsOfReversed(newChain[1..]);
      assert AllButHead(Reversed(newChain)) == Reversed(newChain[1..]);
    }
  }

  lemma FollowsFork(blocks: set<Block>, genesis: Block, s: Heads, was: Block, head: Block, common: Block,
                    oldChain: seq<Block>, newChain: seq<Block>)
    requires Rooted(blocks, genesis) && was in blocks && head in blocks && s.current == was
    requires CanonicalUpTo(s.canon, was)
    requires Diverged(was, head, oldChain, newChain, common, common)
    ensures var r := WithHead(Reorganised(s, Reversed(oldChain), Reversed(newChain)), head);
      && CanonicalUpTo(r.canon, head)
      && (NothingAbove(s.canon, was) ==>
            (NothingAbove(r.canon, head) <==> head.number >= was.number || !Joins(head, was)))
      && (IndexesAll(s.lookup, Path(was)) && NoReplay(was) ==> IndexesAll(r.lookup, Path(head)))
  {
    hide CanonicalUpTo, NothingAbove, IndexesAll, NoReplay, Reorganised, Joins, Fork, WithHead, Rooted, Reversed,
      Climbs, Path;
    ForkFound(blocks, genesis, was, head, common, oldChain, newChain);
    ReversedMembers(oldChain);
    ReversedMembers(newChain);
    SwitchKeeps(s, was, head, Path(common), Reversed(oldChain), Reversed(newChain));
    JoinsIff(was, head, Path(common), Reversed(oldChain), Reversed(newChain));
  }

  lemma FollowsParent(blocks: set<Block>, genesis: Block, s: Heads, head: Block)
    requires Rooted(blocks, genesis) && head in blocks && CanonicalUpTo(s.canon, s.current)
    requires head.parent == Digest(s.current)
    ensures var r := WithHead(s, head);
      && CanonicalUpTo(r.canon, head)
      && (NothingAbove(s.canon, s.current) ==> NothingAbove(r.canon, head)) && head.number > s.current.number
      && (IndexesAll(s.lookup, Path(s.current)) ==> IndexesAll(r.lookup, Path(head)))
  {
    hide IndexesAll, NothingAbove;
    Extends(s, head);
  }
}
