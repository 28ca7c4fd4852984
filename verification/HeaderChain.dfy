/**
 `core/headerchain.go`: batches of linked headers are stored with their total
 difficulty, and the canonical index is rewritten to the chain of the last one
 when the fork choice says so; ancestors are looked up through that index.
 */
module HeaderChains {
  import opened Prelude
  import opened ChainStore
  import opened ForkChoice

  ghost predicate Follows(batch: seq<Block>, i: nat)
    requires 1 <= i < |batch|
  {
    batch[i].parent == Digest(batch[i - 1]) && batch[i].number == batch[i - 1].number + 1
  }

  /** What header validation establishes: every header follows the one before it. */
  ghost predicate Linked(batch: seq<Block>) {
    forall i :: 1 <= i < |batch| ==> Follows(batch, i)
  }

  ghost predicate ExactIndex(canon: Canon, head: Block) {
    CanonicalUpTo(canon, head) && NothingAbove(canon, head)
  }

  /** In a linked batch the chain of one header is the chain of the first and the headers between. */
  lemma {:induction false} BatchPath(batch: seq<Block>, i: nat)
    requires Linked(batch) && i < |batch|
    ensures Path(batch[i]) == Path(batch[0]) + batch[1..i + 1]
    ensures batch[i].number == batch[0].number + i
    ensures TotalDifficulty(batch[0]) <= TotalDifficulty(batch[i])
  {
    if i > 0 {
      assert Follows(batch, i);
      BatchPath(batch, i - 1);
      assert batch[1..i + 1] == batch[1..i] + [batch[i]];
    }
  }

  // ---------------------------------------------------------------- storing a batch

  ghost function Members(batch: seq<Block>): set<Block> {
    set i | 0 <= i < |batch| :: batch[i]
  }

  /** The stored headers after the first `i` of a batch, and how far the loop has come with them. */
  ghost predicate StoredUpTo(headers: set<Block>, genesis: Block, batch: seq<Block>, i: nat,
                             next: set<Block>, td: map<Block, nat>, newTd: nat, inserted: nat, parentKnown: bool) {
    && batch != [] && i <= |batch| && next == headers + Members(batch[..i])
    && Rooted(next, genesis) && Weighed(next, td) && inserted == |next| - |headers|
    && (if i == 0 then parentKnown && newTd + batch[0].difficulty == TotalDifficulty(batch[0])
        else newTd == TotalDifficulty(batch[i - 1]) && (parentKnown <==> batch[i - 1] in headers))
  }

  lemma StoresNext(headers: set<Block>, genesis: Block, batch: seq<Block>, i: nat,
                   next: set<Block>, td: map<Block, nat>, newTd: nat, inserted: nat, parentKnown: bool)
    requires batch != [] && Linked(batch) && Rooted(headers, genesis) && i < |batch|
    requires GetBlock(headers, batch[0].parent, batch[0].number - 1).Some?
    requires StoredUpTo(headers, genesis, batch, i, next, td, newTd, inserted, parentKnown)
    ensures parentKnown && batch[i] in headers ==>
      StoredUpTo(headers, genesis, batch, i + 1, next, td, newTd + batch[i].difficulty, inserted, true)
    ensures !(parentKnown && batch[i] in headers) ==>
      StoredUpTo(headers, genesis, batch, i + 1, next + {batch[i]}, td[batch[i] := newTd + batch[i].difficulty],
                 newTd + batch[i].difficulty, inserted + 1, false)
  {
    hide Path, Members, Linked, TotalDifficulty, Rooted, Weighed;
    var h := batch[i];
    MembersPush(batch, i);
    NextHasParent(headers, genesis, batch, i, next, td, newTd);
    StoreGrows(next, td, genesis, h, h.parent.block);
    NextIsNew(headers, genesis, batch, i);
    assert h in headers ==> next + {h} == next;
    assert h !in headers ==> |next + {h}| == |next| + 1;
  }

  lemma MembersPush(batch: seq<Block>, i: nat)
    requires i < |batch|
    ensures Members(batch[..i + 1]) == Members(batch[..i]) + {batch[i]}
  {
    assert batch[..i + 1][i] == batch[i];
    assert forall k :: 0 <= k < i ==> batch[..i + 1][k] == batch[..i][k];
  }

  lemma NextHasParent(headers: set<Block>, genesis: Block, batch: seq<Block>, i: nat, next: set<Block>,
                      td: map<Block, nat>, newTd: nat)
    requires Weighed(next, td) && Linked(batch) && i < |batch| && next == headers + Members(batch[..i])
    requires GetBlock(headers, batch[0].parent, batch[0].number - 1).Some?
    requires if i == 0 then newTd + batch[0].difficulty == TotalDifficulty(batch[0])
             else newTd == TotalDifficulty(batch[i - 1])
    ensures batch[i].parent.Digest? && batch[i].parent.block in next
    ensures batch[i].number == batch[i].parent.block.number + 1
    ensures newTd + batch[i].difficulty == TotalDifficulty(batch[i]) && newTd == td[batch[i].parent.block]
  {
    if i > 0 {
      assert Follows(batch, i);
      assert batch[..i][i - 1] == batch[i - 1];
    }
  }

  /** A header of the batch is stored only if the one before it is, and it is not in the batch twice. */
  lemma NextIsNew(headers: set<Block>, genesis: Block, batch: seq<Block>, i: nat)
    requires Linked(batch) && i < |batch| && Rooted(headers, genesis)
    requires GetBlock(headers, batch[0].parent, batch[0].number - 1).Some?
    ensures batch[i] !in Members(batch[..i])
    ensures i > 0 && batch[i - 1] !in headers ==> batch[i] !in headers
  {
    if i > 0 {
      assert Follows(batch, i);
    }
    forall k | 0 <= k < i ensures batch[k] != batch[i] {
      BatchPath(batch, k);
      BatchPath(batch, i);
    }
  }

  /** The loop of `WriteHeaders`: what the database holds when the write batch is applied. */
  method StoreBatch(headers: set<Block>, td0: map<Block, nat>, ghost genesis: Block, batch: seq<Block>, ptd: nat)
    returns (next: set<Block>, td: map<Block, nat>, inserted: nat)
    requires batch != [] && Linked(batch) && Rooted(headers, genesis) && Weighed(headers, td0)
    requires GetBlock(headers, batch[0].parent, batch[0].number - 1).Some? && ptd == td0[batch[0].parent.block]
    ensures next == headers + Members(batch) && Rooted(next, genesis) && Weighed(next, td)
    ensures inserted == |next| - |headers|
  {
    hide Rooted, Weighed, Linked;
    var newTd: nat, parentKnown := ptd, true;
    next, td, inserted := headers, td0, 0;
    BatchStarts(headers, td0, genesis, batch, ptd);
    for i := 0 to |batch|
      invariant StoredUpTo(headers, genesis, batch, i, next, td, newTd, inserted, parentKnown)
    {
      StoresNext(headers, genesis, batch, i, next, td, newTd, inserted, parentKnown);
      var header := batch[i];
      newTd := newTd + header.difficulty;
      var alreadyKnown := parentKnown && header in headers;
      if !alreadyKnown {
        td := td[header := newTd];
        next := next + {header};
        inserted := inserted + 1;
      }
      parentKnown := alreadyKnown;
    }
    assert batch[..|batch|] == batch;
  }

  lemma BatchStarts(headers: set<Block>, td: map<Block, nat>, genesis: Block, batch: seq<Block>, ptd: nat)
    requires batch != [] && Rooted(headers, genesis) && Weighed(headers, td)
    requires GetBlock(headers, batch[0].parent, batch[0].number - 1).Some? && ptd == td[batch[0].parent.block]
    ensures StoredUpTo(headers, genesis, batch, 0, headers, td, ptd, 0, true)
  {
    assert Members(batch[..0]) == {};
  }

  // ---------------------------------------------------------------- rewriting the index

  /** An index with the entries from `lo` up replaced by a run of blocks. */
  ghost predicate Laid(was: Canon, next: Canon, lo: nat, run: seq<Block>) {
    && (forall j: nat :: j in next <==> j in was || lo <= j < lo + |run|)
    && (forall j: nat :: j in next ==> next[j] == if lo <= j < lo + |run| then Digest(run[j - lo]) else was[j])
  }

  /** The state a reorg starts from: a tree of headers and the exact index of one of them. */
  ghost predicate Sane(headers: set<Block>, genesis: Block, canon: Canon, current: Block) {
    Rooted(headers, genesis) && current in headers && ExactIndex(canon, current)
  }

  /** Where the walk back from a header stands: the chain above the cursor is laid into the index. */
  ghost predicate LaidBack(was: Canon, next: Canon, first: Block, cursor: Block) {
    && |Path(first)| == first.number + 1 && cursor.number <= first.number
    && Path(first)[cursor.number] == cursor && Path(first)[..cursor.number + 1] == Path(cursor)
    && Laid(was, next, cursor.number + 1, Path(first)[cursor.number + 1..])
  }

  lemma LaidDown(was: Canon, next: Canon, lo: nat, run: seq<Block>, b: Block)
    requires Laid(was, next, lo + 1, run)
    ensures Laid(was, next[lo := Digest(b)], lo, [b] + run)
  {
  }

  lemma LaidUp(was: Canon, next: Canon, lo: nat, run: seq<Block>, b: Block)
    requires Laid(was, next, lo, run)
    ensures Laid(was, next[lo + |run| := Digest(b)], lo, run + [b])
  {
  }

  lemma CursorHasParent(headers: set<Block>, genesis: Block, first: Block, cursor: Block)
    requires Rooted(headers, genesis) && first in headers && cursor in Path(first) && cursor != genesis
    ensures cursor.number > 0 && GetBlock(headers, cursor.parent, cursor.number - 1).Some?
  {
    StoredIsNumbered(headers, genesis, first);
  }

  lemma LaysOne(headers: set<Block>, genesis: Block, was: Canon, next: Canon, first: Block, cursor: Block)
    requires Rooted(headers, genesis) && first in headers && LaidBack(was, next, first, cursor) && cursor != genesis
    ensures cursor.number > 0 && GetBlock(headers, cursor.parent, cursor.number - 1).Some?
    ensures LaidBack(was, next[cursor.number := Digest(cursor)], first, cursor.parent.block)
  {
    hide Laid, Rooted;
    CursorHasParent(headers, genesis, first, cursor);
    var p, n := Path(first), cursor.number;
    LaidDown(was, next, n, p[n + 1..], cursor);
    var parent := cursor.parent.block;
    assert Path(cursor) == Path(parent) + [cursor];
    SplitAt(p, n, Path(parent), cursor);
  }

  lemma SplitAt(p: seq<Block>, n: nat, q: seq<Block>, b: Block)
    requires n < |p| && p[..n + 1] == q + [b]
    ensures p[..n] == q && p[n..] == [b] + p[n + 1..] && p[n] == b
  {
    assert p[..n + 1][n] == p[n] == b;
    assert p[..n] == p[..n + 1][..n];
  }

  lemma LaysNone(headers: set<Block>, genesis: Block, canon: Canon, first: Block)
    requires Rooted(headers, genesis) && first in headers
    ensures LaidBack(canon, canon, first, first)
  {
    StoredIsNumbered(headers, genesis, first);
    PathIsIndexed(first);
    assert Path(first)[..first.number + 1] == Path(first);
  }

  lemma GenesisIsCanonical(headers: set<Block>, genesis: Block, canon: Canon, current: Block)
    requires Sane(headers, genesis, canon, current)
    ensures 0 in canon && canon[0] == Digest(genesis)
  {
    StoredIsNumbered(headers, genesis, current);
  }

  lemma CursorAtZero(headers: set<Block>, genesis: Block, was: Canon, next: Canon, first: Block, cursor: Block)
    requires Rooted(headers, genesis) && first in headers && LaidBack(was, next, first, cursor)
    ensures cursor.number == 0 <==> cursor == genesis
  {
    StoredIsNumbered(headers, genesis, first);
    assert cursor in Path(first);
  }

  predicate Canonical(canon: Canon, b: Block) {
    b.number in canon && canon[b.number] == Digest(b)
  }

  /** The header `j` stored parents below a header, if they are all there. */
  ghost function Below(headers: set<Block>, first: Block, j: nat): Option<Block> {
    if j == 0 then Some(first)
    else
      var b := Below(headers, first, j - 1);
      if b.Some? && b.value.number > 0 then GetBlock(headers, b.value.parent, b.value.number - 1) else None
  }

  /** The first `j` headers on the way down are there, and none of them is canonical. */
  ghost predicate OffIndex(headers: set<Block>, canon: Canon, first: Block, j: nat) {
    forall i :: 0 <= i < j ==> Below(headers, first, i).Some? && !Canonical(canon, Below(headers, first, i).value)
  }

  /** An index with the first `j` headers on the way down written to it. */
  ghost function WrittenDown(headers: set<Block>, was: Canon, first: Block, j: nat): Canon {
    if j == 0 then was
    else
      var b := Below(headers, first, j - 1);
      if b == None then was
      else WrittenDown(headers, was, first, j - 1)[b.value.number := Digest(b.value)]
  }

  /** The `j`th header on the way down is the first canonical one, or one numbered zero before any is. */
  ghost predicate Links(headers: set<Block>, canon: Canon, first: Block, j: nat) {
    && OffIndex(headers, canon, first, j) && Below(headers, first, j).Some?
    && (Canonical(canon, Below(headers, first, j).value) || Below(headers, first, j).value.number == 0)
  }

  lemma LinksOnce(headers: set<Block>, canon: Canon, first: Block, j: nat, k: nat)
    requires Links(headers, canon, first, j) && Links(headers, canon, first, k)
    ensures j == k
  {
    ZeroIsLast(headers, first, j);
    ZeroIsLast(headers, first, k);
  }

  lemma ZeroIsLast(headers: set<Block>, first: Block, j: nat)
    ensures var b := Below(headers, first, j);
      b.Some? && b.value.number == 0 ==> Below(headers, first, j + 1) == None
  {
  }

  /** Headers that are off the index down to one with a missing parent link nowhere. */
  lemma NeverLinks(headers: set<Block>, canon: Canon, first: Block, j: nat, k: nat)
    requires k > 0 && OffIndex(headers, canon, first, k) && Below(headers, first, k) == None
    requires Below(headers, first, k - 1).value.number > 0
    ensures !Links(headers, canon, first, j)
  {
    ZeroIsLast(headers, first, j);
    if k <= j {
      MissingBelow(headers, first, k, j);
    }
  }

  lemma {:induction false} MissingBelow(headers: set<Block>, first: Block, k: nat, j: nat)
    requires k <= j && Below(headers, first, k) == None
    ensures Below(headers, first, j) == None
    decreases j
  {
    if k < j {
      MissingBelow(headers, first, k, j - 1);
    }
  }

  /**
   The loop of `Reorg` that goes back from the first header to the cross link,
   the first canonical header on the way or one numbered zero.  It fails exactly
   when there is none, and writes the headers passed into the index.
   */
  method CrossLink(headers: set<Block>, canon: Canon, was: Canon, first: Block, ghost genesis: Block,
                   ghost current: Block)
    returns (ok: bool, next: Canon, ghost link: Block)
    ensures ok <==> exists j: nat :: Links(headers, canon, first, j)
    ensures forall j: nat :: Links(headers, canon, first, j) ==>
      && Below(headers, first, j) == Some(link)
      && next == WrittenDown(headers, was, first, if Canonical(canon, link) then j else j + 1)
    ensures Sane(headers, genesis, canon, current) && first in headers ==>
      ok && LaidBack(was, next, first, link) && Canonical(canon, link)
  {
    hide LaidBack, Sane, Rooted, Path;
    var header := first;
    next, link, ok := was, first, true;
    ghost var steps: nat := 0;
    ghost var sane := Sane(headers, genesis, canon, current) && first in headers;
    if sane {
      SaneParts(headers, genesis, canon, current);
      LaysNone(headers, genesis, was, first);
      GenesisIsCanonical(headers, genesis, canon, current);
    }
    while !Canonical(canon, header)
      invariant sane ==> LaidBack(was, next, first, header)
      invariant OffIndex(headers, canon, first, steps) && Below(headers, first, steps) == Some(header)
      invariant next == WrittenDown(headers, was, first, steps)
      decreases header.number
    {
      ghost var before := next;
      next := next[header.number := Digest(header)];
      if sane {
        CursorAtZero(headers, genesis, was, before, first, header);
        if header != genesis {
          LaysOne(headers, genesis, was, before, first, header);
        }
      }
      if header.number == 0 {
        break;
      }
      var parent := GetBlock(headers, header.parent, header.number - 1);
      steps := steps + 1;
      if parent == None {
        forall j: nat ensures !Links(headers, canon, first, j) {
          NeverLinks(headers, canon, first, j, steps);
        }
        return false, was, first;
      }
      header := parent.value;
    }
    link := header;
    assert Links(headers, canon, first, steps);
    forall j: nat | Links(headers, canon, first, j) ensures j == steps {
      LinksOnce(headers, canon, first, j, steps);
    }
  }

  lemma SaneParts(headers: set<Block>, genesis: Block, canon: Canon, current: Block)
    requires Sane(headers, genesis, canon, current)
    ensures Rooted(headers, genesis) && current in headers && ExactIndex(canon, current)
  {
  }

  /** The loop of `Reorg` that piles the batch onto the index. */
  method PileUp(was: Canon, batch: seq<Block>) returns (next: Canon, head: Hash)
    requires batch != [] && Linked(batch)
    ensures Laid(was, next, batch[0].number, batch) && head == Digest(batch[|batch| - 1])
  {
    hide Laid;
    next := was;
    LaidNone(was, batch[0].number);
    for i := 0 to |batch| - 1
      invariant Laid(was, next, batch[0].number, batch[..i])
    {
      assert Follows(batch, i + 1);
      BatchPath(batch, i);
      LaidUp(was, next, batch[0].number, batch[..i], batch[i]);
      assert batch[..i + 1] == batch[..i] + [batch[i]];
      next := next[batch[i].number := batch[i + 1].parent];
      head := batch[i + 1].parent;
    }
    var last := batch[|batch| - 1];
    BatchPath(batch, |batch| - 1);
    LaidUp(was, next, batch[0].number, batch[..|batch| - 1], last);
    assert batch == batch[..|batch| - 1] + [last];
    next := next[last.number := Digest(last)];
    head := Digest(last);
  }

  lemma LaidNone(canon: Canon, lo: nat)
    ensures Laid(canon, canon, lo, [])
  {
  }

  /** The index of exactly the blocks of a chain. */
  ghost predicate Holds(canon: Canon, p: seq<Block>) {
    && (forall j: nat :: j in canon <==> j < |p|)
    && (forall j: nat :: j < |p| ==> j in canon && canon[j] == Digest(p[j]))
  }

  lemma ExactHolds(canon: Canon, head: Block)
    ensures ExactIndex(canon, head) <==> |Path(head)| == head.number + 1 && Holds(canon, Path(head))
  {
  }

  lemma HeldAt(canon: Canon, p: seq<Block>, b: Block)
    requires Holds(canon, p) && Canonical(canon, b)
    ensures b.number < |p| && p[b.number] == b
  {
  }

  lemma LaidHolds(was: Canon, next: Canon, p: seq<Block>, run: seq<Block>)
    requires Holds(was, p) && Laid(was, next, |p|, run)
    ensures Holds(next, p + run)
  {
  }

  lemma PiledPath(current: Block, batch: seq<Block>)
    requires batch != [] && Linked(batch) && batch[0].parent == Digest(current)
    ensures Path(batch[|batch| - 1]) == Path(current) + batch
    ensures batch[|batch| - 1].number == batch[0].number + |batch| - 1
  {
    BatchPath(batch, |batch| - 1);
    assert Path(batch[0]) == Path(current) + [batch[0]];
    assert batch[1..|batch| - 1 + 1] == batch[1..];
    assert [batch[0]] + batch[1..] == batch;
  }

  /** Piled onto the head the index was exact for. */
  lemma PiledIsExact(canon: Canon, next: Canon, current: Block, batch: seq<Block>)
    requires batch != [] && Linked(batch) && ExactIndex(canon, current)
    requires batch[0].parent == Digest(current) && batch[0].number == current.number + 1
    requires Laid(canon, next, batch[0].number, batch)
    ensures ExactIndex(next, batch[|batch| - 1])
  {
    hide ExactIndex, Path, Linked, Laid, Holds;
    ExactHolds(canon, current);
    PiledPath(current, batch);
    LaidHolds(canon, next, Path(current), batch);
    ExactHolds(next, batch[|batch| - 1]);
  }

  /** Switched over at a cross link, also to a shorter chain. */
  lemma SwitchedIsExact(canon: Canon, mid: Canon, next: Canon, current: Block, batch: seq<Block>, link: Block)
    requires batch != [] && Linked(batch) && ExactIndex(canon, current)
    requires LaidBack(Trimmed(canon, batch[|batch| - 1].number), mid, batch[0], link)
    requires Canonical(canon, link)
    requires Laid(mid, next, batch[0].number, batch)
    ensures ExactIndex(next, batch[|batch| - 1])
  {
    hide ExactIndex, Path, Trimmed, Linked, Laid, Holds;
    var first, last := batch[0], batch[|batch| - 1];
    BatchPath(batch, |batch| - 1);
    assert batch[1..|batch| - 1 + 1] == batch[1..];
    ExactHolds(canon, current);
    HeldAt(canon, Path(current), link);
    SharedBelow(current, first, link);
    TrimmedHolds(canon, Path(current), Path(first), link.number, last.number);
    SwitchHolds(Trimmed(canon, last.number), mid, next, Path(first), link.number, batch);
    ExactHolds(next, last);
  }

  /** Trimmed above `top`, the index of a chain agrees with one that shares its start. */
  lemma TrimmedHolds(canon: Canon, q: seq<Block>, p: seq<Block>, n: nat, top: nat)
    requires q != [] && Holds(canon, q) && n < |q| && n < |p| && n <= top
    requires forall j :: 0 <= j <= n ==> q[j] == p[j]
    ensures forall j :: 0 <= j <= n ==> j in Trimmed(canon, top) && Trimmed(canon, top)[j] == Digest(p[j])
    ensures forall j: nat :: j in Trimmed(canon, top) ==> j <= top
  {
    hide Trimmed;
    TrimmedFromRun(canon, top, |q| - 1);
  }

  /** A chain laid above a point where the index agrees with it, and then a batch on top. */
  lemma SwitchHolds(was: Canon, mid: Canon, next: Canon, p: seq<Block>, n: nat, batch: seq<Block>)
    requires n < |p| && Laid(was, mid, n + 1, p[n + 1..])
    requires forall j :: 0 <= j <= n ==> j in was && was[j] == Digest(p[j])
    requires batch != [] && p[|p| - 1] == batch[0] && Laid(mid, next, |p| - 1, batch)
    requires forall j: nat :: j in was ==> j <= |p| - 1 + |batch| - 1
    ensures Holds(next, p + batch[1..])
  {
    hide Laid;
    MidIsChain(was, mid, p, n);
    LaidIsChain(mid, next, p, batch);
  }

  /** Laid above a point the index agrees with a chain up to, the chain is in the index. */
  lemma MidIsChain(was: Canon, mid: Canon, p: seq<Block>, n: nat)
    requires n < |p| && Laid(was, mid, n + 1, p[n + 1..])
    requires forall j :: 0 <= j <= n ==> j in was && was[j] == Digest(p[j])
    ensures forall j :: 0 <= j < |p| ==> j in mid && mid[j] == Digest(p[j])
    ensures forall j: nat :: j in mid ==> j in was || j < |p|
  {
  }

  lemma LaidIsChain(mid: Canon, next: Canon, p: seq<Block>, batch: seq<Block>)
    requires batch != [] && p != [] && p[|p| - 1] == batch[0] && Laid(mid, next, |p| - 1, batch)
    requires forall j :: 0 <= j < |p| ==> j in mid && mid[j] == Digest(p[j])
    ensures forall j :: 0 <= j < |p + batch[1..]| ==> j in next && next[j] == Digest((p + batch[1..])[j])
    ensures forall j: nat :: j in next ==> j in mid || j < |p + batch[1..]|
  {
  }

  lemma SharedBelow(current: Block, first: Block, link: Block)
    requires link.number < |Path(current)| && Path(current)[link.number] == link
    requires link.number < |Path(first)| && Path(first)[..link.number + 1] == Path(link)
    ensures forall j :: 0 <= j <= link.number ==> Path(current)[j] == Path(first)[j]
  {
    PathPrefix(current, link.number);
    assert forall j :: 0 <= j <= link.number ==> Path(link)[j] == Path(current)[j] && Path(link)[j] == Path(first)[j];
  }

  // ---------------------------------------------------------------- the header chain

  datatype Result =
    | UnknownAncestor | Aborted | MissingTotal | MissingParent
    | Written(status: Status, imported: nat, ignored: nat)

  datatype Status = Unchanged | SideChain | CanonicalChain

  /** No header of a batch is heavier than its last one. */
  lemma HeaviestWith(headers: set<Block>, batch: seq<Block>, head: Block)
    requires batch != [] && Linked(batch) && head in headers + Members(batch)
    requires forall b :: b in headers ==> TotalDifficulty(b) <= TotalDifficulty(head)
    requires TotalDifficulty(batch[|batch| - 1]) <= TotalDifficulty(head)
    ensures Heaviest(headers + Members(batch), head)
  {
    forall i | 0 <= i < |batch| ensures TotalDifficulty(batch[i]) <= TotalDifficulty(head) {
      BatchGrows(batch, i, |batch| - 1);
    }
  }

  lemma {:induction false} BatchGrows(batch: seq<Block>, i: nat, j: nat)
    requires Linked(batch) && i <= j < |batch|
    ensures TotalDifficulty(batch[i]) <= TotalDifficulty(batch[j])
    decreases j
  {
    if i < j {
      assert Follows(batch, j);
      BatchGrows(batch, i, j - 1);
    }
  }

  /** A header is on the index already, at or below the current one. */
  predicate OnIndex(canon: Canon, current: Block, b: Block) {
    Canonical(canon, b) && b.number <= current.number
  }

  class HeaderChain {
    const genesis: Block
    const terminal: Option<nat>

    var headers: set<Block>
    var td: map<Block, nat>
    var canon: Canon
    var current: Block
    var headHash: Hash

    /** Stored headers are weighed, and the index is exactly the chain of the current header. */
    ghost predicate Valid()
      reads this
    {
      Sane(headers, genesis, canon, current) && Weighed(headers, td) && headHash == Digest(current)
    }

    constructor (genesis: Block, terminal: Option<nat>)
      requires genesis.number == 0 && genesis.parent.Raw?
      ensures Valid() && headers == {genesis} && current == genesis && Heaviest(headers, current)
    {
      this.genesis, this.terminal := genesis, terminal;
      headers, td, canon := {genesis}, map[genesis := genesis.difficulty], map[0 := Digest(genesis)];
      current, headHash := genesis, Digest(genesis);
    }

    /** `WriteHeaders`.  The count is of the headers that were new. */
    method WriteHeaders(batch: seq<Block>, interrupted: bool) returns (failure: Option<Result>, inserted: nat)
      requires Linked(batch) && Rooted(headers, genesis) && Weighed(headers, td)
      modifies this`headers, this`td
      ensures Rooted(headers, genesis) && Weighed(headers, td)
      ensures failure.Some? <==>
        batch != [] && (interrupted || GetBlock(old(headers), batch[0].parent, batch[0].number - 1) == None)
      ensures failure.Some? ==> failure.value in {UnknownAncestor, Aborted} && headers == old(headers) && td == old(td)
      ensures failure.None? ==> headers == old(headers) + Members(batch) && inserted == |headers| - |old(headers)|
    {
      failure, inserted := None, 0;
      if batch == [] {
        return;
      }
      var parent := batch[0].parent;
      if parent.Raw? || parent.block !in td || parent.block.number != batch[0].number - 1 {
        return Some(UnknownAncestor), 0;
      }
      var next, totals, count := StoreBatch(headers, td, genesis, batch, td[parent.block]);
      if interrupted {
        return Some(Aborted), 0;
      }
      headers, td, inserted := next, totals, count;
    }

    /** `Reorg`.  A missing parent leaves everything as it was. */
    method Reorg(batch: seq<Block>) returns (ok: bool)
      requires Linked(batch)
      modifies this`canon, this`current, this`headHash
      ensures !ok || batch == [] ==> canon == old(canon) && current == old(current) && headHash == old(headHash)
      ensures old(Valid()) && (forall b :: b in batch ==> b in headers) ==> ok && Valid()
      ensures ok && batch != [] ==> current == batch[|batch| - 1]
    {
      hide Sane, Rooted, Linked, Laid, LaidBack, ExactIndex, Path, Trimmed;
      if batch == [] {
        return true;
      }
      var first, last := batch[0], batch[|batch| - 1];
      ghost var sane := Valid() && forall b :: b in batch ==> b in headers;
      var next := canon;
      ghost var link := first;
      if first.parent != headHash {
        next := TrimAbove(canon, last.number);
        ok, next, link := CrossLink(headers, canon, next, first, genesis, current);
        if !ok {
          return;
        }
      }
      var mid := next;
      var head;
      next, head := PileUp(mid, batch);
      if sane {
        ReorgIsExact(headers, genesis, canon, mid, next, current, batch, link);
      }
      canon, headHash, current, ok := next, head, last, true;
    }

    /** `writeHeadersAndSetHead`. */
    method WriteHeadersAndSetHead(batch: seq<Block>, interrupted: bool, taste: Taste) returns (result: Result)
      requires Valid() && Linked(batch) && batch != []
      modifies this
      ensures Valid()
      ensures result in {UnknownAncestor, Aborted} <==>
        interrupted || GetBlock(old(headers), batch[0].parent, batch[0].number - 1) == None
      ensures result.Written? || result in {UnknownAncestor, Aborted}
      ensures result.Written? ==>
        && headers == old(headers) + Members(batch)
        && result.imported == |headers| - |old(headers)| && result.ignored == |batch| - result.imported
      ensures !result.Written? ==> headers == old(headers)
      ensures if result.Written? && result.status == CanonicalChain then current == batch[|batch| - 1]
              else canon == old(canon) && current == old(current)
      ensures result.Written? ==>
        (result.status == CanonicalChain <==>
          && ReorgNeeded(td, terminal, old(current), batch[|batch| - 1], taste) == Verdict(true)
          && !OnIndex(old(canon), old(current), batch[|batch| - 1]))
      ensures terminal.None? && old(Heaviest(headers, current)) ==> Heaviest(headers, current)
    {
      hide Sane, Rooted, Linked, Weighed, Members, Heaviest, ExactIndex;
      SaneParts(headers, genesis, canon, current);
      ghost var was := headers;
      var failure, inserted := WriteHeaders(batch, interrupted);
      if failure.Some? {
        return failure.value;
      }
      var last := batch[|batch| - 1];
      MembersCount(was, headers, batch);
      SaneGrows(was, headers, genesis, canon, current);
      WeighedTotal(headers, td, current);
      WeighedTotal(headers, td, last);
      var verdict := ReorgNeeded(td, terminal, current, last, taste);
      if !verdict.reorg {
        KeepsHeaviest(was, batch, current, current);
        return Written(if inserted != 0 then SideChain else Unchanged, inserted, |batch| - inserted);
      }
      if OnIndex(canon, current, last) {
        CanonicalIsLighter(canon, current, last);
        KeepsHeaviest(was, batch, current, current);
        return Written(Unchanged, inserted, |batch| - inserted);
      }
      KeepsHeaviest(was, batch, current, last);
      var ok := Reorg(batch);
      return Written(CanonicalChain, inserted, |batch| - inserted);
    }
  }

  lemma ReorgIsExact(headers: set<Block>, genesis: Block, canon: Canon, mid: Canon, next: Canon, current: Block,
                     batch: seq<Block>, link: Block)
    requires Sane(headers, genesis, canon, current) && batch != [] && Linked(batch)
    requires forall b :: b in batch ==> b in headers
    requires if batch[0].parent == Digest(current) then mid == canon
      else LaidBack(Trimmed(canon, batch[|batch| - 1].number), mid, batch[0], link) && Canonical(canon, link)
    requires Laid(mid, next, batch[0].number, batch)
    ensures Sane(headers, genesis, next, batch[|batch| - 1])
  {
    hide LaidBack, Laid, ExactIndex, Path, Trimmed;
    assert batch[0] in headers && batch[|batch| - 1] in headers;
    if batch[0].parent == Digest(current) {
      PiledIsExact(canon, next, current, batch);
    } else {
      SwitchedIsExact(canon, mid, next, current, batch, link);
    }
  }

  lemma SaneGrows(was: set<Block>, headers: set<Block>, genesis: Block, canon: Canon, current: Block)
    requires Sane(was, genesis, canon, current) && Rooted(headers, genesis) && was <= headers
    ensures Sane(headers, genesis, canon, current)
  {
  }

  lemma MembersCount(was: set<Block>, headers: set<Block>, batch: seq<Block>)
    requires headers == was + Members(batch)
    ensures was <= headers && |headers| - |was| <= |batch| && forall b :: b in batch ==> b in headers
  {
    var i := 0;
    assert batch[..0] == [] && Members([]) == {};
    while i < |batch|
      invariant 0 <= i <= |batch| && |was + Members(batch[..i])| - |was| <= i
    {
      MembersPush(batch, i);
      assert was + Members(batch[..i + 1]) == was + Members(batch[..i]) + {batch[i]};
      i := i + 1;
    }
    assert batch[..|batch|] == batch;
  }

  lemma WeighedTotal(headers: set<Block>, td: map<Block, nat>, b: Block)
    requires Weighed(headers, td) && b in headers
    ensures b in td && td[b] == TotalDifficulty(b)
  {
  }

  lemma KeepsHeaviest(was: set<Block>, batch: seq<Block>, current: Block, head: Block)
    requires batch != [] && Linked(batch) && head in was + Members(batch)
    ensures Heaviest(was, current) && TotalDifficulty(current) <= TotalDifficulty(head) ==>
      (TotalDifficulty(batch[|batch| - 1]) <= TotalDifficulty(head) ==> Heaviest(was + Members(batch), head))
  {
    if Heaviest(was, current) && TotalDifficulty(current) <= TotalDifficulty(head) {
      if TotalDifficulty(batch[|batch| - 1]) <= TotalDifficulty(head) {
        HeaviestWith(was, batch, head);
      }
    }
  }

  lemma CanonicalIsLighter(canon: Canon, current: Block, b: Block)
    requires ExactIndex(canon, current) && b.number <= current.number && canon[b.number] == Digest(b)
    ensures TotalDifficulty(b) <= TotalDifficulty(current)
  {
    TotalGrows(current, b.number);
  }
}
