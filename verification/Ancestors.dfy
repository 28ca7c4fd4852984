/**
 Fast ancestor lookups: `HeaderChain.GetAncestor`, which jumps along the
 canonical index, and the memoised closure of `GetHashFn`.  Both are compared
 with following parent links one by one.
 */
module Ancestors {
  import opened Prelude
  import opened ChainStore

  /** What a database read of a missing hash gives. */
  const ZERO: Hash := Raw(0)

  /** The hash `k` parent links up from a hash. */
  ghost function Up(h: Hash, k: nat): Option<Hash> {
    if k == 0 then Some(h) else if h.Digest? then Up(h.block.parent, k - 1) else None
  }

  lemma {:induction false} UpAdds(h: Hash, a: nat, b: nat)
    requires Up(h, a).Some?
    ensures Up(h, a + b) == Up(Up(h, a).value, b)
  {
    if a > 0 {
      UpAdds(h.block.parent, a - 1, b);
    }
  }

  // ---------------------------------------------------------------- GetAncestor

  function ReadCanonical(canon: Canon, n: nat): Hash {
    if n in canon then canon[n] else ZERO
  }

  ghost predicate LinkedAt(canon: Canon, n: nat) {
    n in canon && n > 0 ==>
      n - 1 in canon && canon[n].Digest? && canon[n].block.number == n && canon[n].block.parent == canon[n - 1]
  }

  /** Every canonical block is the child of the canonical block below it. */
  ghost predicate ParentLinked(canon: Canon) {
    ZERO !in canon.Values && forall n :: LinkedAt(canon, n)
  }

  /** The exact index of a head is parent-linked. */
  lemma ExactIsLinked(canon: Canon, head: Block)
    requires CanonicalUpTo(canon, head) && NothingAbove(canon, head) && Numbered(head)
    ensures ParentLinked(canon)
  {
    PathIsIndexed(head);
    forall n: nat ensures LinkedAt(canon, n) {
      if n in canon && n > 0 {
        PathIsLinked(head, n - 1);
      }
    }
  }

  lemma {:induction false} CanonicalAncestor(canon: Canon, n: nat, k: nat)
    requires ParentLinked(canon) && n in canon && k <= n
    ensures n - k in canon && Up(canon[n], k) == Some(canon[n - k])
  {
    if k > 0 {
      assert LinkedAt(canon, n);
      CanonicalAncestor(canon, n - 1, k - 1);
    }
  }

  /** The `j`th ancestor is canonical. */
  ghost predicate CanonicalAt(canon: Canon, hash: Hash, number: nat, j: nat) {
    j <= number && Up(hash, j) == Some(ReadCanonical(canon, number - j))
  }

  /** No stored header but one numbered zero names the zero hash as its parent. */
  ghost predicate NoZeroParent(headers: set<Block>) {
    forall b :: b in headers && b.number > 0 ==> b.parent != ZERO
  }

  lemma RootedNamesParents(headers: set<Block>, genesis: Block)
    requires Rooted(headers, genesis)
    ensures NoZeroParent(headers)
  {
  }

  /** The walk of `GetAncestor` after `j` steps. */
  ghost predicate Walked(headers: set<Block>, genesis: Block, canon: Canon, hash: Hash, number: nat, j: nat, h: Hash) {
    && j <= number && Up(hash, j) == Some(h)
    && (hash == ZERO ==> j == 0) && (NoZeroParent(headers) && hash != ZERO ==> h != ZERO)
    && (forall i :: 0 <= i < j ==> !CanonicalAt(canon, hash, number, i))
    && (Rooted(headers, genesis) && GetBlock(headers, hash, number).Some? ==> GetBlock(headers, h, number - j).Some?)
  }

  lemma WalksOn(headers: set<Block>, genesis: Block, canon: Canon, hash: Hash, number: nat, j: nat, h: Hash)
    requires Walked(headers, genesis, canon, hash, number, j, h) && j < number
    requires ReadCanonical(canon, number - j) != h && GetBlock(headers, h, number - j).Some?
    ensures Walked(headers, genesis, canon, hash, number, j + 1, h.block.parent)
  {
    UpAdds(hash, j, 1);
  }

  /** A jump along the index lands on the ancestor, for every hash but zero. */
  lemma Jumps(headers: set<Block>, genesis: Block, canon: Canon, hash: Hash, number: nat, j: nat, h: Hash,
              ancestor: nat)
    requires ParentLinked(canon) && NoZeroParent(headers) && Walked(headers, genesis, canon, hash, number, j, h)
    requires j <= ancestor <= number && ReadCanonical(canon, number - j) == h && hash != ZERO
    ensures Up(hash, ancestor) == Some(ReadCanonical(canon, number - ancestor))
    ensures ReadCanonical(canon, number - ancestor) != ZERO
  {
    CanonicalAncestor(canon, number - j, ancestor - j);
    UpAdds(hash, j, ancestor - j);
  }

  lemma {:induction false} UpFromZero(k: nat)
    requires k > 0
    ensures Up(ZERO, k) == None
  {
  }

  /** What the zero hash is answered with: nothing, unless its number has no canonical block. */
  function ForZeroHash(canon: Canon, number: nat, ancestor: nat): Hash {
    if ancestor > number || ancestor == 1 || number in canon then ZERO else ReadCanonical(canon, number - ancestor)
  }

  /**
   `GetAncestor`.  A non-zero answer is the ancestor it was asked for exactly
   when the given hash is not zero, given a parent-linked index.  For a stored
   header there is an answer exactly when the budget lets the walk reach the
   target or the canonical chain; the answer for the parent needs no budget.
   */
  method GetAncestor(headers: set<Block>, canon: Canon, hash: Hash, number: nat, ancestor: nat, maxNonCanonical: nat,
                     ghost genesis: Block)
    returns (answer: Hash, at: nat, left: nat)
    ensures answer != ZERO ==> ancestor <= number && at == number - ancestor
    ensures ParentLinked(canon) && NoZeroParent(headers) && answer != ZERO ==>
      (Up(hash, ancestor) == Some(answer) <==> hash != ZERO)
    ensures ParentLinked(canon) && hash == ZERO ==> answer == ForZeroHash(canon, number, ancestor)
    ensures ParentLinked(canon) && Rooted(headers, genesis) && GetBlock(headers, hash, number).Some? ==>
      (answer != ZERO <==>
        && ancestor <= number
        && (ancestor <= 1 || ancestor <= maxNonCanonical
            || exists j :: 0 <= j <= maxNonCanonical && j < ancestor && CanonicalAt(canon, hash, number, j)))
  {
    hide ParentLinked, Walked, Rooted, CanonicalAt, NoZeroParent, ReadCanonical;
    left := maxNonCanonical;
    ZeroReads(canon);
    if ancestor > number {
      return ZERO, 0, left;
    }
    if ancestor == 1 {
      var header := GetBlock(headers, hash, number);
      if header.Some? {
        StoredParent(headers, genesis, hash, number);
        return header.value.parent, number - 1, left;
      }
      return ZERO, 0, left;
    }
    var h, n, k := hash, number, ancestor;
    WalkBegins(headers, genesis, canon, hash, number);
    while k != 0
      invariant 0 <= k <= n <= number && number - n == ancestor - k == maxNonCanonical - left
      invariant Walked(headers, genesis, canon, hash, number, number - n, h)
      decreases k
    {
      WalkFacts(headers, genesis, canon, hash, number, number - n, h);
      if ReadCanonical(canon, n) == h {
        JumpFacts(headers, genesis, canon, hash, number, number - n, h, ancestor);
        return ReadCanonical(canon, n - k), n - k, left;
      }
      if left == 0 {
        return ZERO, 0, left;
      }
      left, k := left - 1, k - 1;
      var header := GetBlock(headers, h, n);
      if header == None {
        return ZERO, 0, left;
      }
      WalksOn(headers, genesis, canon, hash, number, number - n, h);
      h, n := header.value.parent, n - 1;
    }
    WalkFacts(headers, genesis, canon, hash, number, number - n, h);
    return h, n, left;
  }

  /** Only a number without a canonical block reads as zero. */
  lemma ZeroReads(canon: Canon)
    ensures forall n: nat :: n !in canon ==> ReadCanonical(canon, n) == ZERO
    ensures ParentLinked(canon) ==> forall n: nat :: n in canon ==> ReadCanonical(canon, n) != ZERO
  {
  }

  lemma JumpFacts(headers: set<Block>, genesis: Block, canon: Canon, hash: Hash, number: nat, j: nat, h: Hash,
                  ancestor: nat)
    requires Walked(headers, genesis, canon, hash, number, j, h)
    requires j <= ancestor <= number && ancestor > 0 && ReadCanonical(canon, number - j) == h
    ensures var answer := ReadCanonical(canon, number - ancestor);
      && (ParentLinked(canon) && NoZeroParent(headers) && answer != ZERO ==>
            (Up(hash, ancestor) == Some(answer) <==> hash != ZERO))
      && (ParentLinked(canon) && Rooted(headers, genesis) && GetBlock(headers, hash, number).Some? ==> answer != ZERO)
  {
    if ParentLinked(canon) && hash == ZERO {
      UpFromZero(ancestor);
    }
    if Rooted(headers, genesis) {
      RootedNamesParents(headers, genesis);
    }
    if ParentLinked(canon) && NoZeroParent(headers) && hash != ZERO {
      Jumps(headers, genesis, canon, hash, number, j, h, ancestor);
    }
  }

  lemma WalkBegins(headers: set<Block>, genesis: Block, canon: Canon, hash: Hash, number: nat)
    ensures Walked(headers, genesis, canon, hash, number, 0, hash)
  {
  }

  lemma WalkFacts(headers: set<Block>, genesis: Block, canon: Canon, hash: Hash, number: nat, j: nat, h: Hash)
    requires Walked(headers, genesis, canon, hash, number, j, h)
    ensures j <= number && Up(hash, j) == Some(h) && (hash == ZERO ==> j == 0)
    ensures NoZeroParent(headers) && hash != ZERO ==> h != ZERO
    ensures forall i :: 0 <= i < j ==> !CanonicalAt(canon, hash, number, i)
    ensures Rooted(headers, genesis) && GetBlock(headers, hash, number).Some? ==>
      GetBlock(headers, h, number - j).Some? && h != ZERO
    ensures CanonicalAt(canon, hash, number, j) <==> ReadCanonical(canon, number - j) == h
  {
    if Rooted(headers, genesis) {
      RootedNamesParents(headers, genesis);
    }
  }

  lemma StoredParent(headers: set<Block>, genesis: Block, hash: Hash, number: nat)
    requires GetBlock(headers, hash, number).Some? && number > 0
    ensures Up(hash, 1) == Some(hash.block.parent) && hash != ZERO
    ensures Rooted(headers, genesis) ==> hash.block.parent != ZERO
  {
    assert Up(hash, 1) == Up(hash.block.parent, 0);
    if Rooted(headers, genesis) {
      RootedNamesParents(headers, genesis);
    }
  }

  /** With the zero hash a jump from a number without a canonical block answers with a stranger. */
  method ZeroHashIsAnswered(parent: Hash) returns (answer: Hash, at: nat)
    ensures answer.Digest? && at == 1 && Up(ZERO, 2) != Some(answer)
  {
    var g := Block(parent, 0, 1, [], 0);
    var b := Block(Digest(g), 1, 1, [], 0);
    var canon := map[0 := Digest(g), 1 := Digest(b)];
    assert ParentLinked(canon) by {
      assert LinkedAt(canon, 1);
    }
    var left;
    answer, at, left := GetAncestor({g, b}, canon, ZERO, 3, 2, 0, g);
    UpFromZero(2);
  }

  // ---------------------------------------------------------------- GetHashFn

  /** The hash reached from a header after reading `k` of its ancestors, if all of them are there. */
  ghost function Reach(headers: set<Block>, ref: Block, k: nat): Option<Hash> {
    if k == 0 then Some(ref.parent)
    else
      var h := Reach(headers, ref, k - 1);
      if h == None then None
      else
        var b := GetBlock(headers, h.value, ref.number - k);
        if b == None then None else Some(b.value.parent)
  }

  /** The plain walk: the hash of the ancestor at a number, or zero if a header on the way is missing. */
  ghost function HashAt(headers: set<Block>, ref: Block, n: nat): Hash
    requires n < ref.number
  {
    var h := Reach(headers, ref, ref.number - n - 1);
    if h == None then ZERO else h.value
  }

  /** What the plain walk finds is the true ancestor. */
  lemma {:induction false} ReachIsAncestor(headers: set<Block>, ref: Block, k: nat)
    requires Reach(headers, ref, k).Some?
    ensures Up(Digest(ref), k + 1) == Reach(headers, ref, k)
  {
    if k == 0 {
      assert Up(Digest(ref), 1) == Up(ref.parent, 0);
    } else {
      ReachIsAncestor(headers, ref, k - 1);
      UpAdds(Digest(ref), k, 1);
      var h := Reach(headers, ref, k - 1).value;
      assert Up(h, 1) == Up(h.block.parent, 0);
    }
  }

  /** With all headers there, it finds every ancestor. */
  lemma {:induction false} ReachIsTotal(headers: set<Block>, genesis: Block, ref: Block, k: nat)
    requires Rooted(headers, genesis) && ref in headers && k < ref.number
    ensures Reach(headers, ref, k).Some? && GetBlock(headers, Reach(headers, ref, k).value, ref.number - k - 1).Some?
  {
    if k > 0 {
      ReachIsTotal(headers, genesis, ref, k - 1);
    }
  }

  lemma {:induction false} ReachStops(headers: set<Block>, ref: Block, k: nat, m: nat)
    requires k <= m && Reach(headers, ref, k) == None
    ensures Reach(headers, ref, m) == None
    decreases m
  {
    if k < m {
      ReachStops(headers, ref, k, m - 1);
    }
  }

  class HashFn {
    const ref: Block
    const headers: set<Block>
    var cache: seq<Hash>

    /** Cached hashes below the reference header are those of the plain walk. */
    ghost predicate Valid()
      reads this
    {
      forall k :: 0 <= k < |cache| && k < ref.number ==> Reach(headers, ref, k) == Some(cache[k])
    }

    constructor (ref: Block, headers: set<Block>)
      ensures Valid() && this.ref == ref && this.headers == headers
    {
      this.ref, this.headers, cache := ref, headers, [];
    }

    /** The closure, on 64-bit numbers that wrap around.  Earlier calls do not show in the answer. */
    method Get(n: nat) returns (answer: Hash)
      requires Valid() && n < TWO_64 && ref.number < TWO_64
      modifies this
      ensures Valid()
      ensures n < ref.number ==> answer == HashAt(headers, ref, n)
    {
      if |cache| == 0 {
        cache := [ref.parent];
      }
      var idx := (ref.number - n - 1) % TWO_64;
      if idx < |cache| {
        return cache[idx];
      }
      var lastKnownHash := cache[|cache| - 1];
      var lastKnownNumber := (ref.number - |cache|) % TWO_64;
      while true
        invariant Valid() && cache != [] && lastKnownHash == cache[|cache| - 1]
        invariant n < ref.number ==> |cache| < ref.number - n
        invariant |cache| <= ref.number ==> lastKnownNumber == ref.number - |cache|
        decreases lastKnownHash
      {
        var header := GetBlock(headers, lastKnownHash, lastKnownNumber);
        if header == None {
          if n < ref.number {
            ReachStops(headers, ref, |cache|, ref.number - n - 1);
          }
          return ZERO;
        }
        cache := cache + [header.value.parent];
        lastKnownHash := header.value.parent;
        lastKnownNumber := (header.value.number - 1) % TWO_64;
        if n == lastKnownNumber {
          return lastKnownHash;
        }
      }
    }
  }
}
