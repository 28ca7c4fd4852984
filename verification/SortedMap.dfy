/**
 `txSortedMap`: a nonce-to-transaction map with a heap of its nonces and a
 cached nonce-sorted listing.  Every method of the class is specified on
 `items` alone; `Valid` says what the heap and the cache must be for that to
 be enough.  The loops are methods over the map and the heap index.
 */
module SortedMap {
  import opened Prelude
  import opened Transactions
  import BinaryHeap

  /** `nonceHeap.Less` */
  predicate Below(a: u64, b: u64) {
    a < b
  }

  /** The heap index holds exactly the stored nonces, once each. */
  ghost predicate Indexes(index: seq<u64>, m: Items) {
    && Keyed(m)
    && multiset(index) == multiset(m.Keys)
    && BinaryHeap.IsHeap(Below, index)
  }

  lemma HeadIsMin(index: seq<u64>, m: Items)
    requires Indexes(index, m)
    ensures |index| == |m|
    ensures index != [] ==> m != map[] && index[0] == MinNonce(m)
  {
    assert |multiset(index)| == |multiset(m.Keys)| == |m.Keys| == |m|;
    if index != [] {
      BinaryHeap.RootIsMinimum(Below, index);
      assert index[0] in multiset(index);
      assert MinNonce(m) in multiset(m.Keys);
    }
  }

  lemma KeysLess(m: Items, n: u64)
    requires n in m
    ensures multiset(m.Keys) == multiset((m - {n}).Keys) + multiset{n}
    ensures |m - {n}| == |m| - 1
  {
    var rest := m - {n};
    assert rest.Keys == m.Keys - {n};
    assert m.Keys == rest.Keys + {n};
  }

  lemma KeysMore(m: Items, tx: Tx)
    requires Keyed(m)
    ensures var r := m[tx.nonce := tx];
      Keyed(r) && multiset(r.Keys) == multiset(m.Keys) + (if tx.nonce in m then multiset{} else multiset{tx.nonce})
  {
    var r := m[tx.nonce := tx];
    assert r.Keys == m.Keys + {tx.nonce};
    if tx.nonce in m {
      assert r.Keys == m.Keys;
    }
  }

  lemma Unindexed(index: seq<u64>, rest: seq<u64>, m: Items, n: u64)
    requires Indexes(index, m) && n in m && BinaryHeap.IsHeap(Below, rest)
    requires multiset(index) == multiset(rest) + multiset{n}
    ensures Indexes(rest, m - {n}) && |rest| == |index| - 1
  {
    KeysLess(m, n);
    assert multiset(rest) == multiset(index) - multiset{n};
    assert multiset((m - {n}).Keys) == multiset(m.Keys) - multiset{n};
    assert |multiset(rest)| == |multiset(index)| - 1;
  }

  /** Taking the last transaction out of the map takes it off the end of the listing. */
  lemma {:induction false} FlatDropLast(m: Items)
    requires Keyed(m) && m != map[]
    ensures var n := Flat(m)[|m| - 1].nonce; n in m && Flat(m - {n}) == Flat(m)[..|m| - 1]
    decreases |m|
  {
    var low := MinNonce(m);
    KeysLess(m, low);
    FlatIsSorted(m);
    if |m| > 1 {
      var rest := m - {low};
      FlatDropLast(rest);
      var n := Flat(rest)[|rest| - 1].nonce;
      KeysLess(m, n);
      assert low in m - {n} && MinNonce(m - {n}) == low;
      assert (m - {n}) - {low} == rest - {n};
    }
  }

  /** Pops the least nonce off the heap and its transaction off the map. */
  method PopFirst(index0: seq<u64>, m0: Items) returns (index: seq<u64>, m: Items, tx: Tx)
    requires Indexes(index0, m0) && index0 != []
    ensures m0 != map[] && index0[0] == MinNonce(m0) && tx == m0[index0[0]] && m == m0 - {index0[0]}
    ensures tx.nonce == index0[0]
    ensures Indexes(index, m) && |m| == |m0| - 1
    ensures Flat(m0) == [tx] + Flat(m) && Nonces(m0) == [index0[0]] + Nonces(m)
    ensures multiset(index0) == multiset(index) + multiset{index0[0]}
  {
    HeadIsMin(index0, m0);
    var n;
    index, n := BinaryHeap.Pop(Below, index0);
    Unindexed(index0, index, m0, n);
    KeysLess(m0, n);
    tx := m0[n];
    m := m0 - {n};
  }

  /** `sort.Sort` on the nonces. */
  method SortNonces(index: seq<u64>, m: Items) returns (sorted: seq<u64>)
    requires Indexes(index, m)
    ensures sorted == Nonces(m)
  {
    hide BinaryHeap.HeapFrom, Flat, Nonces;
    var rest, left := index, m;
    sorted := [];
    while rest != []
      invariant Indexes(rest, left) && Nonces(m) == sorted + Nonces(left)
      decreases |left|
    {
      var n := rest[0];
      var tx;
      rest, left, tx := PopFirst(rest, left);
      sorted := sorted + [n];
    }
    HeadIsMin(rest, left);
    assert left == map[];
    NoNonces();
  }

  lemma NoNonces()
    ensures Nonces(map[]) == []
  {
  }

  /** The nonces in the order the map happens to be walked. */
  method Collect(m: Items) returns (keys: seq<u64>)
    ensures multiset(keys) == multiset(m.Keys)
  {
    keys := [];
    var todo := m.Keys;
    while todo != {}
      invariant todo <= m.Keys && multiset(keys) + multiset(todo) == multiset(m.Keys)
      decreases |todo|
    {
      var n :| n in todo;
      todo := todo - {n};
      keys := keys + [n];
    }
  }

  /** Takes out, in nonce order, every transaction below `threshold`. */
  method PopBelow(index0: seq<u64>, m0: Items, threshold: u64)
    returns (index: seq<u64>, m: Items, removed: seq<Tx>)
    requires Indexes(index0, m0)
    ensures Indexes(index, m) && m == FromNonce(m0, threshold)
    ensures Flat(m0) == removed + Flat(m)
    ensures forall t :: t in removed ==> t.nonce < threshold
  {
    hide BinaryHeap.HeapFrom, Flat, Nonces;
    index, m, removed := index0, m0, [];
    while index != [] && index[0] < threshold
      invariant Indexes(index, m) && FromNonce(m, threshold) == FromNonce(m0, threshold)
      invariant Flat(m0) == removed + Flat(m)
      invariant forall t :: t in removed ==> t.nonce < threshold
      decreases |m|
    {
      HeadIsMin(index, m);
      FromNoncePop(m, index[0], threshold);
      var tx;
      index, m, tx := PopFirst(index, m);
      removed := removed + [tx];
    }
    HeadIsMin(index, m);
    FromNonceAll(m, threshold);
  }

  /** Takes out the consecutive run from the least nonce, whose successor wraps around at 2^64. */
  method PopRun(index0: seq<u64>, m0: Items) returns (index: seq<u64>, m: Items, ready: seq<Tx>)
    requires Indexes(index0, m0) && index0 != []
    ensures Indexes(index, m) && Flat(m0) == ready + Flat(m)
    ensures m0 != map[] && |ready| == RunEnd(m0, MinNonce(m0)) - MinNonce(m0) > 0
    ensures forall i :: 0 <= i < |ready| ==> ready[i].nonce == MinNonce(m0) + i
    ensures m == FromNonce(m0, RunEnd(m0, MinNonce(m0)))
  {
    hide BinaryHeap.HeapFrom, Flat, Nonces, Indexes, FromNonce, RunEnd;
    HeadIsMin(index0, m0);
    index, m, ready := index0, m0, [];
    var first := index[0];
    var next := first;
    FromNonceAll(m, first);
    while index != [] && index[0] == next
      invariant Indexes(index, m) && first + |ready| <= MAX_U64 + 1
      invariant next == if first + |ready| > MAX_U64 then 0 else first + |ready|
      invariant m == FromNonce(m0, first + |ready|)
      invariant Flat(m0) == ready + Flat(m)
      invariant forall i :: 0 <= i < |ready| ==> ready[i].nonce == first + i
      invariant RunEnd(m0, first) == RunEnd(m0, first + |ready|)
      decreases |m|
    {
      HeadIsMin(index, m);
      RunGoesOn(m0, m, first + |ready|);
      var tx;
      index, m, tx := PopFirst(index, m);
      ready := ready + [tx];
      next := Succ(next);
    }
    HeadIsMin(index, m);
    RunStops(m0, m, first + |ready|);
  }

  /** A run goes on where the least remaining nonce is its next one; nothing remains beyond the last. */
  lemma RunGoesOn(m: Items, rest: Items, next: int)
    requires 0 <= next <= MAX_U64 + 1 && rest == FromNonce(m, next) && rest != map[]
    requires MinNonce(rest) == if next > MAX_U64 then 0 else next
    ensures next <= MAX_U64 && FromNonce(m, next + 1) == rest - {next} && RunEnd(m, next) == RunEnd(m, next + 1)
  {
    FromNonceStep(m, next);
  }

  /** A run ends where the least remaining nonce is not its next one. */
  lemma RunStops(m: Items, rest: Items, next: int)
    requires 0 <= next <= MAX_U64 + 1 && rest == FromNonce(m, next)
    requires rest == map[] || MinNonce(rest) != next
    ensures RunEnd(m, next) == next
  {
    assert next <= MAX_U64 && next in m ==> next in rest;
  }

  /** The first nonce that capping to `size` drops; 2^64 when it drops none. */
  function CapCut(m: Items, size: nat): int {
    if size < |m| then Flat(m)[size].nonce else MAX_U64 + 1
  }

  /** The nonces of `m` below `n`. */
  function Lower(m: Items, n: u64): set<u64> {
    set k | k in m && k < n
  }

  lemma CapCutRest(m: Items, size: nat)
    requires Keyed(m) && m != map[]
    ensures var min := MinNonce(m);
      if size == 0 then CapCut(m, size) == min
      else CapCut(m, size) == CapCut(m - {min}, size - 1) && min < CapCut(m, size)
  {
    var rest := m - {MinNonce(m)};
    if 0 < size < |m| {
      assert Flat(m)[size] == Flat(rest)[size - 1];
      FlatIsSorted(rest);
      assert Flat(rest)[size - 1].nonce in rest;
    }
  }

  /** Capping keeps a transaction exactly if fewer than `size` have lower nonces. */
  lemma {:induction false} CapIs(m: Items, size: nat, n: u64)
    requires Keyed(m) && n in m
    ensures n in BelowNonce(m, CapCut(m, size)) <==> |Lower(m, n)| < size
    decreases |m|
  {
    hide CapCut;
    CapCutRest(m, size);
    var min := MinNonce(m);
    if n == min {
      assert Lower(m, n) == {};
    } else if size > 0 {
      CapIs(m - {min}, size - 1, n);
      assert Lower(m, n) == Lower(m - {min}, n) + {min};
    }
  }

  lemma AboveAll(m: Items, size: nat)
    requires |m| <= size
    ensures BelowNonce(m, CapCut(m, size)) == m
  {
  }

  /** `s` is the tail of the listing of `m` from `size` on, backwards. */
  ghost predicate ReversedTail(s: seq<Tx>, m: Items, size: nat)
    requires size <= |m|
  {
    |s| == |m| - size && forall i :: 0 <= i < |s| ==> s[i] == Flat(m)[|m| - 1 - i]
  }

  /** Drops the highest nonces, highest first, until `threshold` are left. */
  method DropLast(sorted: seq<u64>, m0: Items, threshold: nat) returns (m: Items, drops: seq<Tx>)
    requires Keyed(m0) && sorted == Nonces(m0) && threshold < |m0|
    ensures Keyed(m) && |m| == threshold && Flat(m) == Flat(m0)[..threshold]
    ensures ReversedTail(drops, m0, threshold)
    ensures m == BelowNonce(m0, CapCut(m0, threshold)) && multiset(sorted[..threshold]) == multiset(m.Keys)
  {
    hide Flat, Nonces;
    m, drops := m0, [];
    var size := |m0|;
    CutNothing(m0);
    while size > threshold
      invariant threshold <= size == |m| <= |m0| && Keyed(m)
      invariant Flat(m) == Flat(m0)[..size] && m == BelowNonce(m0, CapCut(m0, size))
      invariant ReversedTail(drops, m0, size)
    {
      CutOne(m0, m, size);
      var n := sorted[size - 1];
      drops := drops + [m[n]];
      m := m - {n};
      size := size - 1;
    }
    NoncesPrefix(m0, m, threshold);
  }

  lemma CutNothing(m: Items)
    ensures BelowNonce(m, CapCut(m, |m|)) == m && Flat(m)[..|m|] == Flat(m)
  {
  }

  /** Dropping the greatest of the first `size` transactions leaves the first `size - 1`. */
  lemma CutOne(m: Items, kept: Items, size: nat)
    requires Keyed(m) && Keyed(kept) && 0 < size == |kept| <= |m|
    requires Flat(kept) == Flat(m)[..size] && kept == BelowNonce(m, CapCut(m, size))
    ensures var n := Nonces(m)[size - 1];
      && n in kept && kept[n] == Flat(m)[size - 1]
      && |kept - {n}| == size - 1 && Flat(kept - {n}) == Flat(m)[..size - 1]
      && kept - {n} == BelowNonce(m, CapCut(m, size - 1))
  {
    hide Flat, Nonces;
    var n := Nonces(m)[size - 1];
    NoncesOfFlat(m);
    LastIsGreatest(kept);
    FlatDropLast(kept);
    assert Flat(kept)[size - 1] == Flat(m)[size - 1];
    KeysLess(kept, n);
    assert Flat(m)[..size][..size - 1] == Flat(m)[..size - 1];
    assert CapCut(m, size - 1) == n;
    CutIsHigher(m, size);
    assert kept - {n} == BelowNonce(m, n);
  }

  /** What lies below the cut is the first `size` transactions of the listing. */
  lemma {:induction false} CapKeepsFirst(m: Items, size: nat)
    requires Keyed(m) && size <= |m|
    ensures var kept := BelowNonce(m, CapCut(m, size)); |kept| == size && Flat(kept) == Flat(m)[..size]
    decreases |m| - size
  {
    hide Flat;
    if size == |m| {
      CutNothing(m);
    } else {
      CapKeepsFirst(m, size + 1);
      CutOne(m, BelowNonce(m, CapCut(m, size + 1)), size + 1);
    }
  }

  lemma CutIsHigher(m: Items, size: nat)
    requires Keyed(m) && 0 < size <= |m|
    ensures CapCut(m, size - 1) < CapCut(m, size)
  {
    FlatIsSorted(m);
  }

  /** The listing's first nonces are those of what is kept. */
  lemma NoncesPrefix(m: Items, kept: Items, size: nat)
    requires Keyed(m) && Keyed(kept) && size == |kept| <= |m| && Flat(kept) == Flat(m)[..size]
    ensures multiset(Nonces(m)[..size]) == multiset(kept.Keys)
  {
    NoncesOfFlat(m);
    NoncesOfFlat(kept);
    assert Nonces(m)[..size] == Nonces(kept);
    NoncesAreKeys(kept);
  }

  lemma {:induction false} NoncesAreKeys(m: Items)
    ensures multiset(Nonces(m)) == multiset(m.Keys)
    decreases |m|
  {
    if m == map[] {
      assert m.Keys == {};
    } else {
      KeysLess(m, MinNonce(m));
      NoncesAreKeys(m - {MinNonce(m)});
    }
  }

  /** The closures the pool filters by. */
  datatype Criterion = Unaffordable(costLimit: int, gasLimit: u64) | AboveNonce(limit: u64) {
    predicate Meets(tx: Tx) {
      match this
      case Unaffordable(costLimit, gasLimit) => tx.gas > gasLimit || tx.Cost() > costLimit
      case AboveNonce(limit) => tx.nonce > limit
    }
  }

  /** What is left of `m` without the transactions that meet `c`. */
  function Without(m: Items, c: Criterion): Items {
    map n | n in m && !c.Meets(m[n]) :: m[n]
  }

  /** The transactions of `m` that meet `c`. */
  function Selected(m: Items, c: Criterion): Items {
    map n | n in m && c.Meets(m[n]) :: m[n]
  }

  lemma SelectedSize(m: Items, c: Criterion)
    ensures |Selected(m, c)| + |Without(m, c)| == |m|
  {
    assert Selected(m, c).Keys !! Without(m, c).Keys;
    assert m.Keys == Selected(m, c).Keys + Without(m, c).Keys;
  }

  /** `s` lists the transactions of `m`, once each and in some order. */
  ghost predicate Lists(s: seq<Tx>, m: Items) {
    && |s| == |m|
    && (forall t :: t in s ==> t.nonce in m && m[t.nonce] == t)
    && (forall n :: n in m ==> m[n] in s)
  }

  /** Walks the map in some order and deletes what meets `c`. */
  method Sift(m0: Items, c: Criterion) returns (m: Items, removed: seq<Tx>)
    requires Keyed(m0)
    ensures Keyed(m) && m == Without(m0, c) && Lists(removed, Selected(m0, c))
    ensures removed == [] ==> m == m0
  {
    hide Criterion.Meets;
    m, removed := m0, [];
    var todo := m0.Keys;
    while todo != {}
      invariant todo <= m.Keys <= m0.Keys && (removed == [] ==> m == m0)
      invariant forall n :: n in m ==> m[n] == m0[n]
      invariant forall n :: n in m0 && n !in todo ==> (n in m <==> !c.Meets(m0[n]))
      invariant |removed| + |m| == |m0|
      invariant forall t :: t in removed ==> t.nonce in m0 && m0[t.nonce] == t && c.Meets(t)
      invariant forall n :: n in m0 && n !in m ==> m0[n] in removed
      decreases |todo|
    {
      var n :| n in todo;
      todo := todo - {n};
      if c.Meets(m0[n]) {
        removed := removed + [m0[n]];
        KeysLess(m, n);
        m := m - {n};
      }
    }
    Sifted(m0, m, c, removed);
  }

  lemma Sifted(m0: Items, m: Items, c: Criterion, removed: seq<Tx>)
    requires m.Keys <= m0.Keys && |removed| + |m| == |m0|
    requires forall n :: n in m ==> m[n] == m0[n]
    requires forall n :: n in m0 ==> (n in m <==> !c.Meets(m0[n]))
    requires forall t :: t in removed ==> t.nonce in m0 && m0[t.nonce] == t && c.Meets(t)
    requires forall n :: n in m0 && n !in m ==> m0[n] in removed
    ensures m == Without(m0, c) && Lists(removed, Selected(m0, c))
  {
    SelectedSize(m0, c);
    assert m == Without(m0, c);
  }

  class TxSortedMap {
    var items: Items
    var index: seq<u64>
    var cache: Option<seq<Tx>>

    ghost predicate Valid()
      reads this
    {
      && Indexes(index, items)
      && (cache.Some? ==> cache.value == Flat(items))
    }

    constructor ()
      ensures Valid() && items == map[]
    {
      items, index, cache := map[], [], None;
    }

    method Put(tx: Tx)
      requires Valid()
      modifies this
      ensures Valid() && items == old(items)[tx.nonce := tx]
    {
      if tx.nonce !in items {
        index := BinaryHeap.Push(Below, index, tx.nonce);
      }
      KeysMore(items, tx);
      items, cache := items[tx.nonce := tx], None;
    }

    method Forward(threshold: u64) returns (removed: seq<Tx>)
      requires Valid()
      modifies this
      ensures Valid() && items == FromNonce(old(items), threshold)
      ensures Flat(old(items)) == removed + Flat(items)
      ensures forall t :: t in removed ==> t.nonce < threshold
    {
      index, items, removed := PopBelow(index, items, threshold);
      if cache.Some? {
        cache := Some(cache.value[|removed|..]);
      }
    }

    /** `filter`: deletes from the map and leaves the heap behind. */
    method FilterNoReheap(c: Criterion) returns (removed: seq<Tx>)
      requires Keyed(items)
      modifies this`items, this`cache
      ensures Keyed(items) && items == Without(old(items), c) && Lists(removed, Selected(old(items), c))
      ensures if removed == [] then items == old(items) && cache == old(cache) else cache == None
    {
      items, removed := Sift(items, c);
      if |removed| > 0 {
        cache := None;
      }
    }

    /** Rebuilds the heap from the map. */
    method Reheap()
      requires Keyed(items)
      modifies this`index, this`cache
      ensures Valid() && cache == None
    {
      var keys := Collect(items);
      index := BinaryHeap.Init(Below, keys);
      cache := None;
    }

    method Filter(c: Criterion) returns (removed: seq<Tx>)
      requires Valid()
      modifies this
      ensures Valid() && Keyed(items) && items == Without(old(items), c) && Lists(removed, Selected(old(items), c))
    {
      removed := FilterNoReheap(c);
      if |removed| > 0 {
        Reheap();
      }
    }

    method Cap(threshold: nat) returns (drops: seq<Tx>)
      requires Valid()
      modifies this
      ensures Valid() && items == BelowNonce(old(items), CapCut(old(items), threshold))
      ensures |old(items)| <= threshold ==> drops == [] && items == old(items)
      ensures |old(items)| > threshold ==>
        Flat(items) == Flat(old(items))[..threshold] && ReversedTail(drops, old(items), threshold)
    {
      hide BinaryHeap.HeapFrom, Flat, Nonces, BelowNonce, CapCut;
      drops := [];
      if |items| <= threshold {
        CutNothing(items);
        AboveAll(items, threshold);
        return;
      }
      var sorted := SortNonces(index, items);
      items, drops := DropLast(sorted, items, threshold);
      index := BinaryHeap.Init(Below, sorted[..threshold]);
      if cache.Some? {
        cache := Some(cache.value[..|cache.value| - |drops|]);
      }
    }

    method Remove(nonce: u64) returns (found: bool)
      requires Valid()
      modifies this
      ensures Valid() && found == (nonce in old(items)) && items == old(items) - {nonce}
    {
      hide BinaryHeap.HeapFrom;
      if nonce !in items {
        assert items == items - {nonce};
        return false;
      }
      assert nonce in multiset(index);
      var i := Find(index, nonce);
      index := BinaryHeap.Remove(Below, index, i);
      Unindexed(old(index), index, items, nonce);
      items, cache := items - {nonce}, None;
      found := true;
    }

    method Ready(start: u64) returns (ready: seq<Tx>)
      requires Valid()
      modifies this
      ensures Valid() && Flat(old(items)) == ready + Flat(items)
      ensures old(items) == map[] || MinNonce(old(items)) > start ==> ready == [] && items == old(items)
      ensures old(items) != map[] && MinNonce(old(items)) <= start ==>
        var first := MinNonce(old(items));
        && |ready| == RunEnd(old(items), first) - first > 0
        && (forall i :: 0 <= i < |ready| ==> ready[i].nonce == first + i)
        && items == FromNonce(old(items), RunEnd(old(items), first))
    {
      hide BinaryHeap.HeapFrom, Flat, Nonces, FromNonce, RunEnd;
      HeadIsMin(index, items);
      if |index| == 0 || index[0] > start {
        return [];
      }
      index, items, ready := PopRun(index, items);
      cache := None;
    }

    /** The sorted contents, cached for the next call. */
    method Flatten() returns (txs: seq<Tx>)
      requires Valid()
      modifies this`cache
      ensures Valid() && txs == Flat(items)
    {
      if cache.None? {
        txs := SortItems(items);
        cache := Some(txs);
      }
      txs := cache.value;
    }

    /** The transaction with the highest nonce. */
    method LastElement() returns (tx: Tx)
      requires Valid() && items != map[]
      modifies this`cache
      ensures Valid() && tx.nonce in items && items[tx.nonce] == tx
      ensures forall n :: n in items ==> n <= tx.nonce
    {
      var txs := Flatten();
      LastIsGreatest(items);
      tx := txs[|txs| - 1];
    }
  }

  method Find(index: seq<u64>, nonce: u64) returns (i: nat)
    requires nonce in index
    ensures i < |index| && index[i] == nonce
  {
    i := 0;
    while index[i] != nonce
      invariant 0 <= i < |index| && nonce !in index[..i]
      decreases |index| - i
    {
      i := i + 1;
    }
  }

  method SortItems(m: Items) returns (txs: seq<Tx>)
    requires Keyed(m)
    ensures txs == Flat(m)
  {
    var keys := Collect(m);
    keys := BinaryHeap.Init(Below, keys);
    var sorted := SortNonces(keys, m);
    NoncesOfFlat(m);
    txs := seq(|sorted|, i requires 0 <= i < |sorted| => m[sorted[i]]);
  }
}
