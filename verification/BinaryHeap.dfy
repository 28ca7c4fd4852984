/**
 The binary heap of Go's `container/heap`, the library the transaction pool's
 nonce index and price heaps are built on.  A heap is a `seq` and every
 operation returns the rearranged `seq`; `less` is the caller's `Less`.
 */
module BinaryHeap {

  /** `less` orders its elements like a strict weak order, which is what `heap.Interface` asks for. */
  ghost predicate Ordering<T(!new)>(less: (T, T) -> bool) {
    && (forall a, b :: less(a, b) ==> !less(b, a))
    && (forall a, b, c :: !less(b, a) && !less(c, b) ==> !less(c, a))
  }

  function Parent(i: nat): nat
    requires i > 0
  {
    (i - 1) / 2
  }

  /** No element of `h[..n]` is less than its parent, for the parents from `lo` on other than `hole`. */
  ghost predicate HeapExcept<T>(less: (T, T) -> bool, h: seq<T>, n: nat, lo: nat, hole: nat)
    requires n <= |h|
  {
    forall c :: 0 < c < n && lo <= Parent(c) != hole ==> !less(h[c], h[Parent(c)])
  }

  ghost predicate HeapFrom<T>(less: (T, T) -> bool, h: seq<T>, n: nat, lo: nat)
    requires n <= |h|
  {
    forall c :: 0 < c < n && lo <= Parent(c) ==> !less(h[c], h[Parent(c)])
  }

  /** No element is less than its parent. */
  ghost predicate IsHeap<T>(less: (T, T) -> bool, h: seq<T>) {
    HeapFrom(less, h, |h|, 0)
  }

  /** The children of `i` are not less than the parent of `i`. */
  ghost predicate Bridged<T>(less: (T, T) -> bool, h: seq<T>, n: nat, lo: nat, i: nat)
    requires n <= |h| && i < |h|
  {
    forall c :: 0 < c < n && Parent(c) == i && i > 0 && lo <= Parent(i) ==> !less(h[c], h[Parent(i)])
  }

  function Swap<T>(h: seq<T>, i: nat, j: nat): (r: seq<T>)
    requires i < |h| && j < |h|
    ensures |r| == |h| && multiset(r) == multiset(h)
  {
    var r := h[i := h[j]][j := h[i]];
    assert multiset(r) == multiset(h) by {
      if i == j { assert r == h; }
    }
    r
  }

  /** The root of a heap is a least element. */
  lemma {:induction false} RootIsLeast<T(!new)>(less: (T, T) -> bool, h: seq<T>, i: nat)
    requires Ordering(less) && IsHeap(less, h) && i < |h|
    ensures !less(h[i], h[0])
  {
    if i > 0 {
      RootIsLeast(less, h, Parent(i));
    }
  }

  lemma RootIsMinimum<T(!new)>(less: (T, T) -> bool, h: seq<T>)
    requires Ordering(less) && IsHeap(less, h) && h != []
    ensures forall x :: x in multiset(h) ==> !less(x, h[0])
  {
    forall x | x in multiset(h)
      ensures !less(x, h[0])
    {
      var i :| 0 <= i < |h| && h[i] == x;
      RootIsLeast(less, h, i);
    }
  }

  /** `heap.down`: sinks the element at `i0` within the first `n`. */
  method Down<T(!new)>(less: (T, T) -> bool, h0: seq<T>, i0: nat, n: nat, ghost lo: nat)
    returns (h: seq<T>, moved: bool)
    requires Ordering(less) && n <= |h0| && i0 < |h0|
    ensures |h| == |h0| && multiset(h) == multiset(h0) && h[n..] == h0[n..]
    // Sinking repairs a heap whose only fault lies between `i0` and its children.
    ensures HeapExcept(less, h0, n, lo, i0) && Bridged(less, h0, n, lo, i0) ==> HeapFrom(less, h, n, lo)
    ensures !moved ==> h == h0 && forall c :: 0 < c < n && Parent(c) == i0 ==> !less(h[c], h[i0])
    ensures moved ==> exists c :: 0 < c < n && Parent(c) == i0 && less(h0[c], h0[i0])
  {
    h := h0;
    var i := i0;
    ghost var repairable := HeapExcept(less, h0, n, lo, i0) && Bridged(less, h0, n, lo, i0);
    while 2 * i + 1 < n
      invariant i0 <= i < |h| == |h0| && multiset(h) == multiset(h0) && h[n..] == h0[n..]
      invariant i == i0 ==> h == h0
      invariant i > i0 ==> exists c :: 0 < c < n && Parent(c) == i0 && less(h0[c], h0[i0])
      invariant repairable ==> HeapExcept(less, h, n, lo, i) && Bridged(less, h, n, lo, i)
      decreases n - i
    {
      var j := LesserChild(less, h, i, n);
      if !less(h[j], h[i]) {
        if repairable { Settled(less, h, n, lo, i, j); }
        break;
      }
      ghost var before := h;
      h := Swap(h, i, j);
      if repairable {
        SunkOne(less, before, n, lo, i, j);
      }
      i := j;
    }
    assert 2 * i + 1 >= n ==> forall c :: 0 < c < n ==> Parent(c) != i;
    moved := i > i0;
  }

  /** The smaller of the one or two children of `i`. */
  method LesserChild<T(!new)>(less: (T, T) -> bool, h: seq<T>, i: nat, n: nat) returns (j: nat)
    requires Ordering(less) && 2 * i + 1 < n <= |h|
    ensures i < j < n && Parent(j) == i
    ensures forall c :: 0 < c < n && Parent(c) == i ==> !less(h[c], h[j])
  {
    j := 2 * i + 1;
    if j + 1 < n && less(h[j + 1], h[j]) {
      j := j + 1;
    }
    assert forall c :: c > 0 && Parent(c) == i ==> c == 2 * i + 1 || c == 2 * i + 2;
  }

  lemma Settled<T(!new)>(less: (T, T) -> bool, h: seq<T>, n: nat, lo: nat, i: nat, j: nat)
    requires Ordering(less) && n <= |h| && i < j < n && Parent(j) == i
    requires HeapExcept(less, h, n, lo, i) && !less(h[j], h[i])
    requires forall c :: 0 < c < n && Parent(c) == i ==> !less(h[c], h[j])
    ensures HeapFrom(less, h, n, lo)
  {
  }

  /** Exchanging a faulty element with its least child moves the fault to that child. */
  lemma SunkOne<T(!new)>(less: (T, T) -> bool, h: seq<T>, n: nat, lo: nat, i: nat, j: nat)
    requires Ordering(less) && n <= |h| && i < j < n && Parent(j) == i
    requires HeapExcept(less, h, n, lo, i) && Bridged(less, h, n, lo, i)
    requires less(h[j], h[i]) && forall c :: 0 < c < n && Parent(c) == i ==> !less(h[c], h[j])
    ensures HeapExcept(less, Swap(h, i, j), n, lo, j) && Bridged(less, Swap(h, i, j), n, lo, j)
  {
  }

  /** The only fault of the heap is between `j` and its parent. */
  ghost predicate LowAt<T>(less: (T, T) -> bool, h: seq<T>, j: nat) {
    && j < |h| && Bridged(less, h, |h|, 0, j)
    && forall c :: 0 < c < |h| && c != j ==> !less(h[c], h[Parent(c)])
  }

  /** Exchanging an element with its parent moves the fault up. */
  lemma RaisedOne<T(!new)>(less: (T, T) -> bool, h: seq<T>, j: nat)
    requires Ordering(less) && LowAt(less, h, j) && j > 0 && less(h[j], h[Parent(j)])
    ensures LowAt(less, Swap(h, j, Parent(j)), Parent(j))
  {
  }

  lemma Raised<T(!new)>(less: (T, T) -> bool, h: seq<T>, j: nat)
    requires LowAt(less, h, j) && (j > 0 ==> !less(h[j], h[Parent(j)]))
    ensures IsHeap(less, h)
  {
  }

  /** `heap.up`: raises the element at `j0`. */
  method Up<T(!new)>(less: (T, T) -> bool, h0: seq<T>, j0: nat) returns (h: seq<T>)
    requires Ordering(less) && LowAt(less, h0, j0)
    ensures multiset(h) == multiset(h0) && IsHeap(less, h)
  {
    hide Ordering, Bridged, HeapFrom;
    h := h0;
    var j: nat := j0;
    while j > 0 && less(h[j], h[Parent(j)])
      invariant 0 <= j < |h| == |h0| && multiset(h) == multiset(h0) && LowAt(less, h, j)
    {
      RaisedOne(less, h, j);
      h := Swap(h, j, Parent(j));
      j := Parent(j);
    }
    Raised(less, h, j);
  }

  /** `heap.Init` */
  method Init<T(!new)>(less: (T, T) -> bool, h0: seq<T>) returns (h: seq<T>)
    requires Ordering(less)
    ensures multiset(h) == multiset(h0) && IsHeap(less, h)
  {
    h := h0;
    var i := |h| / 2;
    while i > 0
      invariant 0 <= i <= |h| == |h0| && multiset(h) == multiset(h0)
      invariant HeapFrom(less, h, |h|, i)
    {
      i := i - 1;
      var moved;
      h, moved := Down(less, h, i, |h|, i);
    }
  }

  /** `heap.Push` */
  method Push<T(!new)>(less: (T, T) -> bool, h0: seq<T>, x: T) returns (h: seq<T>)
    requires Ordering(less) && IsHeap(less, h0)
    ensures multiset(h) == multiset(h0) + multiset{x} && IsHeap(less, h)
  {
    hide Ordering;
    h := h0 + [x];
    h := Up(less, h, |h| - 1);
  }

  /** The first `n` elements as a heap of their own. */
  lemma Truncated<T(!new)>(less: (T, T) -> bool, h: seq<T>, n: nat)
    requires |h| == n + 1
    ensures HeapFrom(less, h, n, 0) ==> IsHeap(less, h[..n])
    ensures multiset(h) == multiset(h[..n]) + multiset{h[n]} && h[n..] == [h[n]]
  {
    assert h == h[..n] + [h[n]];
  }

  lemma RootTaken<T(!new)>(less: (T, T) -> bool, h: seq<T>)
    requires IsHeap(less, h) && h != []
    ensures var s := Swap(h, 0, |h| - 1);
      HeapExcept(less, s, |h| - 1, 0, 0) && Bridged(less, s, |h| - 1, 0, 0) && s[|h| - 1] == h[0]
  {
  }

  /** `heap.Pop` */
  method Pop<T(!new)>(less: (T, T) -> bool, h0: seq<T>) returns (h: seq<T>, x: T)
    requires Ordering(less) && IsHeap(less, h0) && h0 != []
    ensures x == h0[0]
    ensures multiset(h0) == multiset(h) + multiset{x} && IsHeap(less, h)
    ensures forall y :: y in multiset(h0) ==> !less(y, x)
  {
    hide Ordering, HeapFrom, HeapExcept, Bridged, Swap;
    RootIsMinimum(less, h0);
    var n := |h0| - 1;
    RootTaken(less, h0);
    h := Swap(h0, 0, n);
    Truncated(less, h, n);
    var moved;
    h, moved := Down(less, h, 0, n, 0);
    Truncated(less, h, n);
    assert h[n] == h[n..][0];
    x, h := h[n], h[..n];
  }

  /** `heap.Remove` */
  method Remove<T(!new)>(less: (T, T) -> bool, h0: seq<T>, i: nat) returns (h: seq<T>)
    requires Ordering(less) && IsHeap(less, h0) && i < |h0|
    ensures multiset(h0) == multiset(h) + multiset{h0[i]} && IsHeap(less, h)
  {
    hide Ordering, HeapFrom, HeapExcept, Bridged, Swap, LowAt;
    var n := |h0| - 1;
    if n == i {
      Truncated(less, h0, n);
      LastDropped(less, h0);
      return h0[..n];
    }
    var s := Swap(h0, i, n);
    Detached(less, h0, i);
    Truncated(less, s, n);
    var moved;
    h, moved := Down(less, s, i, n, 0);
    Truncated(less, h, n);
    assert h[n] == h[n..][0] == h0[i];
    h := h[..n];
    if moved {
      SankBelow(less, h0, i);
    } else {
      Unsunk(less, h0, i);
      h := Up(less, h, i);
    }
  }

  lemma LastDropped<T(!new)>(less: (T, T) -> bool, h: seq<T>)
    requires IsHeap(less, h) && h != []
    ensures HeapFrom(less, h, |h| - 1, 0)
  {
  }

  /** An element that can sink is not below its parent, and sinking repairs the heap. */
  lemma SankBelow<T(!new)>(less: (T, T) -> bool, h: seq<T>, i: nat)
    requires Ordering(less) && IsHeap(less, h) && i < |h| - 1
    requires var s := Swap(h, i, |h| - 1); exists c :: 0 < c < |h| - 1 && Parent(c) == i && less(s[c], s[i])
    ensures var s := Swap(h, i, |h| - 1); HeapExcept(less, s, |h| - 1, 0, i) && Bridged(less, s, |h| - 1, 0, i)
  {
    Detached(less, h, i);
  }

  /** An element that did not sink can only be too low. */
  lemma Unsunk<T(!new)>(less: (T, T) -> bool, h: seq<T>, i: nat)
    requires Ordering(less) && IsHeap(less, h) && i < |h| - 1
    requires var s := Swap(h, i, |h| - 1); forall c :: 0 < c < |h| - 1 && Parent(c) == i ==> !less(s[c], s[i])
    ensures LowAt(less, Swap(h, i, |h| - 1)[..|h| - 1], i)
  {
    Detached(less, h, i);
  }

  /** With the last element put at `i`, the rest is a heap but for the relations of `i`. */
  lemma Detached<T(!new)>(less: (T, T) -> bool, h: seq<T>, i: nat)
    requires Ordering(less) && IsHeap(less, h) && i < |h| - 1
    ensures var s, n := Swap(h, i, |h| - 1), |h| - 1;
      && Bridged(less, s, n, 0, i) && s[n] == h[i]
      && (forall c :: 0 < c < n && c != i && Parent(c) != i ==> !less(s[c], s[Parent(c)]))
      && (i > 0 && less(s[i], s[Parent(i)]) ==> forall c :: 0 < c < n && Parent(c) == i ==> !less(s[c], s[i]))
  {
  }
}
