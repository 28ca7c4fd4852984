/**
 `txPricedList`: the remote transactions in two price heaps, urgent (by the
 effective tip at the next base fee) and floating (by fee cap), from which a
 full pool evicts.  Heap entries of transactions that have left the remotes
 are stale and are skipped when they surface.
 */
module PricedList {
  import opened Prelude
  import opened Transactions
  import opened Lookup
  import BinaryHeap

  const URGENT_RATIO := 4
  const FLOATING_RATIO := 1

  /** The tip a transaction can pay at `fee`; negative when its fee cap is below it. */
  function EffectiveTip(tx: Tx, fee: int): int {
    if tx.tipCap < tx.feeCap - fee then tx.tipCap else tx.feeCap - fee
  }

  function Sign(x: int): int {
    if x < 0 then -1 else if x > 0 then 1 else 0
  }

  /** `priceHeap.cmp` */
  function Cmp(baseFee: Option<int>, a: Tx, b: Tx): int {
    if baseFee.Some? && EffectiveTip(a, baseFee.value) != EffectiveTip(b, baseFee.value) then
      Sign(EffectiveTip(a, baseFee.value) - EffectiveTip(b, baseFee.value))
    else if a.feeCap != b.feeCap then Sign(a.feeCap - b.feeCap)
    else Sign(a.tipCap - b.tipCap)
  }

  /** `priceHeap.Less`: cheaper first, and of equal prices the higher nonce first. */
  predicate Cheaper(baseFee: Option<int>, a: Tx, b: Tx) {
    Cmp(baseFee, a, b) == -1 || (Cmp(baseFee, a, b) == 0 && a.nonce > b.nonce)
  }

  /**
   The order by price: with a base fee by the tip left above it, then by fee
   cap, then by tip cap, and of equals the higher nonce is the cheaper.
   */
  lemma PriceOrderIs(baseFee: Option<int>, a: Tx, b: Tx)
    ensures var s := if baseFee.Some? then Min(a.tipCap, a.feeCap - baseFee.value) else 0;
      var t := if baseFee.Some? then Min(b.tipCap, b.feeCap - baseFee.value) else 0;
      Cheaper(baseFee, a, b) <==>
        || s < t
        || (s == t && a.feeCap < b.feeCap)
        || (s == t && a.feeCap == b.feeCap && a.tipCap < b.tipCap)
        || (s == t && a.feeCap == b.feeCap && a.tipCap == b.tipCap && a.nonce > b.nonce)
  {
  }

  function Order(baseFee: Option<int>): (Tx, Tx) -> bool {
    (a: Tx, b: Tx) => Cheaper(baseFee, a, b)
  }

  lemma OrderIsOrdering(baseFee: Option<int>)
    ensures BinaryHeap.Ordering(Order(baseFee))
  {
    forall a, b, c | !Order(baseFee)(b, a) && !Order(baseFee)(c, b)
      ensures !Order(baseFee)(c, a)
    {
      CheaperIsTransitive(baseFee, a, b, c);
    }
  }

  lemma CheaperIsTransitive(baseFee: Option<int>, a: Tx, b: Tx, c: Tx)
    requires !Cheaper(baseFee, b, a) && !Cheaper(baseFee, c, b)
    ensures !Cheaper(baseFee, c, a)
  {
  }

  /** Not to be cheaper than a transaction that costs at least as much is to cost at least as much. */
  lemma CmpFollowsOrder(baseFee: Option<int>, head: Tx, t: Tx, tx: Tx)
    requires !Cheaper(baseFee, t, head) && Cmp(baseFee, head, tx) >= 0
    ensures Cmp(baseFee, t, tx) >= 0
  {
  }

  predicate Live(t: Tx, remotes: Index) {
    t.Hash() in remotes
  }

  function Weight(t: Tx, remotes: Index): nat {
    if Live(t, remotes) then t.Slots() else 0
  }

  /** The slots that evicting every live entry of `ms` would free, counting repeated entries. */
  ghost function LiveSlots(ms: multiset<Tx>, remotes: Index): nat {
    if ms == multiset{} then 0
    else
      var t :| t in ms;
      Weight(t, remotes) + LiveSlots(ms - multiset{t}, remotes)
  }

  lemma {:induction false} LiveSlotsLess(ms: multiset<Tx>, t: Tx, remotes: Index)
    requires t in ms
    ensures LiveSlots(ms, remotes) == Weight(t, remotes) + LiveSlots(ms - multiset{t}, remotes)
    decreases |ms|
  {
    hide Weight;
    var u :| u in ms && LiveSlots(ms, remotes) == Weight(u, remotes) + LiveSlots(ms - multiset{u}, remotes);
    if u != t {
      TwoOut(ms, t, u);
      LiveSlotsLess(ms - multiset{u}, t, remotes);
      LiveSlotsLess(ms - multiset{t}, u, remotes);
    }
  }

  lemma TwoOut(ms: multiset<Tx>, t: Tx, u: Tx)
    requires t in ms && u in ms && t != u
    ensures t in ms - multiset{u} && u in ms - multiset{t}
    ensures ms - multiset{u} - multiset{t} == ms - multiset{t} - multiset{u}
  {
  }

  lemma LiveSlotsMore(ms: multiset<Tx>, t: Tx, remotes: Index)
    ensures LiveSlots(ms + multiset{t}, remotes) == Weight(t, remotes) + LiveSlots(ms, remotes)
  {
    LiveSlotsLess(ms + multiset{t}, t, remotes);
    assert ms + multiset{t} - multiset{t} == ms;
  }

  /** The slots of a list of transactions. */
  ghost function TotalSlots(s: seq<Tx>): nat {
    if s == [] then 0 else TotalSlots(s[..|s| - 1]) + s[|s| - 1].Slots()
  }

  /** Both multisets hold every live transaction equally often. */
  ghost predicate SameLive(a: multiset<Tx>, b: multiset<Tx>, remotes: Index) {
    forall t :: Live(t, remotes) ==> a[t] == b[t]
  }

  /** Losing stale entries does not change what the live ones are worth. */
  lemma {:induction false} SameLiveSlots(a: multiset<Tx>, b: multiset<Tx>, remotes: Index)
    requires a <= b && SameLive(a, b, remotes)
    ensures LiveSlots(a, remotes) == LiveSlots(b, remotes)
    decreases |b|
  {
    hide LiveSlots;
    if a != b {
      assert b == a + (b - a);
      var t :| t in b - a;
      LiveSlotsLess(b, t, remotes);
      SameLiveSlots(a, b - multiset{t}, remotes);
    }
  }

  /** Whether the larger share of entries is in the urgent heap. */
  predicate UrgentHeavy(urgent: seq<Tx>, floating: seq<Tx>) {
    |urgent| * FLOATING_RATIO > |floating| * URGENT_RATIO
  }

  method PopPrice(baseFee: Option<int>, h0: seq<Tx>) returns (h: seq<Tx>, tx: Tx)
    requires BinaryHeap.IsHeap(Order(baseFee), h0) && h0 != []
    ensures BinaryHeap.IsHeap(Order(baseFee), h)
    ensures tx == h0[0] && multiset(h0) == multiset(h) + multiset{tx} && |h| == |h0| - 1
    ensures forall t :: t in multiset(h0) ==> !Cheaper(baseFee, t, tx)
  {
    OrderIsOrdering(baseFee);
    h, tx := BinaryHeap.Pop(Order(baseFee), h0);
    assert |multiset(h0)| == |multiset(h)| + 1;
    forall t | t in multiset(h0)
      ensures !Cheaper(baseFee, t, tx)
    {
      assert !Order(baseFee)(t, tx);
    }
  }

  method PushPrice(baseFee: Option<int>, h0: seq<Tx>, tx: Tx) returns (h: seq<Tx>)
    requires BinaryHeap.IsHeap(Order(baseFee), h0)
    ensures BinaryHeap.IsHeap(Order(baseFee), h)
    ensures multiset(h) == multiset(h0) + multiset{tx} && |h| == |h0| + 1
  {
    OrderIsOrdering(baseFee);
    h := BinaryHeap.Push(Order(baseFee), h0, tx);
    assert |multiset(h)| == |multiset(h0)| + 1;
  }

  /** How far `Discard` has come: what is left in the heaps and what was dropped for `want` slots. */
  ghost predicate Progress(start: multiset<Tx>, left: multiset<Tx>, drop: seq<Tx>, remotes: Index, want: int,
                           short: int)
  {
    && (forall t :: t in drop ==> Live(t, remotes))
    && SameLive(left + multiset(drop), start, remotes) && left + multiset(drop) <= start
    && short == want - TotalSlots(drop)
    && (drop != [] ==> want - TotalSlots(drop[..|drop| - 1]) > 0)
    && LiveSlots(left, remotes) + TotalSlots(drop) == LiveSlots(start, remotes)
  }

  lemma SkipStale(start: multiset<Tx>, left: multiset<Tx>, tx: Tx, drop: seq<Tx>, remotes: Index, want: int, short: int)
    requires Progress(start, left + multiset{tx}, drop, remotes, want, short) && !Live(tx, remotes)
    ensures Progress(start, left, drop, remotes, want, short)
  {
    LiveSlotsMore(left, tx, remotes);
  }

  lemma DropLive(start: multiset<Tx>, left: multiset<Tx>, tx: Tx, drop: seq<Tx>, remotes: Index, want: int, short: int)
    requires Progress(start, left + multiset{tx}, drop, remotes, want, short) && Live(tx, remotes) && short > 0
    ensures Progress(start, left, drop + [tx], remotes, want, short - tx.Slots())
  {
    LiveSlotsMore(left, tx, remotes);
    Dropped(drop, tx);
    assert left + multiset(drop + [tx]) == left + multiset{tx} + multiset(drop);
  }

  /**
   What is dropped is the cheapest: nothing left in the urgent heap is cheaper
   than a drop that was ever urgent, and nothing left in the floating heap is
   cheaper than a drop in its own order, unless it came from the urgent heap
   after the drop, which was no dearer there or never urgent.
   */
  ghost predicate CheapestDropped(baseFee: Option<int>, urgent0: multiset<Tx>, floating0: multiset<Tx>,
                                  urgent: multiset<Tx>, floating: multiset<Tx>, drop: seq<Tx>) {
    && (forall d, u :: d in drop && u in urgent ==> d in floating0 || !Cheaper(baseFee, u, d))
    && (forall d, f :: d in drop && f in floating ==>
          !Cheaper(None, f, d) || (f in urgent0 && (d in floating0 || !Cheaper(baseFee, f, d))))
  }

  /** Both heaps as they were, and the remote transactions they are about. */
  datatype Heaps = Heaps(baseFee: Option<int>, urgent: multiset<Tx>, floating: multiset<Tx>, remotes: Index)

  /** A remote transaction comes, with an entry in the urgent heap. */
  function Entered(heaps: Heaps, tx: Tx): Heaps {
    heaps.(urgent := heaps.urgent + multiset{tx}, remotes := heaps.remotes[tx.Hash() := tx])
  }

  /** A transaction goes, and its entry stays as a stale one. */
  function Stranded(heaps: Heaps, hash: Hash): Heaps {
    heaps.(remotes := heaps.remotes - {hash})
  }

  /**
   A live transaction with an entry left is no cheaper by fee cap than a dropped
   one, or it was urgent and no cheaper there than the drop.  Nothing is said of
   one that was urgent and a drop that floated: the heaps have different orders.
   */
  ghost predicate CheapestFirst(heaps: Heaps, drop: seq<Tx>) {
    forall d, r :: d in drop && Live(r, heaps.remotes) && (heaps.urgent + heaps.floating)[r] > multiset(drop)[r] ==>
      !Cheaper(None, r, d) || (r in heaps.urgent && (d in heaps.floating || !Cheaper(heaps.baseFee, r, d)))
  }

  lemma CheapestAreFirst(heaps: Heaps, urgent: multiset<Tx>, floating: multiset<Tx>, drop: seq<Tx>)
    requires CheapestDropped(heaps.baseFee, heaps.urgent, heaps.floating, urgent, floating, drop)
    requires urgent <= heaps.urgent
    requires SameLive(urgent + floating + multiset(drop), heaps.urgent + heaps.floating, heaps.remotes)
    ensures CheapestFirst(heaps, drop)
  {
    hide Cheaper;
    forall d, r | d in drop && Live(r, heaps.remotes) && (heaps.urgent + heaps.floating)[r] > multiset(drop)[r]
      ensures !Cheaper(None, r, d) || (r in heaps.urgent && (d in heaps.floating || !Cheaper(heaps.baseFee, r, d)))
    {
      assert r in urgent || r in floating;
    }
  }

  /** Stale entries popped before a drop make no difference to it. */
  lemma FirstAsBefore(before: Heaps, heaps: Heaps, drop: seq<Tx>)
    requires CheapestFirst(heaps, drop) && heaps.baseFee == before.baseFee && heaps.remotes == before.remotes
    requires heaps.urgent <= before.urgent && heaps.floating <= before.floating
    requires SameLive(heaps.urgent + heaps.floating, before.urgent + before.floating, heaps.remotes)
    ensures CheapestFirst(before, drop)
  {
    hide Cheaper;
  }

  /** What was moved to the floating heap is no dearer than what is still urgent. */
  ghost predicate CheapestMoved(baseFee: Option<int>, floating0: multiset<Tx>, urgent: multiset<Tx>,
                                floating: multiset<Tx>) {
    forall f, u :: f in floating && u in urgent ==> f in floating0 || !Cheaper(baseFee, u, f)
  }

  /**
   The loop of `Discard`: moves the cheapest urgent entries to the floating
   heap and drops the cheapest floating ones until `want` slots are freed.
   */
  method DropCheapest(baseFee: Option<int>, urgent0: seq<Tx>, floating0: seq<Tx>, remotes: Index, want: int)
    returns (urgent: seq<Tx>, floating: seq<Tx>, drop: seq<Tx>, short: int, stale: nat)
    requires BinaryHeap.IsHeap(Order(baseFee), urgent0) && BinaryHeap.IsHeap(Order(None), floating0)
    ensures BinaryHeap.IsHeap(Order(baseFee), urgent) && BinaryHeap.IsHeap(Order(None), floating)
    ensures Progress(multiset(urgent0) + multiset(floating0), multiset(urgent) + multiset(floating), drop, remotes,
                     want, short)
    ensures short > 0 ==> urgent == [] && floating == []
    ensures multiset(urgent) <= multiset(urgent0)
    ensures stale + |drop| == |urgent0| + |floating0| - |urgent| - |floating|
    ensures CheapestDropped(baseFee, multiset(urgent0), multiset(floating0), multiset(urgent), multiset(floating), drop)
  {
    hide BinaryHeap.IsHeap, Order, Cheaper, Dropping, CheapestDropped, Progress, Tx.Slots;
    urgent, floating, drop, short, stale := urgent0, floating0, [], want, 0;
    ghost var start, size := Heaps(baseFee, multiset(urgent0), multiset(floating0), remotes), |urgent0| + |floating0|;
    NothingDropped(start, want);
    while short > 0
      invariant BinaryHeap.IsHeap(Order(baseFee), urgent) && BinaryHeap.IsHeap(Order(None), floating)
      invariant Dropping(start, multiset(urgent), multiset(floating), drop, want, short)
      invariant stale + |drop| + |urgent| + |floating| == size
      decreases 2 * |urgent| + |floating|
    {
      var tx;
      if UrgentHeavy(urgent, floating) {
        urgent, tx := PopPrice(baseFee, urgent);
        TakeUrgent(start, multiset(urgent), multiset(floating), tx, drop, want, short);
        if tx.Hash() !in remotes {
          stale := stale + 1;
          continue;
        }
        floating := PushPrice(None, floating, tx);
      } else {
        if |floating| == 0 {
          break;
        }
        floating, tx := PopPrice(None, floating);
        TakeFloating(start, multiset(urgent), multiset(floating), tx, drop, want, short);
        if tx.Hash() !in remotes {
          stale := stale + 1;
          continue;
        }
        drop := drop + [tx];
        short := short - tx.Slots();
      }
    }
    DroppingIs(start, multiset(urgent), multiset(floating), drop, want, short);
  }

  /** Between two entries of `Discard`: what is left of the heaps and what was dropped. */
  ghost predicate Dropping(start: Heaps, urgent: multiset<Tx>, floating: multiset<Tx>, drop: seq<Tx>, want: int,
                           short: int) {
    && Progress(start.urgent + start.floating, urgent + floating, drop, start.remotes, want, short)
    && urgent <= start.urgent && CheapestMoved(start.baseFee, start.floating, urgent, floating)
    && CheapestDropped(start.baseFee, start.urgent, start.floating, urgent, floating, drop)
  }

  lemma DroppingIs(start: Heaps, urgent: multiset<Tx>, floating: multiset<Tx>, drop: seq<Tx>, want: int, short: int)
    requires Dropping(start, urgent, floating, drop, want, short)
    ensures Progress(start.urgent + start.floating, urgent + floating, drop, start.remotes, want, short)
    ensures urgent <= start.urgent
    ensures CheapestDropped(start.baseFee, start.urgent, start.floating, urgent, floating, drop)
  {
  }

  /** The cheapest urgent entry goes if it is stale, and floats otherwise. */
  lemma TakeUrgent(start: Heaps, urgent: multiset<Tx>, floating: multiset<Tx>, tx: Tx, drop: seq<Tx>, want: int,
                   short: int)
    requires Dropping(start, urgent + multiset{tx}, floating, drop, want, short)
    requires forall u :: u in urgent + multiset{tx} ==> !Cheaper(start.baseFee, u, tx)
    ensures tx.Hash() !in start.remotes ==> Dropping(start, urgent, floating, drop, want, short)
    ensures Dropping(start, urgent, floating + multiset{tx}, drop, want, short)
  {
    hide Cheaper, Progress, CheapestMoved, CheapestDropped;
    MoveUp(start.baseFee, start.urgent, start.floating, urgent, floating, tx, drop);
    OneMoves(urgent, floating, tx);
    if tx.Hash() !in start.remotes {
      SkipStale(start.urgent + start.floating, urgent + floating, tx, drop, start.remotes, want, short);
    }
  }

  /** The cheapest floating entry goes if it is stale, and is dropped otherwise. */
  lemma TakeFloating(start: Heaps, urgent: multiset<Tx>, floating: multiset<Tx>, tx: Tx, drop: seq<Tx>, want: int,
                     short: int)
    requires Dropping(start, urgent, floating + multiset{tx}, drop, want, short) && short > 0
    requires forall f :: f in floating + multiset{tx} ==> !Cheaper(None, f, tx)
    ensures if tx.Hash() !in start.remotes then Dropping(start, urgent, floating, drop, want, short)
            else Dropping(start, urgent, floating, drop + [tx], want, short - tx.Slots())
  {
    hide Cheaper, Progress, CheapestMoved, CheapestDropped, Tx.Slots;
    DropDown(start.baseFee, start.urgent, start.floating, urgent, floating, tx, drop);
    OneMoves(urgent, floating, tx);
    if tx.Hash() !in start.remotes {
      SkipStale(start.urgent + start.floating, urgent + floating, tx, drop, start.remotes, want, short);
    } else {
      DropLive(start.urgent + start.floating, urgent + floating, tx, drop, start.remotes, want, short);
    }
  }

  /** An entry belongs to both heaps together, whichever of them it is in. */
  lemma OneMoves(urgent: multiset<Tx>, floating: multiset<Tx>, tx: Tx)
    ensures (urgent + multiset{tx}) + floating == urgent + floating + multiset{tx} == urgent + (floating + multiset{tx})
  {
  }

  /** The cheapest urgent entry may go, or join the floating heap. */
  lemma MoveUp(baseFee: Option<int>, urgent0: multiset<Tx>, floating0: multiset<Tx>,
               urgent: multiset<Tx>, floating: multiset<Tx>, tx: Tx, drop: seq<Tx>)
    requires urgent + multiset{tx} <= urgent0 && forall u :: u in urgent ==> !Cheaper(baseFee, u, tx)
    requires CheapestMoved(baseFee, floating0, urgent + multiset{tx}, floating)
    requires CheapestDropped(baseFee, urgent0, floating0, urgent + multiset{tx}, floating, drop)
    ensures CheapestMoved(baseFee, floating0, urgent, floating)
    ensures CheapestMoved(baseFee, floating0, urgent, floating + multiset{tx})
    ensures CheapestDropped(baseFee, urgent0, floating0, urgent, floating, drop)
    ensures CheapestDropped(baseFee, urgent0, floating0, urgent, floating + multiset{tx}, drop)
  {
  }

  /** The cheapest floating entry may go, or be dropped. */
  lemma DropDown(baseFee: Option<int>, urgent0: multiset<Tx>, floating0: multiset<Tx>,
                 urgent: multiset<Tx>, floating: multiset<Tx>, tx: Tx, drop: seq<Tx>)
    requires forall f :: f in floating ==> !Cheaper(None, f, tx)
    requires CheapestMoved(baseFee, floating0, urgent, floating + multiset{tx})
    requires CheapestDropped(baseFee, urgent0, floating0, urgent, floating + multiset{tx}, drop)
    ensures CheapestMoved(baseFee, floating0, urgent, floating)
    ensures CheapestDropped(baseFee, urgent0, floating0, urgent, floating, drop)
    ensures CheapestDropped(baseFee, urgent0, floating0, urgent, floating, drop + [tx])
  {
  }

  lemma NothingDropped(start: Heaps, want: int)
    ensures Dropping(start, start.urgent, start.floating, [], want, want)
  {
  }

  lemma Dropped(drop: seq<Tx>, tx: Tx)
    ensures TotalSlots(drop + [tx]) == TotalSlots(drop) + tx.Slots()
    ensures (drop + [tx])[..|drop + [tx]| - 1] == drop
  {
    assert (drop + [tx])[..|drop|] == drop;
  }

  /** No live entry of `h` is priced below `tx`. */
  ghost predicate NoneCheaper(baseFee: Option<int>, h: multiset<Tx>, tx: Tx, remotes: Index) {
    forall t :: t in h && Live(t, remotes) ==> Cmp(baseFee, t, tx) >= 0
  }

  ghost predicate AnyLive(h: multiset<Tx>, remotes: Index) {
    exists t :: t in h && Live(t, remotes)
  }

  /** `underpricedFor`: pops stale entries off the top and compares `tx` with the cheapest live one. */
  method UnderpricedFor(baseFee: Option<int>, h0: seq<Tx>, remotes: Index, tx: Tx)
    returns (h: seq<Tx>, stale: nat, under: bool)
    requires BinaryHeap.IsHeap(Order(baseFee), h0)
    ensures BinaryHeap.IsHeap(Order(baseFee), h)
    ensures multiset(h) <= multiset(h0) && SameLive(multiset(h), multiset(h0), remotes)
    ensures h != [] <==> AnyLive(multiset(h0), remotes)
    ensures under <==> AnyLive(multiset(h0), remotes) && NoneCheaper(baseFee, multiset(h0), tx, remotes)
    ensures stale == |h0| - |h|
  {
    hide BinaryHeap.HeapFrom, Cmp;
    h, stale := h0, 0;
    while |h| > 0 && h[0].Hash() !in remotes
      invariant BinaryHeap.IsHeap(Order(baseFee), h) && stale == |h0| - |h|
      invariant multiset(h) <= multiset(h0) && SameLive(multiset(h), multiset(h0), remotes)
      decreases |h|
    {
      ghost var before := h;
      var gone;
      h, gone := PopPrice(baseFee, h);
      stale := stale + 1;
    }
    if |h| == 0 {
      assert forall t :: Live(t, remotes) ==> multiset(h0)[t] == multiset(h)[t] == 0;
      return h, stale, false;
    }
    under := Cmp(baseFee, h[0], tx) >= 0;
    CheapestDecides(baseFee, h, h0, remotes, tx);
  }

  lemma CheapestDecides(baseFee: Option<int>, h: seq<Tx>, h0: seq<Tx>, remotes: Index, tx: Tx)
    requires BinaryHeap.IsHeap(Order(baseFee), h) && h != [] && Live(h[0], remotes)
    requires SameLive(multiset(h), multiset(h0), remotes)
    ensures AnyLive(multiset(h0), remotes)
    ensures Cmp(baseFee, h[0], tx) >= 0 <==> NoneCheaper(baseFee, multiset(h0), tx, remotes)
  {
    OrderIsOrdering(baseFee);
    BinaryHeap.RootIsMinimum(Order(baseFee), h);
    assert h[0] in multiset(h) && multiset(h0)[h[0]] > 0;
    if Cmp(baseFee, h[0], tx) >= 0 {
      forall t | t in multiset(h0) && Live(t, remotes)
        ensures Cmp(baseFee, t, tx) >= 0
      {
        assert multiset(h)[t] == multiset(h0)[t] > 0;
        assert !Order(baseFee)(t, h[0]);
        CmpFollowsOrder(baseFee, h[0], t, tx);
      }
    }
  }

  /** The remote transactions, each once. */
  ghost function RemoteTxs(remotes: Index): multiset<Tx> {
    multiset(set h | h in remotes :: h.preimage)
  }

  method CollectRemotes(remotes: Index) returns (list: seq<Tx>)
    requires Hashed(remotes)
    ensures multiset(list) == RemoteTxs(remotes) && |list| == |remotes|
  {
    list := [];
    var todo := remotes.Keys;
    ghost var done: set<Hash> := {};
    while todo != {}
      invariant todo !! done && todo + done == remotes.Keys
      invariant multiset(list) == multiset(set h | h in done :: h.preimage) && |list| == |done|
      decreases |todo|
    {
      var h :| h in todo;
      todo := todo - {h};
      list := list + [remotes[h]];
      Preimages(done, h);
      done := done + {h};
    }
    assert done == remotes.Keys;
  }

  lemma Preimages(done: set<Hash>, h: Hash)
    requires h !in done
    ensures multiset(set g | g in done + {h} :: g.preimage)
      == multiset(set g | g in done :: g.preimage) + multiset{h.preimage}
  {
    var was := set g | g in done :: g.preimage;
    assert forall g :: g in done ==> g.preimage != h.preimage;
    assert (set g | g in done + {h} :: g.preimage) == was + {h.preimage};
  }

  /** The cheapest fifth of the remotes goes to the floating heap. */
  method SplitByPrice(baseFee: Option<int>, list: seq<Tx>) returns (urgent: seq<Tx>, floating: seq<Tx>)
    ensures BinaryHeap.IsHeap(Order(baseFee), urgent) && BinaryHeap.IsHeap(Order(None), floating)
    ensures multiset(urgent) + multiset(floating) == multiset(list)
    ensures |floating| == |list| * FLOATING_RATIO / (URGENT_RATIO + FLOATING_RATIO)
    ensures forall f, u :: f in multiset(floating) && u in multiset(urgent) ==> !Cheaper(baseFee, u, f)
  {
    hide BinaryHeap.HeapFrom, Cheaper;
    OrderIsOrdering(baseFee);
    OrderIsOrdering(None);
    urgent := BinaryHeap.Init(Order(baseFee), list);
    assert |multiset(urgent)| == |multiset(list)|;
    var count := |urgent| * FLOATING_RATIO / (URGENT_RATIO + FLOATING_RATIO);
    floating := [];
    for i := 0 to count
      invariant BinaryHeap.IsHeap(Order(baseFee), urgent)
      invariant |floating| == i && |urgent| == |list| - i
      invariant multiset(urgent) + multiset(floating) == multiset(list)
      invariant forall f, u :: f in multiset(floating) && u in multiset(urgent) ==> !Cheaper(baseFee, u, f)
    {
      var tx;
      urgent, tx := PopPrice(baseFee, urgent);
      floating := floating + [tx];
    }
    ghost var moved := floating;
    floating := BinaryHeap.Init(Order(None), floating);
    assert |multiset(floating)| == |multiset(moved)|;
  }

  /** The two heaps with the count of their stale entries. */
  datatype Tally = Count(stales: int, urgent: seq<Tx>, floating: seq<Tx>)

  /** With more entries gone stale: they are counted up to a quarter of all, and beyond it the heaps are rebuilt. */
  ghost predicate Counted(was: Tally, count: int, now: Tally, remotes: Index) {
    if was.stales + count <= (|was.urgent| + |was.floating|) / 4
    then now == was.(stales := was.stales + count)
    else multiset(now.urgent) + multiset(now.floating) == RemoteTxs(remotes) && now.stales == 0
  }

  class TxPricedList {
    const all: TxLookup
    var stales: int
    var urgent: seq<Tx>
    var floating: seq<Tx>
    var baseFee: Option<int>

    ghost predicate Valid()
      reads this
    {
      BinaryHeap.IsHeap(Order(baseFee), urgent) && BinaryHeap.IsHeap(Order(None), floating)
    }

    ghost function Entries(): multiset<Tx>
      reads this
    {
      multiset(urgent) + multiset(floating)
    }

    ghost function Prices(): Heaps
      reads this, all
    {
      Heaps(baseFee, multiset(urgent), multiset(floating), all.remotes)
    }

    /** One more stale entry does not make the heaps be rebuilt. */
    predicate Calm()
      reads this
    {
      stales + 1 <= (|urgent| + |floating|) / 4
    }

    /** Every remote transaction outside `untracked` has a heap entry. */
    ghost predicate Tracks(untracked: set<Hash>)
      reads this, all
    {
      forall h :: h in all.remotes && h !in untracked ==> Entries()[h.preimage] >= 1
    }

    /** No remote transaction has two. */
    ghost predicate Single()
      reads this, all
    {
      forall h :: h in all.remotes ==> Entries()[h.preimage] <= 1
    }

    ghost function Tally(): Tally
      reads this
    {
      Count(stales, urgent, floating)
    }

    ghost predicate Recounted(was: Tally, count: int)
      reads this, all
    {
      Counted(was, count, Tally(), all.remotes)
    }

    /** The entries are the remote transactions, the cheapest fifth of them floating, and none is stale. */
    ghost predicate Rebuilt()
      reads this, all
    {
      && Entries() == RemoteTxs(all.remotes) && stales == 0 && |floating| == |all.remotes| / 5
      && forall f, u :: f in multiset(floating) && u in multiset(urgent) ==> !Cheaper(baseFee, u, f)
    }

    constructor (all: TxLookup)
      ensures Valid() && this.all == all && urgent == [] && floating == [] && baseFee == None && stales == 0
    {
      this.all := all;
      stales, urgent, floating, baseFee := 0, [], [], None;
    }

    method Put(tx: Tx, local: bool)
      requires Valid()
      modifies this`stales, this`urgent, this`floating
      ensures Valid() && stales == old(stales) && baseFee == old(baseFee) && floating == old(floating)
      ensures multiset(urgent) == multiset(old(urgent)) + (if local then multiset{} else multiset{tx})
      ensures Entries() == old(Entries()) + (if local then multiset{} else multiset{tx})
    {
      if local {
        return;
      }
      urgent := PushPrice(baseFee, urgent, tx);
    }

    /** Counts stale entries and rebuilds the heaps once they exceed a quarter. */
    method Removed(count: int, ghost untracked: set<Hash>)
      requires Valid() && all.Valid()
      modifies this`stales, this`urgent, this`floating
      ensures Valid() && baseFee == old(baseFee)
      ensures Recounted(old(Tally()), count)
      ensures old(Tracks(untracked)) ==> Tracks(untracked)
      ensures old(Single()) ==> Single()
    {
      stales := stales + count;
      if stales <= (|urgent| + |floating|) / 4 {
        return;
      }
      Reheap();
    }

    method Reheap()
      requires all.Valid()
      modifies this`stales, this`urgent, this`floating
      ensures Valid() && Rebuilt() && Tracks({}) && Single()
    {
      stales := 0;
      var list := CollectRemotes(all.remotes);
      urgent, floating := SplitByPrice(baseFee, list);
    }

    method SetBaseFee(fee: int)
      requires Valid() && all.Valid()
      modifies this
      ensures Valid() && baseFee == Some(fee) && Rebuilt() && Tracks({}) && Single()
    {
      baseFee := Some(fee);
      Reheap();
    }

    /** Whether every live remote transaction is priced at least like `tx`. */
    method Underpriced(tx: Tx) returns (under: bool)
      requires Valid()
      modifies this`stales, this`urgent, this`floating
      ensures Valid() && Entries() <= old(Entries()) && SameLive(Entries(), old(Entries()), all.remotes)
      ensures baseFee == old(baseFee) && multiset(urgent) <= multiset(old(urgent))
      ensures multiset(floating) <= multiset(old(floating))
      ensures old(stales) - stales == |old(urgent)| + |old(floating)| - |urgent| - |floating|
      ensures under <==>
        && AnyLive(old(Entries()), all.remotes)
        && NoneCheaper(baseFee, multiset(old(urgent)), tx, all.remotes)
        && NoneCheaper(None, multiset(old(floating)), tx, all.remotes)
    {
      hide BinaryHeap.HeapFrom, Cmp;
      var stale, less;
      urgent, stale, less := UnderpricedFor(baseFee, urgent, all.remotes, tx);
      stales := stales - stale;
      under := less || |urgent| == 0;
      if !under {
        return;
      }
      floating, stale, less := UnderpricedFor(None, floating, all.remotes, tx);
      stales := stales - stale;
      under := (less || |floating| == 0) && (|urgent| != 0 || |floating| != 0);
    }

    /**
     Finds the cheapest remote transactions that together take `slots` slots.
     Unforced, it refuses exactly when all live entries together take fewer.
     */
    method Discard(slots: nat, force: bool) returns (drop: seq<Tx>, ok: bool)
      requires Valid()
      modifies this`stales, this`urgent, this`floating
      ensures Valid()
      ensures ok <==> force || LiveSlots(old(Entries()), all.remotes) >= slots
      ensures forall t :: t in drop ==> Live(t, all.remotes)
      ensures SameLive(Entries() + multiset(drop), old(Entries()), all.remotes)
      ensures Entries() + multiset(drop) <= old(Entries())
      ensures !ok ==> drop == []
      ensures ok && drop != [] ==> TotalSlots(drop[..|drop| - 1]) < slots
      ensures ok ==> TotalSlots(drop) >= slots || LiveSlots(old(Entries()), all.remotes) == TotalSlots(drop) < slots
      ensures CheapestDropped(baseFee, multiset(old(urgent)), multiset(old(floating)), multiset(urgent),
                              multiset(floating), drop)
      ensures baseFee == old(baseFee) && CheapestFirst(old(Prices()), drop)
      ensures old(stales) - stales == |old(urgent)| + |old(floating)| - |urgent| - |floating| - |drop|
    {
      hide BinaryHeap.HeapFrom, CheapestDropped, CheapestFirst;
      var short, stale;
      urgent, floating, drop, short, stale := DropCheapest(baseFee, urgent, floating, all.remotes, slots);
      stales := stales - stale;
      if short > 0 && !force {
        urgent := PushAll(baseFee, urgent, drop);
        NoDrops(baseFee, multiset(old(urgent)), multiset(old(floating)), multiset(urgent), multiset(floating));
        NoneFirst(old(Prices()));
        return [], false;
      }
      CheapestAreFirst(old(Prices()), multiset(urgent), multiset(floating), drop);
      ok := true;
    }
  }

  lemma NoneFirst(heaps: Heaps)
    ensures CheapestFirst(heaps, [])
  {
  }

  lemma NoDrops(baseFee: Option<int>, urgent0: multiset<Tx>, floating0: multiset<Tx>, urgent: multiset<Tx>,
                floating: multiset<Tx>)
    ensures CheapestDropped(baseFee, urgent0, floating0, urgent, floating, [])
  {
  }

  method PushAll(baseFee: Option<int>, h0: seq<Tx>, txs: seq<Tx>) returns (h: seq<Tx>)
    requires BinaryHeap.IsHeap(Order(baseFee), h0)
    ensures BinaryHeap.IsHeap(Order(baseFee), h) && multiset(h) == multiset(h0) + multiset(txs)
  {
    hide BinaryHeap.HeapFrom;
    h := h0;
    for i := 0 to |txs|
      invariant BinaryHeap.IsHeap(Order(baseFee), h) && multiset(h) == multiset(h0) + multiset(txs[..i])
    {
      assert txs[..i + 1] == txs[..i] + [txs[i]];
      h := PushPrice(baseFee, h, txs[i]);
    }
    assert txs[..|txs|] == txs;
  }
}
