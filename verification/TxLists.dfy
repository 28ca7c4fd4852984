/**
 `txList`: the transactions of one account, strict (no nonce gaps survive a
 removal) for the executable ones and gapped for the future ones.  A list's
 value is `TxListState`; the class computes it with the heap-indexed map, the
 cost and gas caps and the short cut they allow.
 */
module TxLists {
  import opened Prelude
  import opened Transactions
  import opened SortedMap

  /** The fee a replacement must reach: `fee` raised by `bump` percent, rounded down. */
  function Threshold(fee: nat, bump: nat): nat {
    fee * (100 + bump) / 100
  }

  /** Whether `tx` may take the place of `was`. */
  predicate Outbids(was: Tx, tx: Tx, bump: nat) {
    && !(was.feeCap >= tx.feeCap || was.tipCap >= tx.tipCap)
    && !(tx.feeCap < Threshold(was.feeCap, bump) || tx.tipCap < Threshold(was.tipCap, bump))
  }

  /** The lowest nonce of `m` that meets `c`; 2^64 when none does. */
  function FirstMeeting(m: Items, c: Criterion): int {
    if Selected(m, c) == map[] then MAX_U64 + 1 else MinNonce(Selected(m, c))
  }

  datatype TxListState = TxListState(strict: bool, items: Items, costcap: int, gascap: u64) {

    /** Items sit under their own nonces and the caps bound every one of them. */
    ghost predicate Ok() {
      Keyed(items) && forall n :: n in items ==> items[n].Cost() <= costcap && items[n].gas <= gascap
    }

    predicate Accepts(tx: Tx, bump: nat) {
      tx.nonce in items ==> Outbids(items[tx.nonce], tx, bump)
    }

    function Add(tx: Tx): (r: TxListState)
      ensures Ok() ==> r.Ok()
    {
      TxListState(strict, items[tx.nonce := tx],
                  if costcap < tx.Cost() then tx.Cost() else costcap,
                  if gascap < tx.gas then tx.gas else gascap)
    }

    function Forward(threshold: u64): TxListState {
      this.(items := FromNonce(items, threshold))
    }

    function Cap(threshold: nat): TxListState {
      this.(items := BelowNonce(items, CapCut(items, threshold)))
    }

    /** The nonces from the least one up to the first gap, when the least is at most `start`. */
    function ReadyEnd(start: u64): int {
      if items == map[] || MinNonce(items) > start then 0 else RunEnd(items, MinNonce(items))
    }

    function Ready(start: u64): TxListState {
      this.(items := FromNonce(items, ReadyEnd(start)))
    }

    function Remove(nonce: u64): TxListState {
      if nonce !in items then this
      else if strict then this.(items := BelowNonce(items, nonce))
      else this.(items := items - {nonce})
    }

    /** What a full scan keeps: in a strict list nothing above an unaffordable transaction stays. */
    function Affordable(costLimit: int, gasLimit: u64): Items {
      var c := Unaffordable(costLimit, gasLimit);
      if strict then BelowNonce(items, FirstMeeting(items, c)) else Without(items, c)
    }

    predicate WithinCaps(costLimit: int, gasLimit: u64) {
      costcap <= costLimit && gascap <= gasLimit
    }

    function Filter(costLimit: int, gasLimit: u64): TxListState {
      if WithinCaps(costLimit, gasLimit) then this.(items := Affordable(costLimit, gasLimit))
      else TxListState(strict, Affordable(costLimit, gasLimit), costLimit, gasLimit)
    }
  }

  function EmptyList(strict: bool): (r: TxListState)
    ensures r.Ok()
  {
    TxListState(strict, map[], 0, 0)
  }

  /** Under the caps a full scan keeps everything, which is why `Filter` may skip it. */
  lemma CapsSkipScan(l: TxListState, costLimit: int, gasLimit: u64)
    requires l.Ok() && l.WithinCaps(costLimit, gasLimit)
    ensures l.Affordable(costLimit, gasLimit) == l.items
    ensures Selected(l.items, Unaffordable(costLimit, gasLimit)) == map[]
  {
    assert Selected(l.items, Unaffordable(costLimit, gasLimit)) == map[];
    assert Without(l.items, Unaffordable(costLimit, gasLimit)) == l.items;
    assert BelowNonce(l.items, MAX_U64 + 1) == l.items;
  }

  /** Every operation leaves the caps bounding every transaction. */
  lemma CapsStayBounds(l: TxListState, costLimit: int, gasLimit: u64, nonce: u64, size: nat)
    requires l.Ok()
    ensures l.Filter(costLimit, gasLimit).Ok() && l.Forward(nonce).Ok() && l.Cap(size).Ok()
    ensures l.Ready(nonce).Ok() && l.Remove(nonce).Ok()
  {
    if !l.WithinCaps(costLimit, gasLimit) {
      var c := Unaffordable(costLimit, gasLimit);
      forall n | n in l.Affordable(costLimit, gasLimit)
        ensures !c.Meets(l.items[n])
      {
        assert c.Meets(l.items[n]) ==> n in Selected(l.items, c);
      }
    }
  }

  /** What `Filter` drops for its price and what it drops for the gap that leaves. */
  function Invalidated(l: TxListState, costLimit: int, gasLimit: u64): Items {
    var c := Unaffordable(costLimit, gasLimit);
    if l.strict then FromNonce(Without(l.items, c), FirstMeeting(l.items, c)) else map[]
  }

  /** `Filter` splits the contents into kept, unaffordable and invalidated; nothing is lost or doubled. */
  lemma FilterPartitions(l: TxListState, costLimit: int, gasLimit: u64)
    requires l.Ok()
    ensures var kept := l.Filter(costLimit, gasLimit).items;
      var dropped := Selected(l.items, Unaffordable(costLimit, gasLimit));
      var invalid := Invalidated(l, costLimit, gasLimit);
      && kept + dropped + invalid == l.items
      && kept.Keys !! dropped.Keys !! invalid.Keys
  {
    var c := Unaffordable(costLimit, gasLimit);
    var dropped := Selected(l.items, c);
    assert forall n :: n in dropped ==> n >= FirstMeeting(l.items, c);
    var kept, invalid := l.Affordable(costLimit, gasLimit), Invalidated(l, costLimit, gasLimit);
    assert (kept + dropped + invalid).Keys == l.items.Keys;
  }

  /** No nonce is missing between two stored ones. */
  ghost predicate Contiguous(m: Items) {
    forall lo, k: u64, hi :: lo in m && hi in m && lo <= k <= hi ==> k in m
  }

  /** A strict list without gaps never gets one. */
  lemma StrictStaysContiguous(l: TxListState, costLimit: int, gasLimit: u64, nonce: u64, size: nat)
    requires l.strict && Contiguous(l.items)
    ensures Contiguous(l.Filter(costLimit, gasLimit).items) && Contiguous(l.Remove(nonce).items)
    ensures Contiguous(l.Cap(size).items) && Contiguous(l.Forward(nonce).items)
  {
    CutsStayContiguous(l.items, FirstMeeting(l.items, Unaffordable(costLimit, gasLimit)));
    CutsStayContiguous(l.items, nonce);
    CutsStayContiguous(l.items, CapCut(l.items, size));
  }

  lemma CutsStayContiguous(m: Items, cut: int)
    requires Contiguous(m)
    ensures Contiguous(BelowNonce(m, cut)) && Contiguous(FromNonce(m, cut))
  {
    forall lo, k: u64, hi | lo <= k <= hi && lo in m && hi in m
      ensures k in m
    {
    }
  }

  /** A replacement is accepted exactly from one above the old fees and from their floored bump on. */
  lemma OutbidsIff(was: Tx, tx: Tx, bump: nat)
    ensures Outbids(was, tx, bump) <==>
      && tx.feeCap >= was.feeCap + 1 && tx.tipCap >= was.tipCap + 1
      && 100 * (tx.feeCap + 1) > was.feeCap * (100 + bump)
      && 100 * (tx.tipCap + 1) > was.tipCap * (100 + bump)
  {
    FloorIff(was.feeCap * (100 + bump), tx.feeCap);
    FloorIff(was.tipCap * (100 + bump), tx.tipCap);
  }

  lemma FloorIff(a: nat, x: nat)
    ensures x >= a / 100 <==> 100 * (x + 1) > a
  {
  }

  /** A run of accepted replacements raises both fees by at least one each time. */
  ghost predicate Replacements(txs: seq<Tx>, bump: nat) {
    forall i :: 0 <= i < |txs| - 1 ==> Outbids(txs[i], txs[i + 1], bump)
  }

  lemma {:induction false} ReplacementsClimb(txs: seq<Tx>, bump: nat)
    requires Replacements(txs, bump) && txs != []
    ensures txs[|txs| - 1].feeCap >= txs[0].feeCap + |txs| - 1
    ensures txs[|txs| - 1].tipCap >= txs[0].tipCap + |txs| - 1
  {
    if |txs| > 1 {
      var init := txs[..|txs| - 1];
      ReplacementsClimb(init, bump);
      assert Outbids(txs[|txs| - 2], txs[|txs| - 1], bump);
    }
  }

  class TxList {
    const strict: bool
    const txs: TxSortedMap
    var costcap: int
    var gascap: u64

    ghost function View(): TxListState
      reads this, txs
    {
      TxListState(strict, txs.items, costcap, gascap)
    }

    ghost predicate Valid()
      reads this, txs
    {
      txs.Valid() && View().Ok()
    }

    constructor (strict: bool)
      ensures Valid() && View() == EmptyList(strict) && fresh(txs)
    {
      this.strict := strict;
      txs := new TxSortedMap();
      costcap, gascap := 0, 0;
    }

    method Add(tx: Tx, bump: nat) returns (inserted: bool, replaced: Option<Tx>)
      requires Valid()
      modifies this, txs
      ensures Valid() && inserted == old(View()).Accepts(tx, bump)
      ensures View() == if inserted then old(View()).Add(tx) else old(View())
      ensures replaced == if inserted && tx.nonce in old(txs.items) then Some(old(txs.items)[tx.nonce]) else None
    {
      replaced := None;
      if tx.nonce in txs.items {
        var was := txs.items[tx.nonce];
        if was.feeCap >= tx.feeCap || was.tipCap >= tx.tipCap {
          return false, None;
        }
        if tx.feeCap < Threshold(was.feeCap, bump) || tx.tipCap < Threshold(was.tipCap, bump) {
          return false, None;
        }
        replaced := Some(was);
      }
      txs.Put(tx);
      if costcap < tx.Cost() {
        costcap := tx.Cost();
      }
      if gascap < tx.gas {
        gascap := tx.gas;
      }
      inserted := true;
    }

    method Forward(threshold: u64) returns (removed: seq<Tx>)
      requires Valid()
      modifies this, txs
      ensures Valid() && View() == old(View()).Forward(threshold)
      ensures Flat(old(txs.items)) == removed + Flat(txs.items)
    {
      removed := txs.Forward(threshold);
    }

    method Filter(costLimit: int, gasLimit: u64) returns (removed: seq<Tx>, invalids: seq<Tx>)
      requires Valid()
      modifies this, txs
      ensures Valid() && View() == old(View()).Filter(costLimit, gasLimit)
      ensures Lists(removed, Selected(old(txs.items), Unaffordable(costLimit, gasLimit)))
      ensures Lists(invalids, Invalidated(old(View()), costLimit, gasLimit))
    {
      hide TxSortedMap.Valid, Lists, Without, Selected, Criterion.Meets, BelowNonce, FromNonce;
      removed, invalids := [], [];
      NothingListed();
      ghost var was := View();
      CapsStayBounds(was, costLimit, gasLimit, 0, 0);
      var c := Unaffordable(costLimit, gasLimit);
      if costcap <= costLimit && gascap <= gasLimit {
        CapsSkipScan(was, costLimit, gasLimit);
        NothingSelected(was, costLimit, gasLimit);
        return;
      }
      costcap, gascap := costLimit, gasLimit;
      removed := txs.Filter(c);
      if |removed| == 0 {
        NothingSelected(was, costLimit, gasLimit);
        return;
      }
      if strict {
        var lowest := Lowest(removed);
        LowestIsFirst(was.items, removed, c, lowest);
        invalids := txs.FilterNoReheap(AboveNonce(lowest));
        TwoSifts(was.items, c, lowest);
      }
      txs.Reheap();
    }

    method Cap(threshold: nat) returns (drops: seq<Tx>)
      requires Valid()
      modifies this, txs
      ensures Valid() && View() == old(View()).Cap(threshold)
      ensures if |old(txs.items)| <= threshold then drops == [] else ReversedTail(drops, old(txs.items), threshold)
    {
      drops := txs.Cap(threshold);
    }

    method Remove(tx: Tx) returns (found: bool, invalids: seq<Tx>)
      requires Valid()
      modifies this, txs
      ensures Valid() && found == (tx.nonce in old(txs.items)) && View() == old(View()).Remove(tx.nonce)
      ensures Lists(invalids, if found && strict then FromNonce(old(txs.items), tx.nonce + 1) else map[])
    {
      hide TxSortedMap.Valid, Lists, Without, Selected, BelowNonce, FromNonce, TxListState.Ok;
      invalids := [];
      NothingListed();
      RemoveSifts(View(), tx.nonce);
      found := txs.Remove(tx.nonce);
      if found && strict {
        invalids := txs.Filter(AboveNonce(tx.nonce));
      }
    }

    method Ready(start: u64) returns (ready: seq<Tx>)
      requires Valid()
      modifies this, txs
      ensures Valid() && View() == old(View()).Ready(start)
      ensures Flat(old(txs.items)) == ready + Flat(txs.items)
    {
      FromNonceAll(txs.items, 0);
      ready := txs.Ready(start);
    }
  }

  lemma NothingListed()
    ensures Lists([], map[])
  {
  }

  /** Removing a nonce and then, in a strict list, all above it, leaves what lies below. */
  lemma RemoveSifts(l: TxListState, n: u64)
    requires l.Ok()
    ensures l.Remove(n).Ok() && (n !in l.items ==> l.items - {n} == l.items)
    ensures Without(l.items - {n}, AboveNonce(n)) == BelowNonce(l.items, n)
    ensures Selected(l.items - {n}, AboveNonce(n)) == FromNonce(l.items, n + 1)
  {
    hide Without, Selected, BelowNonce, FromNonce;
    CapsStayBounds(l, 0, 0, n, 0);
    SiftedAbove(l.items, n);
  }

  lemma SiftedAbove(m: Items, n: u64)
    requires Keyed(m)
    ensures n !in m ==> m - {n} == m
    ensures Without(m - {n}, AboveNonce(n)) == BelowNonce(m, n)
    ensures Selected(m - {n}, AboveNonce(n)) == FromNonce(m, n + 1)
  {
  }

  /** The least nonce of a non-empty removal. */
  method Lowest(txs: seq<Tx>) returns (lowest: u64)
    requires txs != []
    ensures (exists i :: 0 <= i < |txs| && txs[i].nonce == lowest)
    ensures forall i :: 0 <= i < |txs| ==> lowest <= txs[i].nonce
  {
    lowest := MAX_U64;
    for i := 0 to |txs|
      invariant forall j :: 0 <= j < i ==> lowest <= txs[j].nonce
      invariant lowest == MAX_U64 || exists j :: 0 <= j < i && txs[j].nonce == lowest
    {
      if lowest > txs[i].nonce {
        lowest := txs[i].nonce;
      }
    }
    assert lowest == MAX_U64 ==> txs[0].nonce == lowest;
  }

  lemma LowestIsFirst(m: Items, removed: seq<Tx>, c: Criterion, lowest: u64)
    requires Keyed(m) && Lists(removed, Selected(m, c)) && removed != []
    requires (exists i :: 0 <= i < |removed| && removed[i].nonce == lowest)
    requires forall i :: 0 <= i < |removed| ==> lowest <= removed[i].nonce
    ensures lowest == FirstMeeting(m, c)
  {
    var i :| 0 <= i < |removed| && removed[i].nonce == lowest;
    assert removed[i] in removed && lowest in Selected(m, c);
    var first := MinNonce(Selected(m, c));
    assert m[first] in removed;
    var j :| 0 <= j < |removed| && removed[j] == m[first];
  }

  lemma NothingSelected(l: TxListState, costLimit: int, gasLimit: u64)
    requires Selected(l.items, Unaffordable(costLimit, gasLimit)) == map[]
    ensures l.Affordable(costLimit, gasLimit) == l.items
    ensures Without(l.items, Unaffordable(costLimit, gasLimit)) == l.items
    ensures Invalidated(l, costLimit, gasLimit) == map[]
  {
    var c := Unaffordable(costLimit, gasLimit);
    forall n | n in l.items
      ensures !c.Meets(l.items[n])
    {
      assert n !in Selected(l.items, c);
    }
    assert Without(l.items, c) == l.items;
    assert BelowNonce(l.items, MAX_U64 + 1) == l.items;
  }

  /** Dropping the unaffordable and then all above the lowest of them leaves what lies below it. */
  lemma TwoSifts(m: Items, c: Criterion, lowest: u64)
    requires Keyed(m) && lowest == FirstMeeting(m, c)
    ensures Without(Without(m, c), AboveNonce(lowest)) == BelowNonce(m, lowest)
    ensures Selected(Without(m, c), AboveNonce(lowest)) == FromNonce(Without(m, c), lowest)
  {
    assert lowest in Selected(m, c);
    assert forall n :: n in m && n < lowest ==> n !in Selected(m, c);
  }
}
