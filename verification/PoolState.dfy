/**
 The contents of the transaction pool as values: the two families of account
 lists, the set of known hashes, and the invariant that ties them together.
 A transaction an operation has taken out of one list and not yet put into
 another or forgotten is in transit.
 */
module PoolState {
  import opened Prelude
  import opened Transactions
  import opened SortedMap
  import opened TxLists
  import opened Lookup

  type Shelf = map<Address, TxListState>

  predicate Has(s: Shelf, a: Address, n: u64) {
    a in s && n in s[a].items
  }

  predicate Holds(s: Shelf, tx: Tx) {
    Has(s, tx.sender, tx.nonce) && s[tx.sender].items[tx.nonce] == tx
  }

  /** The nonces stored for an account. */
  function Run(s: Shelf, a: Address): set<u64> {
    if a in s then s[a].items.Keys else {}
  }

  /** The transactions stored for an account. */
  function ItemsOf(s: Shelf, a: Address): Items {
    if a in s then s[a].items else map[]
  }

  function ListOf(s: Shelf, a: Address, strict: bool): TxListState {
    if a in s then s[a] else EmptyList(strict)
  }

  /** Stores a list, or deletes the account's entry when the list is empty. */
  function SetList(s: Shelf, a: Address, l: TxListState): Shelf {
    if l.items == map[] then s - {a} else s[a := l]
  }

  /** A stored list is never empty, its caps hold, and it has only transactions of its account. */
  ghost predicate WellKept(l: TxListState, a: Address, strict: bool) {
    && l.strict == strict && l.Ok()
    && forall n :: n in l.items ==> l.items[n].sender == a && l.items[n].signed
  }

  ghost predicate Stocked(s: Shelf, strict: bool) {
    forall a :: a in s ==> s[a].items != map[] && WellKept(s[a], a, strict)
  }

  /**
   The pool's invariant.  Pending and queued nonces of an account are disjoint,
   and the known hashes are exactly those of the transactions pending, queued
   or in transit, no two of which share an account and nonce.
   */
  ghost predicate Consistent(pending: Shelf, queue: Shelf, transit: set<Tx>, known: set<Hash>) {
    && Stocked(pending, true) && Stocked(queue, false)
    && (forall a, n :: Has(pending, a, n) ==> !Has(queue, a, n))
    && (forall t :: t in transit ==> t.signed && !Has(pending, t.sender, t.nonce) && !Has(queue, t.sender, t.nonce))
    && (forall t, u :: t in transit && u in transit && t.sender == u.sender && t.nonce == u.nonce ==> t == u)
    && (forall h :: h in known <==> Holds(pending, h.preimage) || Holds(queue, h.preimage) || h.preimage in transit)
  }

  /** The transactions of `l` that are not in `kept`. */
  function Taken(l: TxListState, kept: TxListState): set<Tx> {
    set n | n in l.items && n !in kept.items :: l.items[n]
  }

  /** `kept` is `l` with some transactions taken out. */
  ghost predicate Thinned(l: TxListState, kept: TxListState) {
    && kept.strict == l.strict && kept.Ok()
    && forall n :: n in kept.items ==> n in l.items && kept.items[n] == l.items[n]
  }

  lemma TakenFromPending(pending: Shelf, queue: Shelf, transit: set<Tx>, known: set<Hash>, a: Address,
                         kept: TxListState)
    requires Consistent(pending, queue, transit, known) && a in pending && Thinned(pending[a], kept)
    ensures Consistent(SetList(pending, a, kept), queue, transit + Taken(pending[a], kept), known)
  {
    hide Has, Stocked, SetList, Taken;
    TakenFrom(pending, a, true, kept);
  }

  lemma TakenFromQueue(pending: Shelf, queue: Shelf, transit: set<Tx>, known: set<Hash>, a: Address, kept: TxListState)
    requires Consistent(pending, queue, transit, known) && a in queue && Thinned(queue[a], kept)
    ensures Consistent(pending, SetList(queue, a, kept), transit + Taken(queue[a], kept), known)
  {
    hide Has, Stocked, SetList, Taken;
    TakenFrom(queue, a, false, kept);
  }

  /** Thinning a list moves exactly the taken transactions off the shelf. */
  lemma TakenFrom(s: Shelf, a: Address, strict: bool, kept: TxListState)
    requires Stocked(s, strict) && a in s && Thinned(s[a], kept)
    ensures Stocked(SetList(s, a, kept), strict)
    ensures forall b, n :: Has(SetList(s, a, kept), b, n) <==> Has(s, b, n) && (b == a ==> n in kept.items)
    ensures forall t :: Holds(s, t) <==> Holds(SetList(s, a, kept), t) || t in Taken(s[a], kept)
    ensures forall t :: t in Taken(s[a], kept) ==>
      t.sender == a && t.signed && t.nonce !in kept.items && Holds(s, t)
  {
    var r := SetList(s, a, kept);
    forall t | Holds(s, t)
      ensures Holds(r, t) || t in Taken(s[a], kept)
    {
      if t.sender == a && t.nonce !in kept.items {
        assert s[a].items[t.nonce] == t;
      }
    }
  }

  /** A transaction in transit is put on a shelf; its place is free. */
  lemma Enqueued(pending: Shelf, queue: Shelf, transit: set<Tx>, known: set<Hash>, t: Tx)
    requires Consistent(pending, queue, transit, known) && t in transit
    ensures Consistent(pending, Shelve(queue, t, false), transit - {t}, known)
  {
    hide Has, Stocked, Shelve;
    Shelved(queue, t, false);
  }

  lemma Promoted(pending: Shelf, queue: Shelf, transit: set<Tx>, known: set<Hash>, t: Tx)
    requires Consistent(pending, queue, transit, known) && t in transit
    ensures Consistent(Shelve(pending, t, true), queue, transit - {t}, known)
  {
    hide Has, Stocked, Shelve;
    Shelved(pending, t, true);
  }

  /** Adds `t` to its account's list, which is created when missing. */
  function Shelve(s: Shelf, t: Tx, strict: bool): Shelf {
    s[t.sender := ListOf(s, t.sender, strict).Add(t)]
  }

  lemma Shelved(s: Shelf, t: Tx, strict: bool)
    requires Stocked(s, strict) && t.signed
    ensures var r := Shelve(s, t, strict);
      && Stocked(r, strict)
      && (forall b, n :: Has(r, b, n) <==> Has(s, b, n) || (b == t.sender && n == t.nonce))
      && (forall u :: Holds(r, u) <==> u == t || (Holds(s, u) && !(u.sender == t.sender && u.nonce == t.nonce)))
  {
    hide WellKept, TxListState.Add;
    AddedKept(ListOf(s, t.sender, strict), t, strict);
    ListedKept(s, t.sender, strict);
    var r := Shelve(s, t, strict);
    assert r[t.sender].items == ItemsOf(s, t.sender)[t.nonce := t] && t.nonce in r[t.sender].items;
  }

  lemma AddedKept(l: TxListState, t: Tx, strict: bool)
    requires t.signed
    ensures WellKept(l, t.sender, strict) ==> WellKept(l.Add(t), t.sender, strict)
    ensures l.Add(t).items == l.items[t.nonce := t]
  {
  }

  lemma ListedKept(s: Shelf, a: Address, strict: bool)
    requires Stocked(s, strict)
    ensures WellKept(ListOf(s, a, strict), a, strict)
    ensures ListOf(s, a, strict).items == ItemsOf(s, a)
  {
  }

  lemma Forgotten(pending: Shelf, queue: Shelf, transit: set<Tx>, known: set<Hash>, t: Tx)
    requires Consistent(pending, queue, transit, known) && t in transit
    ensures Consistent(pending, queue, transit - {t}, known - {t.Hash()})
  {
  }

  /** A new transaction takes a free place in the queue, or the place of a queued one that is forgotten. */
  lemma ArrivedQueued(pending: Shelf, queue: Shelf, known: set<Hash>, t: Tx)
    requires Consistent(pending, queue, {}, known) && t.signed && t.Hash() !in known
    requires !Has(pending, t.sender, t.nonce)
    ensures Consistent(pending, Shelve(queue, t, false), {}, known - Rivals(queue, t) + {t.Hash()})
  {
    hide Has, Stocked, Shelve, Rivals;
    Shelved(queue, t, false);
    RivalsHold(queue, t);
  }

  /** ... or the place of a pending one. */
  lemma ArrivedPending(pending: Shelf, queue: Shelf, known: set<Hash>, t: Tx)
    requires Consistent(pending, queue, {}, known) && t.signed && t.Hash() !in known
    requires Has(pending, t.sender, t.nonce)
    ensures Consistent(Shelve(pending, t, true), queue, {}, known - Rivals(pending, t) + {t.Hash()})
  {
    hide Has, Stocked, Shelve, Rivals;
    Shelved(pending, t, true);
    RivalsHold(pending, t);
  }

  lemma RivalsHold(s: Shelf, t: Tx)
    requires exists strict :: Stocked(s, strict)
    ensures forall h :: h in Rivals(s, t) <==>
      Holds(s, h.preimage) && h.preimage.sender == t.sender && h.preimage.nonce == t.nonce
  {
    if Has(s, t.sender, t.nonce) {
      var strict :| Stocked(s, strict);
      assert WellKept(s[t.sender], t.sender, strict);
    }
  }

  /** The hash of the transaction whose account and nonce `t` shares, if there is one. */
  function Rivals(s: Shelf, t: Tx): set<Hash> {
    if Has(s, t.sender, t.nonce) then {s[t.sender].items[t.nonce].Hash()} else {}
  }

  /** A transaction in transit finds its place free on both shelves, so nothing is replaced or refused. */
  lemma FreePlace(pending: Shelf, queue: Shelf, transit: set<Tx>, known: set<Hash>, t: Tx, bump: nat)
    requires Consistent(pending, queue, transit, known) && t in transit
    ensures ListOf(queue, t.sender, false).Accepts(t, bump) && Rivals(queue, t) == {}
    ensures ListOf(pending, t.sender, true).Accepts(t, bump) && Rivals(pending, t) == {}
  {
  }

  /** The lookup names a transaction and the lists find it by account and nonce: they agree. */
  lemma FoundByNonce(pending: Shelf, queue: Shelf, known: set<Hash>, h: Hash)
    requires Consistent(pending, queue, {}, known) && h in known
    ensures var t := h.preimage;
      if Has(pending, t.sender, t.nonce) then pending[t.sender].items[t.nonce] == t
      else Has(queue, t.sender, t.nonce) && queue[t.sender].items[t.nonce] == t
  {
  }

  /** Removing by nonce thins a list, and takes the transaction of that nonce first of all. */
  lemma RemoveThins(l: TxListState, n: u64)
    requires l.Ok() && n in l.items
    ensures Thinned(l, l.Remove(n)) && l.items[n] in Taken(l, l.Remove(n))
    ensures !l.strict ==> Taken(l, l.Remove(n)) == {l.items[n]}
    ensures forall k :: k in l.Remove(n).items <==> k in l.items && (if l.strict then k < n else k != n)
  {
    CapsStayBounds(l, 0, 0, n, 0);
  }

  /** Taking a pending transaction out by its nonce leaves those above it in transit. */
  lemma RemovedFromPending(pending: Shelf, queue: Shelf, known: set<Hash>, t: Tx)
    requires Consistent(pending, queue, {}, known) && Holds(pending, t)
    ensures var l := pending[t.sender]; var rest := l.Remove(t.nonce);
      && Consistent(SetList(pending, t.sender, rest), queue, Taken(l, rest) - {t}, known - {t.Hash()})
      && (forall k :: k in rest.items <==> k in l.items && k < t.nonce)
      && (forall u :: u in Taken(l, rest) ==> u.sender == t.sender)
  {
    hide Consistent, Thinned, SetList, TxListState.Remove;
    var l := pending[t.sender];
    var rest := l.Remove(t.nonce);
    StockedAt(pending, queue, {}, known, t.sender);
    RemoveThins(l, t.nonce);
    TakenFromPending(pending, queue, {}, known, t.sender, rest);
    assert {} + Taken(l, rest) == Taken(l, rest);
    Forgotten(SetList(pending, t.sender, rest), queue, Taken(l, rest), known, t);
  }

  lemma RemovedFromQueue(pending: Shelf, queue: Shelf, known: set<Hash>, t: Tx)
    requires Consistent(pending, queue, {}, known) && Holds(queue, t)
    ensures var rest := queue[t.sender].Remove(t.nonce);
      && Consistent(pending, SetList(queue, t.sender, rest), {}, known - {t.Hash()})
      && SetList(queue, t.sender, rest) - {t.sender} == queue - {t.sender}
      && SetList(queue, t.sender, rest).Keys == if rest.items == map[] then queue.Keys - {t.sender} else queue.Keys
  {
    hide Consistent, Thinned, TxListState.Remove;
    var l := queue[t.sender];
    var rest := l.Remove(t.nonce);
    StockedAt(pending, queue, {}, known, t.sender);
    RemoveThins(l, t.nonce);
    TakenFromQueue(pending, queue, {}, known, t.sender, rest);
    assert {} + Taken(l, rest) == {t};
    Forgotten(pending, SetList(queue, t.sender, rest), {t}, known, t);
    assert {t} - {t} == {};
  }

  lemma StockedAt(pending: Shelf, queue: Shelf, transit: set<Tx>, known: set<Hash>, a: Address)
    requires Consistent(pending, queue, transit, known)
    ensures a in pending ==> pending[a].items != map[] && WellKept(pending[a], a, true)
    ensures a in queue ==> queue[a].items != map[] && WellKept(queue[a], a, false)
  {
  }

  lemma SetListRun(s: Shelf, a: Address, l: TxListState)
    ensures Run(SetList(s, a, l), a) == l.items.Keys
    ensures forall b :: b != a ==> Run(SetList(s, a, l), b) == Run(s, b)
  {
  }

  lemma ShelveElsewhere(s: Shelf, t: Tx, strict: bool)
    ensures Shelve(s, t, strict) - {t.sender} == s - {t.sender}
    ensures Shelve(s, t, strict).Keys == s.Keys + {t.sender}
  {
  }

  lemma ShelveRun(s: Shelf, t: Tx, strict: bool)
    ensures Run(Shelve(s, t, strict), t.sender) == Run(s, t.sender) + {t.nonce}
    ensures ItemsOf(Shelve(s, t, strict), t.sender) == ItemsOf(s, t.sender)[t.nonce := t]
    ensures Shelve(s, t, strict) - {t.sender} == s - {t.sender}
    ensures forall b :: b != t.sender ==> Run(Shelve(s, t, strict), b) == Run(s, b)
  {
  }

  /** The account's list on the shelf is `l`; an empty one has no entry. */
  predicate Shows(s: Shelf, a: Address, l: TxListState) {
    if a in s then s[a] == l else l.items == map[]
  }

  /** The transactions of `m` with nonces from `lo` up to, not including, `hi`. */
  function Stretch(m: Items, lo: int, hi: int): set<Tx> {
    set n | n in m && lo <= n < hi :: m[n]
  }

  lemma StretchStep(m: Items, lo: u64, hi: int)
    requires Keyed(m) && lo in m && lo < hi
    ensures Stretch(m, lo, hi) - {m[lo]} == Stretch(m, lo + 1, hi) && m[lo] in Stretch(m, lo, hi)
  {
  }

  /** What the list operations of a promotion round leave of a queued list. */
  lemma OperationsThin(l: TxListState, n: u64, costLimit: int, gasLimit: u64, size: nat)
    requires l.Ok()
    ensures Thinned(l, l.Forward(n)) && Thinned(l, l.Filter(costLimit, gasLimit))
    ensures Thinned(l, l.Ready(n)) && Thinned(l, l.Cap(size))
    ensures Taken(l, l.Ready(n)) == Stretch(l.items, 0, l.ReadyEnd(n))
  {
    CapsStayBounds(l, costLimit, gasLimit, n, size);
  }

  lemma ThinnedKept(l: TxListState, kept: TxListState, a: Address, strict: bool)
    requires WellKept(l, a, strict) && Thinned(l, kept)
    ensures WellKept(kept, a, strict)
  {
  }

  lemma NothingTaken(l: TxListState, kept: TxListState)
    requires l.items == map[] && Thinned(l, kept)
    ensures kept.items == map[] && Taken(l, kept) == {}
  {
  }

  function Size(s: Shelf, a: Address): nat {
    if a in s then |s[a].items| else 0
  }

  /** How many transactions a shelf holds. */
  ghost function Total(s: Shelf): nat
    decreases |s|
  {
    if s == map[] then 0
    else
      var a :| a in s;
      SmallerShelf(s, a);
      Size(s, a) + Total(s - {a})
  }

  lemma SmallerShelf(s: Shelf, a: Address)
    requires a in s
    ensures |s - {a}| < |s|
  {
    assert (s - {a}).Keys == s.Keys - {a};
  }

  lemma {:induction false} TotalSplit(s: Shelf, a: Address)
    ensures Total(s) == Size(s, a) + Total(s - {a})
    decreases |s|
  {
    if a !in s {
      assert s - {a} == s;
    } else {
      var b :| b in s && Total(s) == Size(s, b) + Total(s - {b});
      if a != b {
        SmallerShelf(s, b);
        SmallerShelf(s, a);
        TotalSplit(s - {b}, a);
        TotalSplit(s - {a}, b);
        assert Size(s - {b}, a) == Size(s, a) && Size(s - {a}, b) == Size(s, b);
        assert s - {a} - {b} == s - {b} - {a};
      }
    }
  }

  lemma TotalSetList(s: Shelf, a: Address, l: TxListState)
    ensures Total(SetList(s, a, l)) == Total(s) - Size(s, a) + |l.items|
  {
    var r := SetList(s, a, l);
    TotalSplit(s, a);
    TotalSplit(r, a);
    assert r - {a} == s - {a};
  }
}
