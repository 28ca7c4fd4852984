/**
 `TxPool`: the operations on the pool and the invariant they all keep.
 */
module TxPools {
  import opened Prelude
  import opened Transactions
  import opened SortedMap
  import opened TxLists
  import opened Lookup
  import opened PricedList
  import opened PoolState
  import opened Noncer
  import opened IntrinsicGas

  /** The limits of a pool after `sanitize`, which leaves none of them zero. */
  datatype Config = Config(priceBump: nat, accountSlots: nat, globalSlots: nat, accountQueue: nat, globalQueue: nat) {
    predicate Sane() {
      priceBump >= 1 && accountSlots >= 1 && globalSlots >= 1 && accountQueue >= 1 && globalQueue >= 1
    }
  }

  datatype PoolError =
    | AlreadyKnown | TypeNotSupported | OversizedData | NegativeValue | GasLimitExceeded | FeeCapVeryHigh | TipVeryHigh
    | TipAboveFeeCap | InvalidSender | UnderpricedTx | NonceTooLow | InsufficientFunds | GasOverflow | TooLittleGas
    | PoolOverflow | ReplaceUnderpriced

  /** Which transaction formats and gas rules the next block allows. */
  datatype Forks = Forks(istanbul: bool, eip2718: bool, eip1559: bool)

  const MAX_TX_SIZE: int := 4 * SLOT_SIZE

  function Hashes(txs: set<Tx>): set<Hash> {
    set t | t in txs :: t.Hash()
  }

  class TxPool {
    const config: Config
    const all: TxLookup
    const priced: TxPricedList
    var pendingNonces: TxNoncer
    var world: World
    var maxGas: u64
    var gasPrice: nat
    var forks: Forks
    var changes: nat
    var locals: set<Address>
    var pending: Shelf
    var queue: Shelf
    var beats: map<Address, nat>
    var clock: nat

    /** Transactions taken out of the price heaps and about to be removed from the pool. */
    ghost var untracked: set<Hash>

    /** The lookup and the price heaps are sound, and every other remote transaction has a heap entry. */
    ghost predicate Served()
      reads this`untracked, all, priced, priced.all
    {
      all.Valid() && priced.all == all && priced.Valid() && priced.Tracks(untracked)
    }

    /** The pool's invariant, with some transactions in transit. */
    ghost predicate Core(transit: set<Tx>)
      reads this`pending, this`queue, this`beats, this`locals, this`world, this`pendingNonces, this`untracked, all,
        priced, priced.all
    {
      && config.Sane() && Served() && pendingNonces.fallback == world
      && Consistent(pending, queue, transit, all.Known())
      && queue.Keys <= beats.Keys
      && (forall h :: h in all.remotes ==> h.preimage.sender !in locals)
    }

    ghost predicate Valid()
      reads this`pending, this`queue, this`beats, this`locals, this`world, this`pendingNonces, this`untracked, all,
        priced, priced.all
    {
      Core({})
    }

    /** The pending nonces of `a` are exactly those from its state nonce up to its virtual nonce. */
    ghost predicate ExactAt(a: Address)
      reads this`pending, this`world, this`pendingNonces, pendingNonces
    {
      Exact(Run(pending, a), world.Nonce(a), pendingNonces.Peek(a))
    }

    ghost predicate SettlingAt(a: Address)
      reads this`pending, this`world, this`pendingNonces, pendingNonces
    {
      Settling(Run(pending, a), world.Nonce(a), pendingNonces.Peek(a))
    }

    /** An empty pool at the chain's head. */
    constructor (config: Config, locals: set<Address>, world: World, maxGas: u64, gasPrice: nat, forks: Forks)
      requires config.Sane()
      ensures Valid() && fresh(all) && fresh(priced) && fresh(pendingNonces)
      ensures pending == map[] && queue == map[] && all.Known() == {} && forall a :: ExactAt(a)
      ensures this.config == config && this.locals == locals && this.world == world && this.maxGas == maxGas
      ensures this.gasPrice == gasPrice && this.forks == forks && untracked == {} && pendingNonces.nonces == map[]
      ensures priced.Prices() == Heaps(None, multiset{}, multiset{}, map[]) && priced.stales == 0 && changes == 0
      ensures priced.all == all && all.slots == 0
    {
      this.config, this.locals, this.world, this.maxGas := config, locals, world, maxGas;
      this.gasPrice, this.forks, changes := gasPrice, forks, 0;
      pending, queue, beats, clock, untracked := map[], map[], map[], 0, {};
      var lookup := new TxLookup();
      all := lookup;
      priced := new TxPricedList(lookup);
      pendingNonces := new TxNoncer(world);
    }

    /** Takes transactions in transit out of the lookup. */
    method Forget(txs: set<Tx>, ghost transit: set<Tx>)
      requires Core(transit) && txs <= transit
      modifies all
      ensures Core(transit - txs) && all.Known() == old(all.Known()) - Hashes(txs)
      ensures all.remotes.Keys <= old(all.remotes).Keys
    {
      hide Consistent, TxLookup.Valid, TxPricedList.Valid;
      var todo := txs;
      assert transit - (txs - todo) == transit && Hashes(txs - todo) == {};
      while todo != {}
        invariant todo <= txs && Core(transit - (txs - todo))
        invariant all.Known() == old(all.Known()) - Hashes(txs - todo)
        invariant all.remotes.Keys <= old(all.remotes).Keys
        decreases |todo|
      {
        var t :| t in todo;
        Forgotten(pending, queue, transit - (txs - todo), all.Known(), t);
        all.Remove(t.Hash());
        assert transit - (txs - todo) - {t} == transit - (txs - (todo - {t}));
        assert Hashes(txs - (todo - {t})) == Hashes(txs - todo) + {t.Hash()};
        todo := todo - {t};
      }
      assert txs - todo == txs;
    }

    /** Removes a transaction from the lookup and counts its heap entry as stale. */
    method DropKnown(hash: Hash)
      requires Served()
      modifies all, priced`stales, priced`urgent, priced`floating
      ensures Served() && all.Known() == old(all.Known()) - {hash} && all.remotes == old(all.remotes) - {hash}
      ensures all.slots == old(all.slots) - (if hash in old(all.Known()) then hash.preimage.Slots() else 0)
      ensures priced.Recounted(old(priced.Tally()), 1)
    {
      hide TxLookup.Valid, TxPricedList.Valid;
      all.Remove(hash);
      priced.Removed(1, untracked);
    }

    method CountStale(count: nat)
      requires Valid()
      modifies priced`stales, priced`urgent, priced`floating
      ensures Valid() && priced.Recounted(old(priced.Tally()), count)
    {
      hide TxLookup.Valid, TxPricedList.Valid, Consistent;
      priced.Removed(count, untracked);
    }

    /** The heartbeat of an account without queued transactions is not kept. */
    method ForgetBeat(addr: Address, list: TxListState)
      requires Valid() && Shows(queue, addr, list) && list.items == map[]
      modifies this`beats
      ensures Valid() && addr !in queue && beats == old(beats) - {addr}
    {
      hide Served, Consistent;
      EmptyNotStored(pending, queue, all.Known(), addr, list);
      beats := beats - {addr};
    }

    /** Adds a transaction to the lookup and, unless it is local, to the price heaps. */
    method Admit(tx: Tx, local: bool)
      requires Served() && tx.Hash() !in all.Known()
      modifies all, priced`stales, priced`urgent, priced`floating
      ensures Served() && all.Known() == old(all.Known()) + {tx.Hash()}
      ensures all.remotes == if local then old(all.remotes) else old(all.remotes)[tx.Hash() := tx]
      ensures all.slots == old(all.slots) + tx.Slots()
      ensures !local ==> priced.Prices() == Entered(old(priced.Prices()), tx) && priced.stales == old(priced.stales)
    {
      hide TxPricedList.Valid;
      all.Add(tx, local);
      priced.Put(tx, local);
    }

    /**
     Puts `tx` into the queue, in place of a queued one it outbids.  Only with
     `addAll` does the lookup learn of it.
     */
    method EnqueueTx(tx: Tx, local: bool, addAll: bool) returns (replaced: bool, ok: bool)
      requires Served() && (addAll ==> tx.Hash() !in all.Known())
      modifies this`queue, this`beats, all, priced`stales, priced`urgent, priced`floating
      ensures Served() && ok == ListOf(old(queue), tx.sender, false).Accepts(tx, config.priceBump)
      ensures !ok ==> queue == old(queue) && beats == old(beats) && all.Known() == old(all.Known())
      ensures !ok ==> all.remotes == old(all.remotes) && all.slots == old(all.slots)
      ensures ok ==> queue == Shelve(old(queue), tx, false) && replaced == Has(old(queue), tx.sender, tx.nonce)
      ensures ok ==> all.Known() == old(all.Known()) - Rivals(old(queue), tx) + (if addAll then {tx.Hash()} else {})
      ensures ok ==> beats == if tx.sender in old(beats) then old(beats) else old(beats)[tx.sender := clock]
      ensures !ok || (Rivals(old(queue), tx) == {} && !addAll) ==>
        priced.Tally() == old(priced.Tally()) && all.remotes == old(all.remotes)
      ensures ok && replaced && !addAll ==> priced.Recounted(old(priced.Tally()), 1)
      ensures all.slots <= old(all.slots) + (if addAll then tx.Slots() else 0)
      ensures ok ==>
        var kept := old(all.remotes).Keys - Rivals(old(queue), tx);
        all.remotes.Keys == if addAll && !local then kept + {tx.Hash()} else kept
      ensures ok && !replaced && addAll && !local ==>
        && priced.Prices() == Entered(old(priced.Prices()), tx) && priced.stales == old(priced.stales)
        && all.slots == old(all.slots) + tx.Slots()
    {
      hide Served, TxListState.Accepts, TxListState.Add, Counted, Entered;
      var list := ListOf(queue, tx.sender, false);
      ok := list.Accepts(tx, config.priceBump);
      if !ok {
        return false, false;
      }
      replaced := tx.nonce in list.items;
      queue := queue[tx.sender := list.Add(tx)];
      if replaced {
        DropKnown(list.items[tx.nonce].Hash());
      }
      if addAll {
        Admit(tx, local);
      }
      if tx.sender !in beats {
        beats := beats[tx.sender := clock];
      }
    }

    /** Puts `tx` into the pending list, in place of a pending one it outbids; outbid itself, it is forgotten. */
    method PromoteTx(tx: Tx) returns (inserted: bool)
      requires Served()
      modifies this`pending, this`beats, all, priced`stales, priced`urgent, priced`floating, pendingNonces
      ensures Served() && inserted == ListOf(old(pending), tx.sender, true).Accepts(tx, config.priceBump)
      ensures !inserted ==> pending == old(pending) && all.Known() == old(all.Known()) - {tx.Hash()}
      ensures inserted ==>
        pending == Shelve(old(pending), tx, true) && all.Known() == old(all.Known()) - Rivals(old(pending), tx)
      ensures pendingNonces.Peek(tx.sender) == if inserted then Succ(tx.nonce) else old(pendingNonces.Peek(tx.sender))
      ensures forall a :: a != tx.sender ==> pendingNonces.Peek(a) == old(pendingNonces.Peek(a))
      ensures beats == if inserted then old(beats)[tx.sender := clock] else old(beats)
      ensures all.remotes.Keys <= old(all.remotes).Keys
      ensures if inserted && Rivals(old(pending), tx) == {} then priced.Tally() == old(priced.Tally())
              else priced.Recounted(old(priced.Tally()), 1)
    {
      hide Served, TxListState.Accepts, TxListState.Add;
      var list := ListOf(pending, tx.sender, true);
      inserted := list.Accepts(tx, config.priceBump);
      if !inserted {
        DropKnown(tx.Hash());
        return;
      }
      var replaced := tx.nonce in list.items;
      pending := pending[tx.sender := list.Add(tx)];
      if replaced {
        DropKnown(list.items[tx.nonce].Hash());
      }
      pendingNonces.Set(tx.sender, Succ(tx.nonce));
      beats := beats[tx.sender := clock];
    }

    /** Puts a transaction in transit back into the queue. */
    method RequeueOne(t: Tx, ghost transit: set<Tx>)
      requires Core(transit) && t in transit
      modifies this`queue, this`beats, all, priced`stales, priced`urgent, priced`floating
      ensures Core(transit - {t}) && all.Known() == old(all.Known())
      ensures all.remotes == old(all.remotes) && queue - {t.sender} == old(queue) - {t.sender}
      ensures priced.Tally() == old(priced.Tally())
    {
      hide Served, Consistent, TxListState.Accepts, TxListState.Add, Shelve, Rivals;
      FreePlace(pending, queue, transit, all.Known(), t, config.priceBump);
      Enqueued(pending, queue, transit, all.Known(), t);
      ShelveElsewhere(queue, t, false);
      var replaced, ok := EnqueueTx(t, false, false);
      assert all.Known() == old(all.Known());
    }

    /** Puts transactions of one account, in transit, back into the queue, in some order. */
    method Requeue(addr: Address, txs: set<Tx>, ghost transit: set<Tx>)
      requires Core(transit) && txs <= transit && forall t :: t in txs ==> t.sender == addr
      modifies this`queue, this`beats, all, priced`stales, priced`urgent, priced`floating
      ensures Core(transit - txs) && all.Known() == old(all.Known())
      ensures all.remotes == old(all.remotes) && queue - {addr} == old(queue) - {addr}
      ensures priced.Tally() == old(priced.Tally())
    {
      hide Core;
      var todo := txs;
      assert transit - (txs - todo) == transit;
      while todo != {}
        invariant todo <= txs && Core(transit - (txs - todo))
        invariant all.Known() == old(all.Known())
        invariant all.remotes == old(all.remotes) && queue - {addr} == old(queue) - {addr}
        invariant priced.Tally() == old(priced.Tally())
        decreases |todo|
      {
        var t :| t in todo;
        ghost var now := transit - (txs - todo);
        RequeueOne(t, now);
        assert now - {t} == transit - (txs - (todo - {t}));
        todo := todo - {t};
      }
      assert txs - todo == txs;
    }

    /**
     Removes the transaction named by `hash`.  The lists are searched by account
     and nonce only; what they lose is nevertheless exactly that transaction,
     and the pending ones above it go back to the queue.
     */
    method RemoveTx(hash: Hash, outofbound: bool)
      requires Valid()
      modifies this`pending, this`queue, this`beats, all, priced`stales, priced`urgent, priced`floating, pendingNonces
      ensures Valid() && all.Known() == old(all.Known()) - {hash}
      ensures all.remotes.Keys <= old(all.remotes).Keys
      ensures hash !in old(all.Known()) ==>
        pending == old(pending) && queue == old(queue) && pendingNonces.nonces == old(pendingNonces.nonces)
      ensures hash in old(all.Known()) ==> var a, n := hash.preimage.sender, hash.preimage.nonce;
        && queue - {a} == old(queue) - {a}
        && if Has(old(pending), a, n) then pending == SetList(old(pending), a, old(pending)[a].Remove(n))
           else pending == old(pending) && a in old(queue) && queue == SetList(old(queue), a, old(queue)[a].Remove(n))
      ensures !Has(old(pending), hash.preimage.sender, hash.preimage.nonce) ==>
        forall a :: pendingNonces.Peek(a) == old(pendingNonces.Peek(a))
      ensures hash in old(all.Known()) && Has(old(pending), hash.preimage.sender, hash.preimage.nonce) ==>
        var a, n := hash.preimage.sender, hash.preimage.nonce;
        && pendingNonces.Peek(a) == Min(old(pendingNonces.Peek(a)), n)
        && forall b :: b != a ==> pendingNonces.Peek(b) == old(pendingNonces.Peek(b))
      ensures hash in old(all.Known()) && !Has(old(pending), hash.preimage.sender, hash.preimage.nonce) ==>
        && (outofbound && old(priced.Calm()) ==>
              priced.Prices() == Stranded(old(priced.Prices()), hash) && priced.stales == old(priced.stales) + 1)
        && (!outofbound ==>
              priced.Prices() == Stranded(old(priced.Prices()), hash) && priced.stales == old(priced.stales))
      ensures if hash in old(all.Known()) && outofbound then priced.Recounted(old(priced.Tally()), 1)
              else priced.Tally() == old(priced.Tally())
      ensures forall a :: old(ExactAt(a)) ==> ExactAt(a)
      ensures forall a :: old(SettlingAt(a)) ==> SettlingAt(a)
    {
      hide Consistent, Exact, Settling, SetList, TxListState.Remove, Counted, Stranded;
      var found := all.Get(hash);
      if found.None? {
        assert all.Known() == all.Known() - {hash};
        return;
      }
      var tx := found.value;
      FoundByNonce(pending, queue, all.Known(), hash);
      Unlist(hash, outofbound);
      if Has(pending, tx.sender, tx.nonce) {
        TakePending(tx);
        return;
      }
      if tx.sender in queue {
        TakeQueued(tx);
      }
    }

    /** The invariant, but for one stored transaction that the lookup has lost. */
    ghost predicate Lacking(hash: Hash)
      reads this`pending, this`queue, this`beats, this`locals, this`world, this`pendingNonces, this`untracked, all,
        priced, priced.all
    {
      && config.Sane() && Served() && pendingNonces.fallback == world && hash !in all.Known()
      && Consistent(pending, queue, {}, all.Known() + {hash})
      && queue.Keys <= beats.Keys
      && (forall h :: h in all.remotes ==> h.preimage.sender !in locals)
    }

    method Unlist(hash: Hash, outofbound: bool)
      requires Valid() && hash in all.Known()
      modifies all, priced`stales, priced`urgent, priced`floating
      ensures Lacking(hash) && all.Known() == old(all.Known()) - {hash} && all.remotes.Keys <= old(all.remotes).Keys
      ensures outofbound && old(priced.Calm()) ==>
        priced.Prices() == Stranded(old(priced.Prices()), hash) && priced.stales == old(priced.stales) + 1
      ensures !outofbound ==>
        priced.Prices() == Stranded(old(priced.Prices()), hash) && priced.stales == old(priced.stales)
      ensures if outofbound then priced.Recounted(old(priced.Tally()), 1) else priced.Tally() == old(priced.Tally())
    {
      hide Consistent, TxPricedList.Valid, RemoteTxs, TxPricedList.Single;
      all.Remove(hash);
      if outofbound {
        priced.Removed(1, untracked);
      }
      assert all.Known() + {hash} == old(all.Known());
    }

    method TakePending(tx: Tx)
      requires Lacking(tx.Hash()) && Holds(pending, tx)
      modifies this`pending, this`queue, this`beats, all, priced`stales, priced`urgent, priced`floating, pendingNonces
      ensures Valid() && all.Known() == old(all.Known()) && all.remotes == old(all.remotes)
      ensures priced.Tally() == old(priced.Tally())
      ensures pending == SetList(old(pending), tx.sender, old(pending)[tx.sender].Remove(tx.nonce))
      ensures queue - {tx.sender} == old(queue) - {tx.sender}
      ensures pendingNonces.Peek(tx.sender) == Min(old(pendingNonces.Peek(tx.sender)), tx.nonce)
      ensures forall a :: a != tx.sender ==> pendingNonces.Peek(a) == old(pendingNonces.Peek(a))
      ensures forall a :: old(ExactAt(a)) ==> ExactAt(a)
      ensures forall a :: old(SettlingAt(a)) ==> SettlingAt(a)
    {
      hide Served, Consistent, Taken, SetList, TxListState.Remove, Exact, Settling;
      var a, n := tx.sender, tx.nonce;
      var list := pending[a];
      var rest := list.Remove(n);
      RemovedFromPending(pending, queue, all.Known() + {tx.Hash()}, tx);
      assert all.Known() + {tx.Hash()} - {tx.Hash()} == all.Known();
      SetListRun(pending, a, rest);
      CutRun(list.items.Keys, world.Nonce(a), pendingNonces.Peek(a), n, rest.items.Keys);
      pending := SetList(pending, a, rest);
      ghost var above := Taken(list, rest) - {tx};
      Requeue(a, Taken(list, rest) - {tx}, above);
      assert above - above == {};
      pendingNonces.SetIfLower(a, n);
    }

    method TakeQueued(tx: Tx)
      requires Lacking(tx.Hash()) && Holds(queue, tx)
      modifies this`queue, this`beats
      ensures Valid()
      ensures queue == SetList(old(queue), tx.sender, old(queue)[tx.sender].Remove(tx.nonce))
      ensures queue - {tx.sender} == old(queue) - {tx.sender}
      ensures var rest := old(queue)[tx.sender].Remove(tx.nonce);
        beats == if rest.items == map[] then old(beats) - {tx.sender} else old(beats)
    {
      hide Served, Consistent, SetList, TxListState.Remove;
      RemovedFromQueue(pending, queue, all.Known() + {tx.Hash()}, tx);
      assert all.Known() + {tx.Hash()} - {tx.Hash()} == all.Known();
      var rest := queue[tx.sender].Remove(tx.nonce);
      queue := SetList(queue, tx.sender, rest);
      if rest.items == map[] {
        beats := beats - {tx.sender};
      }
    }

    /** Replaces a queued list by a thinner one and forgets what was taken out. */
    method DropQueued(addr: Address, list: TxListState, kept: TxListState)
      requires Valid() && Shows(queue, addr, list) && WellKept(list, addr, false) && Thinned(list, kept)
      modifies this`queue, all
      ensures Valid() && Shows(queue, addr, kept) && queue - {addr} == old(queue) - {addr}
      ensures all.Known() == old(all.Known()) - Hashes(Taken(list, kept))
      ensures all.remotes.Keys <= old(all.remotes).Keys
    {
      hide Served, Consistent, Thinned, Taken, WellKept;
      if addr in queue {
        TakenFromQueue(pending, queue, {}, all.Known(), addr, kept);
        assert {} + Taken(list, kept) == Taken(list, kept);
        queue := SetList(queue, addr, kept);
        ghost var taken := Taken(list, kept);
        Forget(Taken(list, kept), taken);
        assert taken - taken == {};
      } else {
        NothingTaken(list, kept);
        assert all.Known() - {} == all.Known();
      }
    }

    /** Promotes a transaction in transit; nothing pending is in its place. */
    method PromoteOne(t: Tx, ghost transit: set<Tx>)
      requires Core(transit) && t in transit
      modifies this`pending, this`beats, all, priced`stales, priced`urgent, priced`floating, pendingNonces
      ensures Core(transit - {t}) && all.Known() == old(all.Known()) && all.remotes.Keys <= old(all.remotes).Keys
      ensures pending == Shelve(old(pending), t, true) && beats == old(beats)[t.sender := clock]
      ensures priced.Tally() == old(priced.Tally())
      ensures pendingNonces.Peek(t.sender) == Succ(t.nonce)
      ensures forall a :: a != t.sender ==> pendingNonces.Peek(a) == old(pendingNonces.Peek(a))
    {
      hide Served, Consistent, TxListState.Accepts, TxListState.Add, Shelve, Rivals;
      FreePlace(pending, queue, transit, all.Known(), t, config.priceBump);
      Promoted(pending, queue, transit, all.Known(), t);
      var inserted := PromoteTx(t);
      assert all.Known() == old(all.Known());
    }

    /** Promotes the run from `first` to `end` of a queued list, all of it in transit, in nonce order. */
    method PromoteRun(addr: Address, list: TxListState, first: u64, end: int) returns (promoted: seq<Tx>)
      requires WellKept(list, addr, false) && Core(Stretch(list.items, first, end))
      requires first < end <= MAX_U64 + 1 && forall n: u64 :: first <= n < end ==> n in list.items
      modifies this`pending, this`beats, all, priced`stales, priced`urgent, priced`floating, pendingNonces
      ensures Valid() && all.Known() == old(all.Known()) && all.remotes.Keys <= old(all.remotes).Keys
      ensures |promoted| == end - first && forall i :: 0 <= i < |promoted| ==> promoted[i] == list.items[first + i]
      ensures ItemsOf(pending, addr) == old(ItemsOf(pending, addr)) + Between(list.items, first, end)
      ensures pending - {addr} == old(pending) - {addr} && beats == old(beats)[addr := clock]
      ensures priced.Tally() == old(priced.Tally())
      ensures pendingNonces.Peek(addr) == Succ(end - 1)
      ensures forall a :: a != addr ==> pendingNonces.Peek(a) == old(pendingNonces.Peek(a))
    {
      hide Core, Shelve, Stretch, Between, ItemsOf;
      promoted := [];
      var n: int := first;
      BetweenNone(ItemsOf(pending, addr), list.items, first);
      while n < end
        invariant first <= n <= end && Core(Stretch(list.items, n, end))
        invariant all.Known() == old(all.Known()) && all.remotes.Keys <= old(all.remotes).Keys
        invariant |promoted| == n - first && forall i :: 0 <= i < |promoted| ==> promoted[i] == list.items[first + i]
        invariant ItemsOf(pending, addr) == old(ItemsOf(pending, addr)) + Between(list.items, first, n)
        invariant pending - {addr} == old(pending) - {addr} && priced.Tally() == old(priced.Tally())
        invariant beats == if n > first then old(beats)[addr := clock] else old(beats)
        invariant n > first ==> pendingNonces.Peek(addr) == Succ(n - 1)
        invariant forall a :: a != addr ==> pendingNonces.Peek(a) == old(pendingNonces.Peek(a))
      {
        StretchStep(list.items, n, end);
        ShelveRun(pending, list.items[n], true);
        BetweenOne(old(ItemsOf(pending, addr)), list.items, first, n);
        PromoteOne(list.items[n], Stretch(list.items, n, end));
        promoted := promoted + [list.items[n]];
        n := n + 1;
      }
      StretchEmpty(list.items, end);
    }

    /**
     Moves the queued run that starts at or below the virtual nonce to the
     pending list.  An exact account stays exact if and only if the last 64-bit
     nonce is not promoted, and no queued transaction is next in line any more.
     */
    method PromoteReady(addr: Address, list: TxListState) returns (rest: TxListState, promoted: seq<Tx>)
      requires Valid() && Shows(queue, addr, list) && WellKept(list, addr, false)
      requires Above(list.items, world.Nonce(addr) - 1)
      modifies this`pending, this`queue, this`beats, all, priced`stales, priced`urgent, priced`floating, pendingNonces
      ensures Valid() && all.Known() == old(all.Known()) && all.remotes.Keys <= old(all.remotes).Keys
      ensures rest == list.Ready(old(pendingNonces.Peek(addr))) && WellKept(rest, addr, false)
      ensures Within(rest.items, list.items)
      ensures Shows(queue, addr, rest) && queue - {addr} == old(queue) - {addr}
      ensures ItemsOf(pending, addr) == old(ItemsOf(pending, addr)) + DueFrom(list, old(pendingNonces.Peek(addr)))
      ensures pending - {addr} == old(pending) - {addr}
      ensures old(ExactAt(addr)) ==> (ExactAt(addr) <==> MAX_U64 !in DueFrom(list, old(pendingNonces.Peek(addr))))
      ensures old(SettlingAt(addr)) ==> SettlingAt(addr)
      ensures Above(rest.items, pendingNonces.Peek(addr))
      ensures promoted == Flat(DueFrom(list, old(pendingNonces.Peek(addr))))
      ensures priced.Tally() == old(priced.Tally())
      ensures beats == Woken(old(beats), addr, DueFrom(list, old(pendingNonces.Peek(addr))), clock)
      ensures forall a :: a != addr ==> pendingNonces.Peek(a) == old(pendingNonces.Peek(a))
    {
      hide Core, Thinned, Taken, Stretch, Exact, Settling, WellKept, TxListState.Ready, TxListState.ReadyEnd, Shows,
        Between, DueFrom, Woken, TxPricedList.Tally, Within, Keyed, TxLookup.Known, ItemsOf, Flat;
      var p := pendingNonces.Get(addr);
      rest := list.Ready(p);
      promoted := [];
      FlatNothing();
      var end := list.ReadyEnd(p);
      ReadySplits(list, addr, p);
      WokenIs(beats, addr, DueFrom(list, p), clock);
      if end != 0 {
        promoted := MoveRun(addr, list, rest, MinNonce(list.items), end, p);
      }
    }

    /** Moves the run from `first` to `end` of a queued list to the pending list. */
    method MoveRun(addr: Address, list: TxListState, rest: TxListState, first: u64, end: int, ghost p: u64)
      returns (promoted: seq<Tx>)
      requires Valid() && Shows(queue, addr, list) && WellKept(list, addr, false)
      requires Splits(list, rest, first, end) && world.Nonce(addr) <= first <= p == pendingNonces.Peek(addr)
      modifies this`pending, this`queue, this`beats, all, priced`stales, priced`urgent, priced`floating, pendingNonces
      ensures Valid() && all.Known() == old(all.Known()) && all.remotes.Keys <= old(all.remotes).Keys
      ensures Shows(queue, addr, rest) && queue - {addr} == old(queue) - {addr}
      ensures end <= MAX_U64 + 1
      ensures ItemsOf(pending, addr) == old(ItemsOf(pending, addr)) + Between(list.items, first, end)
      ensures pending - {addr} == old(pending) - {addr} && beats == old(beats)[addr := clock]
      ensures old(ExactAt(addr)) ==> (ExactAt(addr) <==> end <= MAX_U64)
      ensures old(SettlingAt(addr)) ==> SettlingAt(addr)
      ensures promoted == Flat(Between(list.items, first, end)) && priced.Tally() == old(priced.Tally())
      ensures pendingNonces.Peek(addr) == Succ(end - 1)
      ensures forall a :: a != addr ==> pendingNonces.Peek(a) == old(pendingNonces.Peek(a))
    {
      hide Core, Thinned, Taken, Stretch, Exact, Settling, WellKept, Shows, Between, Keyed, TxPricedList.Tally;
      ghost var before := pending;
      LiftQueued(addr, list, rest);
      promoted := PromoteRun(addr, list, first, end);
      RunPromoted(before, pending, addr, list, world.Nonce(addr), p, first, end);
      RunIsFlat(list.items, promoted, first, end);
    }

    /** Takes queued transactions into transit. */
    method LiftQueued(addr: Address, list: TxListState, rest: TxListState)
      requires Valid() && Shows(queue, addr, list) && list.items != map[] && Thinned(list, rest)
      modifies this`queue
      ensures Core(Taken(list, rest)) && Shows(queue, addr, rest) && queue - {addr} == old(queue) - {addr}
      ensures forall n :: n in list.items ==> n !in Run(pending, addr)
    {
      hide Served, Consistent, Thinned, Taken, SetList, Shows;
      ShownIsStored(queue, addr, list, rest);
      TakenFromQueue(pending, queue, {}, all.Known(), addr, rest);
      assert {} + Taken(list, rest) == Taken(list, rest);
      QueuedNotPending(pending, queue, all.Known(), addr);
      queue := SetList(queue, addr, rest);
    }

    /** Drops the queued transactions of an account that are too old or too costly. */
    method CleanQueued(addr: Address) returns (paid: TxListState, dropped: nat)
      requires Valid() && addr in queue
      modifies this`queue, all
      ensures Valid() && Shows(queue, addr, paid) && WellKept(paid, addr, false)
      ensures queue - {addr} == old(queue) - {addr}
      ensures Runnable(paid.items, world.Nonce(addr), world.Balance(addr), maxGas)
      ensures paid == Cleaned(old(queue)[addr], addr) && dropped == |old(queue)[addr].items| - |paid.items|
      ensures var recent := FromNonce(old(queue)[addr].items, world.Nonce(addr));
        paid.items == Without(recent, Unaffordable(world.Balance(addr), maxGas))
      ensures all.Known() <= old(all.Known()) && all.remotes.Keys <= old(all.remotes).Keys
      ensures forall h :: h in old(all.Known()) && h !in all.Known() ==> Doomed(h.preimage)
    {
      hide Served, Consistent, Thinned, Taken, WellKept, TxListState.Forward, TxListState.Filter, Doomed;
      var list := queue[addr];
      StockedAt(pending, queue, {}, all.Known(), addr);
      var kept := list.Forward(world.Nonce(addr));
      paid := kept.Filter(world.Balance(addr), maxGas);
      CleaningThins(list, addr, world.Nonce(addr), world.Balance(addr), maxGas);
      CleanedAreDoomed(this, list, addr);
      DropQueued(addr, list, kept);
      DropQueued(addr, kept, paid);
      dropped := |list.items| - |paid.items|;
    }

    /** Promotes what has become executable for one account, and drops what is invalid or beyond its limit. */
    method PromoteAccount(addr: Address) returns (promoted: seq<Tx>)
      requires Valid()
      modifies this`pending, this`queue, this`beats, all, priced`stales, priced`urgent, priced`floating, pendingNonces
      ensures Valid() && all.Known() <= old(all.Known()) && all.remotes.Keys <= old(all.remotes).Keys
      ensures ItemsOf(pending, addr) == old(ItemsOf(pending, addr)) + old(DueAt(addr))
      ensures promoted == Flat(old(DueAt(addr)))
      ensures old(ExactAt(addr)) ==> (ExactAt(addr) <==> MAX_U64 !in old(DueAt(addr)))
      ensures old(SettlingAt(addr)) ==> SettlingAt(addr)
      ensures Tidy(addr) && IdleAt(addr) && ItemsOf(queue, addr) == old(RestAt(addr))
      ensures addr in old(queue) ==>
        Lost(old(priced.Tally()), old(beats), |old(queue)[addr].items|, old(DueAt(addr)), ItemsOf(queue, addr), addr)
      ensures forall a :: a != addr ==> At(a) == old(At(a))
      ensures forall h :: h in old(all.Known()) && h !in all.Known() ==>
        Doomed(h.preimage) || CrowdedOut(h.preimage, addr)
    {
      hide Core, ExactAt, SettlingAt, Tidy, IdleAt, Doomed, CrowdedOut, DueFrom, Cleaned, Flat, ItemsOf, Limited, At;
      FlatNothing();
      promoted := [];
      if addr in queue {
        promoted := PromoteListed(addr);
      } else {
        NoQueueIsTidy(this, addr);
      }
    }

    /** The same for an account with a queue. */
    method PromoteListed(addr: Address) returns (promoted: seq<Tx>)
      requires Valid() && addr in queue
      modifies this`pending, this`queue, this`beats, all, priced`stales, priced`urgent, priced`floating, pendingNonces
      ensures Valid() && all.Known() <= old(all.Known()) && all.remotes.Keys <= old(all.remotes).Keys
      ensures ItemsOf(pending, addr) == old(ItemsOf(pending, addr)) + old(DueAt(addr))
      ensures promoted == Flat(old(DueAt(addr)))
      ensures old(ExactAt(addr)) ==> (ExactAt(addr) <==> MAX_U64 !in old(DueAt(addr)))
      ensures old(SettlingAt(addr)) ==> SettlingAt(addr)
      ensures Tidy(addr) && IdleAt(addr) && ItemsOf(queue, addr) == old(RestAt(addr))
      ensures Lost(old(priced.Tally()), old(beats), |old(queue)[addr].items|, old(DueAt(addr)), ItemsOf(queue, addr),
                   addr)
      ensures forall a :: a != addr ==> At(a) == old(At(a))
      ensures forall h :: h in old(all.Known()) && h !in all.Known() ==>
        Doomed(h.preimage) || CrowdedOut(h.preimage, addr)
    {
      hide Core, ExactAt, SettlingAt, Tidy, IdleAt, DueAt, RestAt, Doomed, CrowdedOut, Flat, ItemsOf, At, StandsAt,
        Slot, TxNoncer.Peek, Lost;
      ghost var shelf, waiting := pending, queue;
      StandsByLists(this);
      promoted := PromoteQueued(addr);
      SameSlots(shelf, pending, addr);
      SameSlots(waiting, queue, addr);
      StandsByLists(this);
    }

    method PromoteQueued(addr: Address) returns (promoted: seq<Tx>)
      requires Valid() && addr in queue
      modifies this`pending, this`queue, this`beats, all, priced`stales, priced`urgent, priced`floating, pendingNonces
      ensures Valid() && all.Known() <= old(all.Known()) && all.remotes.Keys <= old(all.remotes).Keys
      ensures queue - {addr} == old(queue) - {addr} && pending - {addr} == old(pending) - {addr}
      ensures ItemsOf(pending, addr) == old(ItemsOf(pending, addr)) + old(DueAt(addr))
      ensures promoted == Flat(old(DueAt(addr)))
      ensures old(ExactAt(addr)) ==> (ExactAt(addr) <==> MAX_U64 !in old(DueAt(addr)))
      ensures old(SettlingAt(addr)) ==> SettlingAt(addr)
      ensures Tidy(addr) && IdleAt(addr) && ItemsOf(queue, addr) == old(RestAt(addr))
      ensures Lost(old(priced.Tally()), old(beats), |old(queue)[addr].items|, old(DueAt(addr)), ItemsOf(queue, addr),
                   addr)
      ensures forall a :: a != addr ==> pendingNonces.Peek(a) == old(pendingNonces.Peek(a))
      ensures forall h :: h in old(all.Known()) && h !in all.Known() ==>
        Doomed(h.preimage) || CrowdedOut(h.preimage, addr)
    {
      hide DueFrom, Cleaned, Core, ExactAt, SettlingAt, WellKept, Runnable, Tidy, IdleAt, Without, FromNonce, Doomed,
        CrowdedOut, Flat, ItemsOf, Shows, TxNoncer.Peek, Limited, TxPricedList.Recounted, Woken, Faded, Missing,
        Unplaced, TxLookup.Known, TxListState.Ready;
      ghost var due, rest := DueAt(addr), RestAt(addr);
      var list, dropped := CleanQueued(addr);
      assert due == DueFrom(list, pendingNonces.Peek(addr));
      assert rest == Limited(list.Ready(pendingNonces.Peek(addr)), addr);
      UnplacedAreMissing(|old(queue)[addr].items|, list, pendingNonces.Peek(addr));
      promoted := PromoteCleaned(addr, list, dropped);
    }

    /** The same with only executable transactions left in the queue. */
    method PromoteCleaned(addr: Address, list: TxListState, dropped: nat) returns (promoted: seq<Tx>)
      requires Valid() && Shows(queue, addr, list) && WellKept(list, addr, false)
      requires Runnable(list.items, world.Nonce(addr), world.Balance(addr), maxGas)
      modifies this`pending, this`queue, this`beats, all, priced`stales, priced`urgent, priced`floating, pendingNonces
      ensures Valid() && all.Known() <= old(all.Known()) && all.remotes.Keys <= old(all.remotes).Keys
      ensures queue - {addr} == old(queue) - {addr} && pending - {addr} == old(pending) - {addr}
      ensures var due := DueFrom(list, old(pendingNonces.Peek(addr)));
        && ItemsOf(pending, addr) == old(ItemsOf(pending, addr)) + due && promoted == Flat(due)
        && (old(ExactAt(addr)) ==> (ExactAt(addr) <==> MAX_U64 !in due))
      ensures old(SettlingAt(addr)) ==> SettlingAt(addr)
      ensures Tidy(addr) && IdleAt(addr)
      ensures ItemsOf(queue, addr) == Limited(list.Ready(old(pendingNonces.Peek(addr))), addr)
      ensures var rest := list.Ready(old(pendingNonces.Peek(addr)));
        priced.Recounted(old(priced.Tally()), Missing(dropped, rest.items, ItemsOf(queue, addr)))
      ensures var woken := Woken(old(beats), addr, DueFrom(list, old(pendingNonces.Peek(addr))), clock);
        beats == Faded(woken, addr, ItemsOf(queue, addr))
      ensures forall a :: a != addr ==> pendingNonces.Peek(a) == old(pendingNonces.Peek(a))
      ensures forall h :: h in old(all.Known()) && h !in all.Known() ==> CrowdedOut(h.preimage, addr)
    {
      hide DueFrom, Core, ExactAt, SettlingAt, WellKept, TxListState.Ready, Runnable, Tidy, IdleAt, CrowdedOut, Flat,
        ItemsOf, Shows, Limited, TxNoncer.Peek, TxLookup.Known, TxPricedList.Recounted, TxPricedList.Tally, Woken,
        Faded, Within, Above, Missing;
      RunnableNonces(list.items, world.Nonce(addr), world.Balance(addr), maxGas);
      var rest;
      ghost var p, was, tally, pulses := pendingNonces.Peek(addr), ItemsOf(pending, addr), priced.Tally(), beats;
      rest, promoted := PromoteReady(addr, list);
      assert rest == list.Ready(p);
      assert ItemsOf(pending, addr) == was + DueFrom(list, p) && promoted == Flat(DueFrom(list, p));
      assert priced.Tally() == tally && beats == Woken(pulses, addr, DueFrom(list, p), clock);
      CapQueued(addr, list, rest, dropped);
    }

    /** Cuts what is left of a queue to the limit of a remote account. */
    method CapQueued(addr: Address, list: TxListState, rest: TxListState, dropped: nat)
      requires Valid() && Shows(queue, addr, rest) && WellKept(rest, addr, false)
      requires Runnable(list.items, world.Nonce(addr), world.Balance(addr), maxGas)
      requires Within(rest.items, list.items)
      requires Above(rest.items, pendingNonces.Peek(addr))
      modifies this`queue, this`beats, all, priced`stales, priced`urgent, priced`floating
      ensures Valid() && queue - {addr} == old(queue) - {addr} && Tidy(addr) && IdleAt(addr)
      ensures ItemsOf(queue, addr) == Limited(rest, addr)
      ensures priced.Recounted(old(priced.Tally()), Missing(dropped, rest.items, ItemsOf(queue, addr)))
      ensures beats == Faded(old(beats), addr, ItemsOf(queue, addr))
      ensures all.Known() <= old(all.Known()) && all.remotes.Keys <= old(all.remotes).Keys
      ensures forall h :: h in old(all.Known()) && h !in all.Known() ==> CrowdedOut(h.preimage, addr)
    {
      hide Core, Thinned, Taken, WellKept, TxListState.Cap, Runnable, Tidy, CrowdedOut, TxPricedList.Recounted,
        Missing;
      RestThins(list, rest, addr, config.accountQueue, world.Nonce(addr), world.Balance(addr), maxGas);
      FinishPromotion(addr, rest, dropped);
      CappedAreCrowded(this, rest, addr);
      CappedIsLess(rest, config.accountQueue);
      RestIsIdle(this, addr, rest);
    }

    /** The part of a list that the state lets run: neither stale nor unaffordable. */
    function Cleaned(list: TxListState, a: Address): TxListState
      reads this`world, this`maxGas
    {
      list.Forward(world.Nonce(a)).Filter(world.Balance(a), maxGas)
    }

    /** What promotion takes from a queue when the virtual nonce is `p`. */
    function Due(waiting: Shelf, a: Address, p: u64): Items
      reads this`world, this`maxGas
    {
      if a in waiting then DueFrom(Cleaned(waiting[a], a), p) else map[]
    }

    /**
     Of `size` queued transactions neither due nor left, the entries are counted
     stale.  Promotion is a heartbeat, and an empty queue has none.
     */
    ghost predicate Lost(was: Tally, before: map<Address, nat>, size: nat, due: Items, rest: Items, a: Address)
      reads this`beats, this`clock, priced, priced.all
    {
      && priced.Recounted(was, Unplaced(size, due, rest))
      && beats == Faded(Woken(before, a, due, clock), a, rest)
    }

    /** What the limit of a remote account leaves of a queue. */
    function Limited(rest: TxListState, a: Address): Items
      reads this`locals
    {
      if a in locals then rest.items else rest.Cap(config.accountQueue).items
    }

    /** What promotion leaves in a queue when the virtual nonce is `p`. */
    function RestOf(waiting: Shelf, a: Address, p: u64): Items
      reads this`world, this`maxGas, this`locals
    {
      if a in waiting then Limited(Cleaned(waiting[a], a).Ready(p), a) else map[]
    }

    ghost function RestAt(a: Address): Items
      reads this`queue, this`world, this`maxGas, this`locals, this`pendingNonces, pendingNonces
    {
      RestOf(queue, a, pendingNonces.Peek(a))
    }

    ghost predicate AbleAt(m: Items, n: u64, a: Address)
      reads this`world, this`maxGas
    {
      Able(m, n, world.Nonce(a), world.Balance(a), maxGas)
    }

    /** The least able nonce, with all nonces able from it to `n`. */
    ghost predicate LeadsTo(m: Items, first: u64, n: u64, a: Address)
      reads this`world, this`maxGas
    {
      && first <= n && (forall k: u64 :: k < first ==> !AbleAt(m, k, a))
      && (forall k: u64 :: first <= k <= n ==> AbleAt(m, k, a))
    }

    /** The nonces of a queue that are able and not due. */
    ghost function Later(waiting: Shelf, a: Address, p: u64): set<u64>
      requires a in waiting
      reads this`world, this`maxGas
    {
      set n | n in waiting[a].items && AbleAt(waiting[a].items, n, a) && n !in Due(waiting, a, p)
    }

    ghost function DueOf(accounts: seq<Address>): map<Address, Items>
      reads this`queue, this`world, this`maxGas, this`pendingNonces, pendingNonces
    {
      map a | a in accounts :: DueAt(a)
    }

    ghost function DueAt(a: Address): Items
      reads this`queue, this`world, this`maxGas, this`pendingNonces, pendingNonces
    {
      Due(queue, a, pendingNonces.Peek(a))
    }

    /** Beyond the limit of a remote account, whose queue is full of lower nonces. */
    ghost predicate CrowdedOut(tx: Tx, addr: Address)
      reads this`queue, this`locals
    {
      && tx.sender == addr && addr !in locals && Size(queue, addr) == config.accountQueue
      && forall n :: n in Run(queue, addr) ==> n < tx.nonce
    }

    /** Caps a remote account's queue, counts what was dropped, and forgets the heartbeat of an empty one. */
    method FinishPromotion(addr: Address, rest: TxListState, dropped0: nat)
      requires Valid() && Shows(queue, addr, rest) && WellKept(rest, addr, false)
      requires Thinned(rest, rest.Cap(config.accountQueue))
      requires WellKept(rest.Cap(config.accountQueue), addr, false)
      requires |rest.Cap(config.accountQueue).items| <= |rest.items|
      requires |rest.Cap(config.accountQueue).items| <= config.accountQueue
      requires Runnable(rest.items, world.Nonce(addr), world.Balance(addr), maxGas)
      requires Runnable(rest.Cap(config.accountQueue).items, world.Nonce(addr), world.Balance(addr), maxGas)
      modifies this`queue, this`beats, all, priced`stales, priced`urgent, priced`floating
      ensures Valid() && queue - {addr} == old(queue) - {addr}
      ensures Tidy(addr) && Shows(queue, addr, if addr in locals then rest else rest.Cap(config.accountQueue))
      ensures all.Known() <= old(all.Known()) && all.remotes.Keys <= old(all.remotes).Keys
      ensures forall h :: h in old(all.Known()) && h !in all.Known() ==>
        addr !in locals && h.preimage in Taken(rest, rest.Cap(config.accountQueue))
      ensures priced.Recounted(old(priced.Tally()), Missing(dropped0, rest.items, Limited(rest, addr)))
      ensures beats == Faded(old(beats), addr, Limited(rest, addr))
    {
      hide Core, Thinned, Taken, WellKept, TxListState.Cap, Runnable, TxPricedList.Recounted, Shows, Missing, Tidy,
        Limited, Faded, TxLookup.Known;
      FadedIs(beats, addr, Limited(rest, addr));
      var list, dropped := LimitQueue(addr, rest, dropped0);
      CountStale(dropped);
      if list.items == map[] {
        ForgetBeat(addr, list);
      }
    }

    method LimitQueue(addr: Address, rest: TxListState, dropped0: nat) returns (list: TxListState, dropped: nat)
      requires Valid() && Shows(queue, addr, rest) && WellKept(rest, addr, false)
      requires Thinned(rest, rest.Cap(config.accountQueue))
      requires |rest.Cap(config.accountQueue).items| <= |rest.items|
      requires |rest.Cap(config.accountQueue).items| <= config.accountQueue
      requires Runnable(rest.items, world.Nonce(addr), world.Balance(addr), maxGas)
      requires Runnable(rest.Cap(config.accountQueue).items, world.Nonce(addr), world.Balance(addr), maxGas)
      modifies this`queue, all
      ensures Valid() && queue - {addr} == old(queue) - {addr} && Shows(queue, addr, list) && Tidy(addr)
      ensures list == if addr in locals then rest else rest.Cap(config.accountQueue)
      ensures list.items == Limited(rest, addr)
      ensures dropped == Missing(dropped0, rest.items, list.items)
      ensures all.Known() <= old(all.Known()) && all.remotes.Keys <= old(all.remotes).Keys
      ensures forall h :: h in old(all.Known()) && h !in all.Known() ==>
        addr !in locals && h.preimage in Taken(rest, rest.Cap(config.accountQueue))
    {
      hide Core, Thinned, Taken, WellKept, TxListState.Cap, Runnable;
      list, dropped := rest, dropped0;
      if addr !in locals {
        list := rest.Cap(config.accountQueue);
        dropped := dropped + (|rest.items| - |list.items|);
        DropQueued(addr, rest, list);
      }
    }

    /** What is queued for `a` can run once its turn comes, and is within the limit unless `a` is local. */
    ghost predicate Tidy(a: Address)
      reads this`queue, this`world, this`locals, this`maxGas
    {
      a in queue ==>
        && Runnable(queue[a].items, world.Nonce(a), world.Balance(a), maxGas)
        && (a !in locals ==> |queue[a].items| <= config.accountQueue)
    }

    /** No queued transaction of `a` is next in line. */
    ghost predicate IdleAt(a: Address)
      reads this`queue, this`pendingNonces, pendingNonces
    {
      forall n :: n in Run(queue, a) ==> n > pendingNonces.Peek(a)
    }

    /**
     Promotes the executable transactions of the given accounts.  An exact
     account stays exact if and only if its last 64-bit nonce is not promoted.
     */
    method PromoteExecutables(accounts: seq<Address>) returns (promoted: seq<Tx>)
      requires Valid()
      modifies this`pending, this`queue, this`beats, all, priced`stales, priced`urgent, priced`floating, pendingNonces
      ensures Valid() && all.Known() <= old(all.Known()) && all.remotes.Keys <= old(all.remotes).Keys
      ensures forall a ::
        ItemsOf(pending, a) == old(ItemsOf(pending, a)) + if a in accounts then old(DueAt(a)) else map[]
      ensures forall a :: ItemsOf(queue, a) == if a in accounts then old(RestAt(a)) else old(ItemsOf(queue, a))
      ensures promoted == DueList(accounts, old(DueOf(accounts)))
      ensures forall a :: old(ExactAt(a)) ==> (ExactAt(a) <==> !(a in accounts && MAX_U64 in old(DueAt(a))))
      ensures forall a :: old(SettlingAt(a)) ==> SettlingAt(a)
      ensures forall a :: a in accounts ==> Tidy(a) && IdleAt(a)
      ensures forall h :: h in old(all.Known()) && h !in all.Known() ==>
        Doomed(h.preimage) || h.preimage.sender !in locals
    {
      hide Core, ExactAt, SettlingAt, Tidy, IdleAt, DueAt, RestAt, Doomed, ItemsOf, Flat, DueList;
      promoted := PromoteEach(accounts);
      AllMembers(accounts);
      forall a
        ensures ItemsOf(pending, a) == old(ItemsOf(pending, a)) + if a in accounts then old(DueAt(a)) else map[]
        ensures ItemsOf(queue, a) == if a in accounts then old(RestAt(a)) else old(ItemsOf(queue, a))
        ensures old(ExactAt(a)) ==> (ExactAt(a) <==> !(a in accounts && MAX_U64 in old(DueAt(a))))
        ensures (old(SettlingAt(a)) ==> SettlingAt(a)) && (a in accounts ==> Tidy(a) && IdleAt(a))
      {
        ghost var before, after := old(At(a)), At(a);
        assert if a in accounts then Follows(before, after) else after == before;
      }
    }

    /** How an account stands between promotions. */
    ghost function At(a: Address): Standing
      reads this`pending, this`queue, this`world, this`locals, this`maxGas, this`pendingNonces, pendingNonces
    {
      Standing(ItemsOf(pending, a), ItemsOf(queue, a), DueAt(a), RestAt(a), ExactAt(a), SettlingAt(a), Tidy(a),
               IdleAt(a))
    }

    /** The same of an account's lists and its virtual nonce. */
    ghost function StandsAt(a: Address, pending: Option<TxListState>, queue: Option<TxListState>, p: u64): Standing
      reads this`world, this`locals, this`maxGas
    {
      var items := if pending.Some? then pending.value.items else map[];
      var waiting := if queue.Some? then queue.value.items else map[];
      var clean := if queue.Some? then Cleaned(queue.value, a) else EmptyList(false);
      var low := world.Nonce(a);
      Standing(items, waiting, if queue.Some? then DueFrom(clean, p) else map[],
               if queue.Some? then Limited(clean.Ready(p), a) else map[], Exact(items.Keys, low, p),
               Settling(items.Keys, low, p),
               queue.Some? ==>
                 && Runnable(waiting, low, world.Balance(a), maxGas)
                 && (a !in locals ==> |waiting| <= config.accountQueue),
               forall n :: n in waiting.Keys ==> n > p)
    }

    /** The same for each account in turn. */
    method PromoteEach(accounts: seq<Address>) returns (promoted: seq<Tx>)
      requires Valid()
      modifies this`pending, this`queue, this`beats, all, priced`stales, priced`urgent, priced`floating, pendingNonces
      ensures Valid() && all.Known() <= old(all.Known()) && all.remotes.Keys <= old(all.remotes).Keys
      ensures forall a :: if a in Members(accounts) then Follows(old(At(a)), At(a)) else At(a) == old(At(a))
      ensures promoted == DueList(accounts, old(DueOf(accounts)))
      ensures forall h :: h in old(all.Known()) && h !in all.Known() ==>
        Doomed(h.preimage) || h.preimage.sender !in locals
    {
      hide Core, At, Follows, DueOf, Doomed, Flat, DueList, Members, TxLookup.Known;
      promoted := [];
      ghost var due, done := DueOf(accounts), {};
      NoneListed(accounts, due);
      DueOfEach(this, accounts);
      for i := 0 to |accounts|
        invariant Valid() && all.Known() <= old(all.Known()) && all.remotes.Keys <= old(all.remotes).Keys
        invariant done == Members(accounts[..i]) && promoted == DueList(accounts[..i], due)
        invariant forall a :: if a in done then Follows(old(At(a)), At(a)) else At(a) == old(At(a))
        invariant forall h :: h in old(all.Known()) && h !in all.Known() ==>
          Doomed(h.preimage) || h.preimage.sender !in locals
      {
        var addr := accounts[i];
        ghost var before := At(addr);
        DueListNext(accounts, due, i);
        var more := PromoteNext(addr);
        FollowsTwice(old(At(addr)), before, At(addr));
        promoted, done := promoted + more, done + {addr};
      }
      AllMembers(accounts);
    }

    method PromoteNext(addr: Address) returns (promoted: seq<Tx>)
      requires Valid()
      modifies this`pending, this`queue, this`beats, all, priced`stales, priced`urgent, priced`floating, pendingNonces
      ensures Valid() && all.Known() <= old(all.Known()) && all.remotes.Keys <= old(all.remotes).Keys
      ensures Follows(old(At(addr)), At(addr)) && promoted == Flat(old(At(addr)).due)
      ensures forall a :: a != addr ==> At(a) == old(At(a))
      ensures forall h :: h in old(all.Known()) && h !in all.Known() ==>
        Doomed(h.preimage) || h.preimage.sender !in locals
    {
      hide Core, ExactAt, SettlingAt, Tidy, IdleAt, DueAt, RestAt, Doomed, ItemsOf, Flat;
      promoted := PromoteAccount(addr);
      NothingDueAgain(this, addr);
      RestStays(this, addr);
      LastLosesExactness(this, addr);
    }

    /** Thins a pending list: forgets some of what was taken out and puts the rest back into the queue. */
    method DropPending(addr: Address, list: TxListState, kept: TxListState, drops: set<Tx>)
      requires Valid() && Shows(pending, addr, list) && WellKept(list, addr, true) && Thinned(list, kept)
      requires drops <= Taken(list, kept)
      modifies this`pending, this`queue, this`beats, all, priced`stales, priced`urgent, priced`floating
      ensures Valid() && Shows(pending, addr, kept) && pending - {addr} == old(pending) - {addr}
      ensures all.Known() == old(all.Known()) - Hashes(drops) && all.remotes.Keys <= old(all.remotes).Keys
      ensures priced.Tally() == old(priced.Tally())
    {
      hide Core, Thinned, Taken, WellKept, Shows;
      ghost var taken := LiftPending(addr, list, kept);
      Forget(drops, taken);
      assert taken - drops == Taken(list, kept) - drops;
      Requeue(addr, Taken(list, kept) - drops, taken - drops);
      assert (taken - drops) - (Taken(list, kept) - drops) == {};
    }

    /** Takes pending transactions into transit. */
    method LiftPending(addr: Address, list: TxListState, rest: TxListState) returns (ghost taken: set<Tx>)
      requires Valid() && Shows(pending, addr, list) && WellKept(list, addr, true) && Thinned(list, rest)
      modifies this`pending
      ensures taken == Taken(list, rest) && Core(taken) && forall t :: t in taken ==> t.sender == addr
      ensures Shows(pending, addr, rest) && pending - {addr} == old(pending) - {addr}
    {
      hide Served, Consistent, Thinned, SetList;
      taken := Taken(list, rest);
      if addr in pending {
        StockedAt(pending, queue, {}, all.Known(), addr);
        ShownIsStored(pending, addr, list, rest);
        TakenFromPending(pending, queue, {}, all.Known(), addr, rest);
        assert {} + Taken(list, rest) == Taken(list, rest);
        pending := SetList(pending, addr, rest);
      } else {
        NothingTaken(list, rest);
      }
    }

    /**
     Drops the pending transactions of an account that are too old or too
     costly and puts back into the queue those that this leaves unexecutable.
     */
    method DemoteAccount(addr: Address)
      requires Valid() && addr in pending
      modifies this`pending, this`queue, this`beats, all, priced`stales, priced`urgent, priced`floating
      ensures Valid() && all.Known() <= old(all.Known()) && all.remotes.Keys <= old(all.remotes).Keys
      ensures pending - {addr} == old(pending) - {addr} && priced.Tally() == old(priced.Tally())
      ensures ItemsOf(pending, addr) == KeptAt(old(ItemsOf(pending, addr)), addr)
      ensures forall h :: h in all.Known() <==>
        h in old(all.Known()) && !(h.preimage.sender == addr && Hopeless(old(pending), h.preimage))
    {
      hide Core, Thinned, Taken, WellKept, TxListState.Forward, TxListState.Filter, TxListState.Cap, Hopeless, Selected,
        KeptAt;
      var list := pending[addr];
      PendingKept(this, addr);
      var kept := list.Forward(world.Nonce(addr));
      var paid := kept.Filter(world.Balance(addr), maxGas);
      DemotingThins(list, addr, world.Nonce(addr), world.Balance(addr), maxGas);
      DemotedAreDoomed(this, addr);
      DropPending(addr, list, kept, Taken(list, kept));
      DropPending(addr, kept, paid, Txs(Selected(kept.items, Unaffordable(world.Balance(addr), maxGas))));
      DropGapped(addr, paid);
      PaidIsKept(this, list, addr);
    }

    /** Puts a whole list back into the queue if the state nonce is missing from it. */
    method DropGapped(addr: Address, paid: TxListState)
      requires Valid() && Shows(pending, addr, paid) && WellKept(paid, addr, true)
      requires Thinned(paid, paid.Cap(0)) && paid.Cap(0).items == map[]
      modifies this`pending, this`queue, this`beats, all, priced`stales, priced`urgent, priced`floating
      ensures Valid() && all.Known() == old(all.Known()) && all.remotes.Keys <= old(all.remotes).Keys
      ensures pending - {addr} == old(pending) - {addr}
      ensures ItemsOf(pending, addr) == if world.Nonce(addr) in paid.items then paid.items else map[]
      ensures priced.Tally() == old(priced.Tally())
    {
      hide Core, Thinned, Taken, WellKept, TxListState.Cap;
      if |paid.items| > 0 && world.Nonce(addr) !in paid.items {
        DropPending(addr, paid, paid.Cap(0), {});
        assert all.Known() - {} == all.Known();
      }
    }

    /** Too old for the account's state nonce, or beyond its balance or the gas limit. */
    predicate Doomed(tx: Tx)
      reads this`world, this`maxGas
    {
      tx.nonce < world.Nonce(tx.sender) || Unaffordable(world.Balance(tx.sender), maxGas).Meets(tx)
    }

    /** On a shelf, and doomed. */
    ghost predicate Hopeless(shelf: Shelf, tx: Tx)
      reads this`world, this`maxGas
    {
      Holds(shelf, tx) && Doomed(tx)
    }

    /** What demotion leaves of an account's pending transactions. */
    function KeptAt(m: Items, a: Address): Items
      reads this`world, this`maxGas
    {
      Kept(m, world.Nonce(a), world.Balance(a), maxGas)
    }

    /** What is pending for `a` can run, and starts with its state nonce. */
    ghost predicate DemotedAt(a: Address)
      reads this`pending, this`world, this`maxGas
    {
      && Runnable(ItemsOf(pending, a), world.Nonce(a), world.Balance(a), maxGas)
      && (ItemsOf(pending, a) == map[] || world.Nonce(a) in ItemsOf(pending, a))
    }

    ghost predicate GaplessAt(a: Address)
      reads this`pending, this`world
    {
      Gapless(Run(pending, a), world.Nonce(a))
    }

    /** Demotes, account by account and in some order, what the new state makes unexecutable. */
    method DemoteUnexecutables()
      requires Valid()
      modifies this`pending, this`queue, this`beats, all, priced`stales, priced`urgent, priced`floating
      ensures Valid() && all.Known() <= old(all.Known()) && all.remotes.Keys <= old(all.remotes).Keys
      ensures priced.Tally() == old(priced.Tally())
      ensures forall a :: ItemsOf(pending, a) == KeptAt(old(ItemsOf(pending, a)), a) && DemotedAt(a)
      ensures forall h :: h in all.Known() <==> h in old(all.Known()) && !Hopeless(old(pending), h.preimage)
    {
      hide Core, Hopeless, KeptAt, DemotedAt, ItemsOf, TxLookup.Known, TxPricedList.Tally;
      HopelessAreStored(this, pending);
      KeptNothing(this);
      NothingStored(pending);
      var todo := pending.Keys;
      while todo != {}
        invariant Valid() && all.Known() <= old(all.Known()) && all.remotes.Keys <= old(all.remotes).Keys
        invariant priced.Tally() == old(priced.Tally())
        invariant todo <= pending.Keys && forall a :: a in todo ==> ItemsOf(pending, a) == old(ItemsOf(pending, a))
        invariant forall a :: a !in todo ==> ItemsOf(pending, a) == KeptAt(old(ItemsOf(pending, a)), a)
        invariant forall h :: h in all.Known() <==>
          h in old(all.Known()) && !(h.preimage.sender !in todo && Hopeless(old(pending), h.preimage))
        decreases |todo|
      {
        var addr :| addr in todo;
        ghost var before := pending;
        SameHopeless(this, old(pending), pending, addr);
        DemoteAccount(addr);
        OthersKept(before, pending, addr);
        todo := todo - {addr};
      }
      KeptIsDemoted(this, old(pending));
    }

    /** The successor of an account's last pending nonce, or its state nonce. */
    ghost function NextAt(a: Address): u64
      reads this`pending, this`world
    {
      if a in pending && pending[a].items != map[] then Succ(LastNonce(pending[a].items)) else world.Nonce(a)
    }

    /**
     Gives every account with pending transactions the successor of its last
     nonce, which makes it exact if and only if there is no gap and the last
     64-bit nonce is not among them.
     */
    method SettleNonces()
      requires Valid()
      modifies pendingNonces
      ensures Valid() && forall a :: pendingNonces.Peek(a) == NextAt(a)
      ensures forall a :: DemotedAt(a) ==> (ExactAt(a) <==> GaplessAt(a) && MAX_U64 !in Run(pending, a))
    {
      hide Served, Consistent, Exact, Gapless, Runnable;
      var nonces := map a | a in pending :: Succ(LastNonce(pending[a].items));
      PendingStocked(this);
      pendingNonces.SetAll(nonces);
      forall a | DemotedAt(a)
        ensures ExactAt(a) <==> GaplessAt(a) && MAX_U64 !in Run(pending, a)
      {
        SettledAt(this, a);
      }
    }

    /** Drops the last pending transaction of an account that has more than one. */
    method DropHighest(addr: Address)
      requires Valid() && Size(pending, addr) > 1
      modifies this`pending, all, priced`stales, priced`urgent, priced`floating, pendingNonces
      ensures Valid() && pending.Keys == old(pending).Keys && Total(pending) == old(Total(pending)) - 1
      ensures Size(pending, addr) == old(Size(pending, addr)) - 1 && pending - {addr} == old(pending) - {addr}
      ensures pending == old(pending)[addr := old(pending)[addr].Cap(old(Size(pending, addr)) - 1)]
      ensures forall a :: a != addr ==> pendingNonces.Peek(a) == old(pendingNonces.Peek(a))
      ensures pendingNonces.Peek(addr)
        == Min(old(pendingNonces.Peek(addr)), CapCut(old(pending)[addr].items, old(Size(pending, addr)) - 1))
      ensures priced.Recounted(old(priced.Tally()), 1)
      ensures all.Known() <= old(all.Known()) && all.remotes.Keys <= old(all.remotes).Keys
      ensures forall a :: old(ExactAt(a)) ==> ExactAt(a)
    {
      hide Core, Taken, Thinned, TxListState.Cap, SetList, Exact, Flat, Total, WellKept;
      var list := pending[addr];
      PendingKept(this, addr);
      var kept := list.Cap(|list.items| - 1);
      LastIsCapped(list, addr);
      var last := Flat(list.items)[|list.items| - 1];
      CutRun(list.items.Keys, world.Nonce(addr), pendingNonces.Peek(addr), last.nonce, kept.items.Keys);
      TotalSetList(pending, addr, kept);
      ghost var taken := LiftPending(addr, list, kept);
      ShownTotal(old(pending), pending, addr, kept);
      Forget({last}, taken);
      assert taken - {last} == {};
      pendingNonces.SetIfLower(addr, last.nonce);
      CountStale(1);
    }

    /** Drops the last transaction of each of several accounts of the same size. */
    method Sweep(addrs: seq<Address>, ghost level: nat)
      requires Valid() && NoDuplicates(addrs) && level > 1 && AtLevel(pending, addrs, level)
      modifies this`pending, all, priced`stales, priced`urgent, priced`floating, pendingNonces
      ensures Valid() && Swept(old(pending), pending, addrs, level) && Total(pending) == old(Total(pending)) - |addrs|
      ensures all.Known() <= old(all.Known()) && all.remotes.Keys <= old(all.remotes).Keys
      ensures forall a :: old(ExactAt(a)) ==> ExactAt(a)
      ensures CutBack(old(pending), pending)
      ensures forall a ::
        && Size(pending, a) <= old(Size(pending, a)) && pendingNonces.Peek(a) <= old(pendingNonces.Peek(a))
        && (Size(pending, a) == old(Size(pending, a)) ==> pendingNonces.Peek(a) == old(pendingNonces.Peek(a)))
    {
      hide Core, ExactAt, Total, Swept, CutBack, TxListState.Cap;
      NothingCut(this, pending);
      SweepNothing(pending, addrs, level);
      for i := 0 to |addrs|
        invariant Valid() && Swept(old(pending), pending, addrs[..i], level)
        invariant Total(pending) == old(Total(pending)) - i
        invariant all.Known() <= old(all.Known()) && all.remotes.Keys <= old(all.remotes).Keys
        invariant forall a :: old(ExactAt(a)) ==> ExactAt(a)
        invariant CutBack(old(pending), pending)
        invariant forall a ::
          && Size(pending, a) <= old(Size(pending, a)) && pendingNonces.Peek(a) <= old(pendingNonces.Peek(a))
          && (Size(pending, a) == old(Size(pending, a)) ==> pendingNonces.Peek(a) == old(pendingNonces.Peek(a)))
      {
        NextToSweep(old(pending), pending, addrs, i, level);
        ghost var before := pending;
        DropHighest(addrs[i]);
        CutBackOne(old(pending), before, pending, addrs[i]);
        SweptOne(old(pending), before, pending, addrs, i, level);
      }
      assert addrs[..|addrs|] == addrs;
    }

    /** Sweeps accounts of equal size until the global limit or the given size is reached. */
    method LowerTogether(addrs: seq<Address>, bound: nat, count0: nat, ghost start: Shelf, ghost level0: nat,
                         ghost spammers: set<Address>, ghost offenders: seq<Address>)
      returns (count: nat, ghost level: nat)
      requires Valid() && count0 == Total(pending) && count0 + |offenders| > config.globalSlots
      requires addrs != [] && NoDuplicates(addrs) && |addrs| <= |offenders| && AmongOffenders(addrs, offenders)
      requires level0 >= bound >= config.accountSlots >= 1 && AtLevel(pending, addrs, level0)
      requires Levelled(start, pending, locals, config.accountSlots, level0) && Others(pending, locals, addrs, bound)
      requires Ranked(start, pending, locals, config.accountSlots, spammers, offenders)
      modifies this`pending, all, priced`stales, priced`urgent, priced`floating, pendingNonces
      ensures Valid() && count == Total(pending) && count + |offenders| > config.globalSlots
      ensures all.Known() <= old(all.Known()) && all.remotes.Keys <= old(all.remotes).Keys
      ensures forall a :: old(ExactAt(a)) ==> ExactAt(a)
      ensures CutBack(old(pending), pending)
      ensures forall a ::
        && Size(pending, a) <= old(Size(pending, a)) && pendingNonces.Peek(a) <= old(pendingNonces.Peek(a))
        && (Size(pending, a) == old(Size(pending, a)) ==> pendingNonces.Peek(a) == old(pendingNonces.Peek(a)))
      ensures level >= bound && AtLevel(pending, addrs, level)
      ensures count <= config.globalSlots || level == bound
      ensures Levelled(start, pending, locals, config.accountSlots, level) && Others(pending, locals, addrs, bound)
      ensures Ranked(start, pending, locals, config.accountSlots, spammers, offenders)
      ensures SameElsewhere(old(pending), pending, addrs)
    {
      hide Core, ExactAt, Total, CutBack, Levelled, Ranked, Others, NoDuplicates, SameElsewhere, AmongOffenders, Swept,
        AtLevel, Size;
      count, level := count0, level0;
      NothingCut(this, pending);
      SameElsewhereAtFirst(pending, addrs);
      LastAt(pending, addrs, level);
      while count > config.globalSlots && Size(pending, addrs[|addrs| - 1]) > bound
        invariant Valid() && count == Total(pending) && count + |offenders| > config.globalSlots
        invariant all.Known() <= old(all.Known()) && all.remotes.Keys <= old(all.remotes).Keys
        invariant forall a :: old(ExactAt(a)) ==> ExactAt(a)
        invariant CutBack(old(pending), pending)
        invariant forall a ::
          && Size(pending, a) <= old(Size(pending, a)) && pendingNonces.Peek(a) <= old(pendingNonces.Peek(a))
          && (Size(pending, a) == old(Size(pending, a)) ==> pendingNonces.Peek(a) == old(pendingNonces.Peek(a)))
        invariant level >= bound && AtLevel(pending, addrs, level) && Size(pending, addrs[|addrs| - 1]) == level
        invariant Levelled(start, pending, locals, config.accountSlots, level) && Others(pending, locals, addrs, bound)
        invariant Ranked(start, pending, locals, config.accountSlots, spammers, offenders)
        invariant SameElsewhere(old(pending), pending, addrs)
        decreases level
      {
        ghost var before := pending;
        Sweep(addrs, level);
        CutBackMore(old(pending), before, pending);
        LevelSwept(start, before, pending, locals, config.accountSlots, addrs, level, bound, spammers, offenders);
        SameElsewhereAgain(old(pending), before, pending, addrs, level);
        LastAt(pending, addrs, level - 1);
        count := count - |addrs|;
        level := level - 1;
      }
    }

    /**
     Brings the pending transactions down to the global limit by cutting the
     largest remote accounts to a common size, but none below its guaranteed
     slots.
     */
    method TruncatePending() returns (count: nat, offenders: seq<Address>)
      requires Valid()
      modifies this`pending, all, priced`stales, priced`urgent, priced`floating, pendingNonces
      ensures Valid() && count == Total(pending)
      ensures all.Known() <= old(all.Known()) && all.remotes.Keys <= old(all.remotes).Keys
      ensures forall a :: old(ExactAt(a)) ==> ExactAt(a)
      ensures CutBack(old(pending), pending)
      ensures forall a ::
        && Size(pending, a) <= old(Size(pending, a)) && pendingNonces.Peek(a) <= old(pendingNonces.Peek(a))
        && (Size(pending, a) == old(Size(pending, a)) ==> pendingNonces.Peek(a) == old(pendingNonces.Peek(a)))
      ensures count <= config.globalSlots || forall a :: a in pending && a !in locals ==>
        Size(pending, a) <= config.accountSlots
      ensures exists level :: Levelled(old(pending), pending, locals, config.accountSlots, level)
      ensures old(Total(pending)) <= config.globalSlots ==> pending == old(pending)
      ensures old(Total(pending)) > config.globalSlots ==> count + |offenders| > config.globalSlots
      ensures NoDuplicates(offenders)
      ensures forall o :: o in offenders ==> o !in locals && Size(old(pending), o) > config.accountSlots
    {
      hide Core, ExactAt, Total, CutBack, Levelled, Ranked, Others, NoDuplicates, SameElsewhere, AmongOffenders,
        AtLevel, Size;
      SaneSlots(this);
      NothingCut(this, pending);
      offenders := [];
      NoneTwice();
      count := CountAll(pending);
      ghost var start := pending;
      ghost var level: nat := Total(pending) + config.accountSlots;
      LevelAtStart(pending, locals, config.accountSlots);
      if count <= config.globalSlots {
        return;
      }
      count, offenders, level := LevelOffenders(count);
      ghost var before := pending;
      if count > config.globalSlots {
        count, level := LowerToFloor(offenders, count, start, level);
      } else {
        NothingCut(this, pending);
      }
      CutBackMore(start, before, pending);
    }

    /** One more account joins the offenders, and those before it go down to its size if need be. */
    method JoinOffenders(offender: Address, others: seq<Address>, count0: nat, ghost start: Shelf, ghost level0: nat,
                         ghost spammers: set<Address>)
      returns (count: nat, ghost level: nat)
      requires Valid() && count0 == Total(pending) && count0 + |others| > config.globalSlots && config.accountSlots >= 1
      requires offender in spammers && forall a :: a in spammers ==> Size(pending, a) <= Size(pending, offender)
      requires Levelled(start, pending, locals, config.accountSlots, level0)
      requires Ranked(start, pending, locals, config.accountSlots, spammers, others)
      requires others != [] ==> level0 > config.accountSlots && AtLevel(pending, others, level0)
      modifies this`pending, all, priced`stales, priced`urgent, priced`floating, pendingNonces
      ensures Valid() && count == Total(pending) && count + |others| + 1 > config.globalSlots
      ensures all.Known() <= old(all.Known()) && all.remotes.Keys <= old(all.remotes).Keys
      ensures forall a :: old(ExactAt(a)) ==> ExactAt(a)
      ensures CutBack(old(pending), pending)
      ensures forall a ::
        && Size(pending, a) <= old(Size(pending, a)) && pendingNonces.Peek(a) <= old(pendingNonces.Peek(a))
        && (Size(pending, a) == old(Size(pending, a)) ==> pendingNonces.Peek(a) == old(pendingNonces.Peek(a)))
      ensures Levelled(start, pending, locals, config.accountSlots, level)
      ensures Ranked(start, pending, locals, config.accountSlots, spammers - {offender}, others + [offender])
      ensures count > config.globalSlots ==> level > config.accountSlots && AtLevel(pending, others + [offender], level)
    {
      hide Core, ExactAt, Total, CutBack, Levelled, Ranked, Others, NoDuplicates, SameElsewhere, AmongOffenders,
        AtLevel, Size;
      var threshold := Size(pending, offender);
      RankedPop(start, pending, locals, config.accountSlots, level0, spammers, others, offender);
      if others == [] {
        assert others + [offender] == [offender];
        NothingCut(this, pending);
        FirstLevel(start, pending, locals, config.accountSlots, spammers - {offender}, offender, level0);
        return count0, threshold;
      }
      count, level :=
        LowerTogether(others, threshold, count0, start, level0, spammers - {offender}, others + [offender]);
      if level == threshold {
        Joined(old(pending), pending, others, offender, level);
      }
    }

    /** The first loop of `truncatePending`: the largest remote accounts go down together, one more at a time. */
    method LevelOffenders(count0: nat) returns (count: nat, offenders: seq<Address>, ghost level: nat)
      requires Valid() && count0 == Total(pending) > config.globalSlots
      modifies this`pending, all, priced`stales, priced`urgent, priced`floating, pendingNonces
      ensures Valid() && count == Total(pending) && count + |offenders| > config.globalSlots
      ensures all.Known() <= old(all.Known()) && all.remotes.Keys <= old(all.remotes).Keys
      ensures forall a :: old(ExactAt(a)) ==> ExactAt(a)
      ensures CutBack(old(pending), pending)
      ensures forall a ::
        && Size(pending, a) <= old(Size(pending, a)) && pendingNonces.Peek(a) <= old(pendingNonces.Peek(a))
        && (Size(pending, a) == old(Size(pending, a)) ==> pendingNonces.Peek(a) == old(pendingNonces.Peek(a)))
      ensures Levelled(old(pending), pending, locals, config.accountSlots, level)
      ensures count > config.globalSlots ==>
        && (offenders != [] ==> level >= config.accountSlots && AtLevel(pending, offenders, level))
        && Ranked(old(pending), pending, locals, config.accountSlots, {}, offenders)
      ensures NoDuplicates(offenders)
      ensures forall o :: o in offenders ==> o !in locals && Size(old(pending), o) > config.accountSlots
    {
      hide Core, ExactAt, Total, CutBack, Levelled, Ranked, Others, NoDuplicates, SameElsewhere, AmongOffenders,
        AtLevel, Size;
      SaneSlots(this);
      NothingCut(this, pending);
      ghost var start := pending;
      count, offenders, level := count0, [], Total(pending) + config.accountSlots;
      LevelAtStart(pending, locals, config.accountSlots);
      var floor := config.accountSlots;
      var spammers := Candidates(pending, locals, floor);
      while count > config.globalSlots && spammers != {}
        invariant Valid() && count == Total(pending) && count + |offenders| > config.globalSlots
        invariant all.Known() <= old(all.Known()) && all.remotes.Keys <= old(all.remotes).Keys
        invariant forall a :: old(ExactAt(a)) ==> ExactAt(a)
        invariant CutBack(old(pending), pending)
        invariant forall a ::
          && Size(pending, a) <= old(Size(pending, a)) && pendingNonces.Peek(a) <= old(pendingNonces.Peek(a))
          && (Size(pending, a) == old(Size(pending, a)) ==> pendingNonces.Peek(a) == old(pendingNonces.Peek(a)))
        invariant Levelled(start, pending, locals, floor, level)
        invariant Ranked(start, pending, locals, floor, spammers, offenders)
        invariant count > config.globalSlots && offenders != [] ==>
          level > floor && AtLevel(pending, offenders, level)
        decreases |spammers|
      {
        var offender := Largest(pending, spammers);
        ghost var before := pending;
        count, level := JoinOffenders(offender, offenders, count, start, level, spammers);
        CutBackMore(start, before, pending);
        spammers := spammers - {offender};
        offenders := offenders + [offender];
      }
      OffendersWereLarge(start, pending, locals, floor, spammers, offenders);
    }

    /** The last loop of `truncatePending`: all offenders go down to the guaranteed slots, if need be. */
    method LowerToFloor(offenders: seq<Address>, count0: nat, ghost start: Shelf, ghost level0: nat)
      returns (count: nat, ghost level: nat)
      requires Valid() && count0 == Total(pending) && count0 + |offenders| > config.globalSlots
      requires config.accountSlots >= 1
      requires (offenders != [] ==> level0 >= config.accountSlots && AtLevel(pending, offenders, level0))
      requires Levelled(start, pending, locals, config.accountSlots, level0)
      requires Ranked(start, pending, locals, config.accountSlots, {}, offenders)
      modifies this`pending, all, priced`stales, priced`urgent, priced`floating, pendingNonces
      ensures Valid() && count == Total(pending) && count + |offenders| > config.globalSlots
      ensures all.Known() <= old(all.Known()) && all.remotes.Keys <= old(all.remotes).Keys
      ensures forall a :: old(ExactAt(a)) ==> ExactAt(a)
      ensures CutBack(old(pending), pending)
      ensures forall a ::
        && Size(pending, a) <= old(Size(pending, a)) && pendingNonces.Peek(a) <= old(pendingNonces.Peek(a))
        && (Size(pending, a) == old(Size(pending, a)) ==> pendingNonces.Peek(a) == old(pendingNonces.Peek(a)))
      ensures Levelled(start, pending, locals, config.accountSlots, level)
      ensures Ranked(start, pending, locals, config.accountSlots, {}, offenders)
      ensures count <= config.globalSlots || forall a :: a in pending && a !in locals ==>
        Size(pending, a) <= config.accountSlots
    {
      hide Core, ExactAt, Total, CutBack, Levelled, Ranked, Others, NoDuplicates, SameElsewhere, AmongOffenders,
        AtLevel, Size;
      count, level := count0, level0;
      NothingCut(this, pending);
      OnlyOffenders(start, pending, locals, config.accountSlots, offenders);
      if |offenders| > 0 {
        count, level := LowerTogether(offenders, config.accountSlots, count, start, level, {}, offenders);
        LevelBounds(start, pending, locals, config.accountSlots, level);
      }
    }

    /** Removes one queued transaction through the lookup. */
    method RemoveQueued(addr: Address, n: u64)
      requires Valid() && Has(queue, addr, n)
      modifies this`pending, this`queue, this`beats, all, priced`stales, priced`urgent, priced`floating, pendingNonces
      ensures Valid() && pending == old(pending) && Has(old(queue), addr, n)
      ensures ItemsOf(queue, addr) == old(queue)[addr].items - {n} && queue - {addr} == old(queue) - {addr}
      ensures Total(queue) == old(Total(queue)) - 1 && Size(queue, addr) == old(Size(queue, addr)) - 1
      ensures all.Known() <= old(all.Known()) && all.remotes.Keys <= old(all.remotes).Keys
      ensures forall a :: ExactAt(a) <==> old(ExactAt(a))
      ensures forall a :: pendingNonces.Peek(a) == old(pendingNonces.Peek(a))
    {
      hide Core, Exact, SettlingAt, Total;
      QueuedKnown(this, addr, n);
      var tx := queue[addr].items[n];
      ghost var rest := queue[addr].Remove(n);
      TotalSetList(queue, addr, rest);
      KeysLess(queue[addr].items, n);
      RemoveTx(tx.Hash(), true);
    }

    /** Removes the whole queue of an account, lowest nonce first. */
    method DropAllQueued(addr: Address) returns (size: nat)
      requires Valid() && addr in queue
      modifies this`pending, this`queue, this`beats, all, priced`stales, priced`urgent, priced`floating, pendingNonces
      ensures Valid() && pending == old(pending) && size == old(Size(queue, addr))
      ensures addr !in queue && queue - {addr} == old(queue) - {addr}
      ensures Total(queue) == old(Total(queue)) - size
      ensures all.Known() <= old(all.Known()) && all.remotes.Keys <= old(all.remotes).Keys
      ensures forall a :: ExactAt(a) <==> old(ExactAt(a))
      ensures forall a :: pendingNonces.Peek(a) == old(pendingNonces.Peek(a))
    {
      hide Core, ExactAt, Total, Flat;
      ghost var items := queue[addr].items;
      QueuedKept(this, addr);
      FlatIsSorted(items);
      var txs := Flat(queue[addr].items);
      for i := 0 to |txs|
        invariant Valid() && pending == old(pending) && queue - {addr} == old(queue) - {addr}
        invariant Total(queue) == old(Total(queue)) - i && Size(queue, addr) == |txs| - i
        invariant forall j :: i <= j < |txs| ==> Has(queue, addr, txs[j].nonce)
        invariant all.Known() <= old(all.Known()) && all.remotes.Keys <= old(all.remotes).Keys
        invariant forall a :: ExactAt(a) <==> old(ExactAt(a))
        invariant forall a :: pendingNonces.Peek(a) == old(pendingNonces.Peek(a))
      {
        RemoveQueued(addr, txs[i].nonce);
        assert forall j :: i < j < |txs| ==> txs[j].nonce in ItemsOf(queue, addr);
      }
      size := |txs|;
      NoEmptyQueue(this, addr);
    }

    /** Removes the `k` highest queued transactions of an account, highest first. */
    method DropLastQueued(addr: Address, k: nat)
      requires Valid() && k < Size(queue, addr)
      modifies this`pending, this`queue, this`beats, all, priced`stales, priced`urgent, priced`floating, pendingNonces
      ensures Valid() && pending == old(pending) && addr in old(queue)
      ensures ItemsOf(queue, addr) == old(queue)[addr].Cap(old(Size(queue, addr)) - k).items
      ensures queue - {addr} == old(queue) - {addr} && Total(queue) == old(Total(queue)) - k
      ensures all.Known() <= old(all.Known()) && all.remotes.Keys <= old(all.remotes).Keys
      ensures forall a :: ExactAt(a) <==> old(ExactAt(a))
      ensures forall a :: pendingNonces.Peek(a) == old(pendingNonces.Peek(a))
    {
      hide Core, ExactAt, SettlingAt, Total, Flat, CapCut;
      var items := queue[addr].items;
      QueuedKept(this, addr);
      NoncesOfFlat(items);
      CutNothing(items);
      var txs, i, drop := Flat(items), |items|, k;
      while drop > 0
        invariant Valid() && pending == old(pending) && queue - {addr} == old(queue) - {addr}
        invariant i == |items| - k + drop && 0 <= drop <= k && Total(queue) == old(Total(queue)) - (k - drop)
        invariant ItemsOf(queue, addr) == BelowNonce(items, CapCut(items, i))
        invariant all.Known() <= old(all.Known()) && all.remotes.Keys <= old(all.remotes).Keys
        invariant forall a :: ExactAt(a) <==> old(ExactAt(a))
        invariant forall a :: pendingNonces.Peek(a) == old(pendingNonces.Peek(a))
      {
        CapKeepsFirst(items, i);
        CutOne(items, ItemsOf(queue, addr), i);
        i := i - 1;
        RemoveQueued(addr, txs[i].nonce);
        drop := drop - 1;
      }
    }

    /** Drops an account's queue, or as many of its highest nonces as are still in excess. */
    method DropFrom(addr: Address, drop: nat, ghost start: Shelf, ghost heartbeats: map<Address, nat>,
                    ghost waiting: set<Address>)
      returns (left: nat, ghost partial: set<Address>)
      requires Valid() && drop > 0 && addr !in waiting && addr in heartbeats && waiting <= heartbeats.Keys
      requires Aged(start, queue, locals, heartbeats, waiting + {addr}, {})
      requires forall b :: b in waiting ==> heartbeats[addr] <= heartbeats[b]
      modifies this`pending, this`queue, this`beats, all, priced`stales, priced`urgent, priced`floating, pendingNonces
      ensures Valid() && pending == old(pending) && left == drop - (old(Total(queue)) - Total(queue))
      ensures all.Known() <= old(all.Known()) && all.remotes.Keys <= old(all.remotes).Keys
      ensures forall a :: ExactAt(a) <==> old(ExactAt(a))
      ensures forall a :: pendingNonces.Peek(a) == old(pendingNonces.Peek(a))
      ensures Aged(start, queue, locals, heartbeats, waiting, partial) && (left > 0 ==> partial == {})
    {
      hide Core, ExactAt, Total, Aged, Keyed, TxListState.Cap, SettlingAt;
      WaitingStored(start, queue, locals, heartbeats, waiting + {addr}, addr);
      BeatsCover(this);
      ghost var before := queue;
      if |queue[addr].items| <= drop {
        var size := DropAllQueued(addr);
        DroppedAll(start, before, queue, locals, heartbeats, waiting, addr);
        left, partial := drop - size, {};
      } else {
        DropLastQueued(addr, drop);
        DroppedSome(start, before, queue, locals, heartbeats, waiting, addr, drop);
        left, partial := 0, {addr};
      }
    }

    /**
     Brings the queued transactions down to the global limit by dropping the
     queues of the remote accounts longest without a heartbeat, of the last of
     them only the highest nonces.
     */
    method TruncateQueue()
      requires Valid()
      modifies this`pending, this`queue, this`beats, all, priced`stales, priced`urgent, priced`floating, pendingNonces
      ensures Valid() && pending == old(pending)
      ensures all.Known() <= old(all.Known()) && all.remotes.Keys <= old(all.remotes).Keys
      ensures forall a :: ExactAt(a) <==> old(ExactAt(a))
      ensures forall a :: pendingNonces.Peek(a) == old(pendingNonces.Peek(a))
      ensures old(Total(queue)) <= config.globalQueue ==> queue == old(queue)
      ensures old(Total(queue)) > config.globalQueue ==>
        || Total(queue) == config.globalQueue
        || (Total(queue) > config.globalQueue && forall a :: a in queue ==> a in locals)
      ensures EldestDropped(old(queue), queue, locals, old(beats))
    {
      hide Core, ExactAt, Total, Aged, EldestDropped;
      var queued := CountAll(queue);
      ghost var start := queue;
      BeatsCover(this);
      NothingAged(queue, locals, beats);
      if queued <= config.globalQueue {
        AgedAtLast(start, queue, locals, beats, RemoteKeys(queue, locals), {});
        return;
      }
      var heartbeats := beats;
      var waiting := RemoteKeys(queue, locals);
      var drop := queued - config.globalQueue;
      ghost var partial: set<Address> := {};
      while drop > 0 && waiting != {}
        invariant Valid() && pending == old(pending) && drop == Total(queue) - config.globalQueue >= 0
        invariant all.Known() <= old(all.Known()) && all.remotes.Keys <= old(all.remotes).Keys
        invariant forall a :: ExactAt(a) <==> old(ExactAt(a))
        invariant forall a :: pendingNonces.Peek(a) == old(pendingNonces.Peek(a))
        invariant Aged(start, queue, locals, heartbeats, waiting, partial) && (drop > 0 ==> partial == {})
        invariant waiting <= start.Keys <= heartbeats.Keys
        decreases |waiting|
      {
        var addr := Eldest(heartbeats, waiting);
        assert waiting == (waiting - {addr}) + {addr};
        waiting := waiting - {addr};
        drop, partial := DropFrom(addr, drop, start, heartbeats, waiting);
      }
      AgedAtLast(start, queue, locals, heartbeats, waiting, partial);
    }

    /** Time passes; heartbeats record the clock. */
    method Tick(elapsed: nat)
      requires Valid()
      modifies this`clock
      ensures Valid() && clock == old(clock) + elapsed
    {
      clock := clock + elapsed;
    }

    /** The eviction of `loop`: the queues of the remote accounts without a heartbeat for too long go, and no others. */
    method EvictIdle(lifetime: nat)
      requires Valid()
      modifies this`pending, this`queue, this`beats, all, priced`stales, priced`urgent, priced`floating, pendingNonces
      ensures Valid() && pending == old(pending)
      ensures all.Known() <= old(all.Known()) && all.remotes.Keys <= old(all.remotes).Keys
      ensures forall a :: ExactAt(a) <==> old(ExactAt(a))
      ensures forall a :: pendingNonces.Peek(a) == old(pendingNonces.Peek(a))
      ensures old(queue).Keys <= old(beats).Keys
      ensures queue
        == map a | a in old(queue) && (a in locals || clock - old(beats)[a] <= lifetime) :: old(queue)[a]
    {
      hide Core, ExactAt, Recent, TxLookup.Known, TxNoncer.Peek;
      BeatsCover(this);
      var heartbeats, todo := beats, queue.Keys;
      ghost var start := queue;
      AllWaiting(queue, locals, heartbeats, clock, lifetime);
      while todo != {}
        invariant Valid() && pending == old(pending) && todo <= start.Keys <= heartbeats.Keys
        invariant all.Known() <= old(all.Known()) && all.remotes.Keys <= old(all.remotes).Keys
        invariant forall a :: ExactAt(a) <==> old(ExactAt(a))
        invariant forall a :: pendingNonces.Peek(a) == old(pendingNonces.Peek(a))
        invariant queue == Recent(start, todo, locals, heartbeats, clock, lifetime)
        decreases |todo|
      {
        var addr :| addr in todo;
        NextWaiting(start, todo, locals, heartbeats, clock, lifetime, addr);
        todo := todo - {addr};
        if addr !in locals && clock - heartbeats[addr] > lifetime {
          ghost var before := queue;
          var size := DropAllQueued(addr);
          assert queue == before - {addr} by {
            assert before - {addr} == queue - {addr} == queue;
          }
        }
      }
      NoneWaiting(start, locals, heartbeats, clock, lifetime);
    }

    /** `validateTx`: the first rule a transaction breaks, if any. */
    function Validate(tx: Tx, local: bool): Option<PoolError>
      reads this`forks, this`maxGas, this`gasPrice, this`world
    {
      Verdict(Rules(world, maxGas, gasPrice, forks), tx, local)
    }

    /** The slots at which the pool is full. */
    function Capacity(): nat {
      config.globalSlots + config.globalQueue
    }

    /** The slots a transaction is short of. */
    function Shortage(tx: Tx): int
      reads all
    {
      all.slots + tx.Slots() - Capacity()
    }

    /** Removes the transactions the price heaps have given up. */
    method Evict(drop: seq<Tx>)
      requires Valid() && untracked == SeqHashes(drop) && forall t :: t in drop ==> t.sender !in locals
      modifies this`pending, this`queue, this`beats, this`untracked, all, priced`stales, priced`urgent, priced`floating,
        pendingNonces
      ensures Valid() && untracked == {} && all.Known() == old(all.Known()) - SeqHashes(drop)
      ensures all.remotes.Keys <= old(all.remotes).Keys
      ensures OnceEach(drop) && SeqHashes(drop) <= old(all.Known()) ==> all.slots == old(all.slots) - TotalSlots(drop)
      ensures drop == [] ==> pendingNonces.nonces == old(pendingNonces.nonces)
      ensures Cleared(old(Snap()), Snap(), SeqHashes(drop))
      ensures forall a ::
        pendingNonces.Peek(a) == Min(old(pendingNonces.Peek(a)), CutAt(old(pending), SeqHashes(drop), a))
      ensures forall a :: old(ExactAt(a)) ==> ExactAt(a)
      ensures forall a :: old(SettlingAt(a)) ==> SettlingAt(a)
    {
      hide Core, ExactAt, SettlingAt, TotalSlots, CutTo, CutAt, Stocked, OnceEach;
      NoSlots();
      NoneCut(pending);
      PendingStocked(this);
      ghost var gone: set<Hash> := {};
      assert SeqHashes(drop[..0]) == gone;
      for i := 0 to |drop|
        invariant Valid() && untracked == SeqHashes(drop) && all.Known() == old(all.Known()) - SeqHashes(drop[..i])
        invariant all.remotes.Keys <= old(all.remotes).Keys
        invariant OnceEach(drop) && SeqHashes(drop) <= old(all.Known()) ==>
          all.slots == old(all.slots) - TotalSlots(drop[..i])
        invariant drop == [] ==> pendingNonces.nonces == old(pendingNonces.nonces)
        invariant gone == SeqHashes(drop[..i]) && CutTo(old(pending), pending, gone)
        invariant forall a :: pendingNonces.Peek(a) == Min(old(pendingNonces.Peek(a)), CutAt(old(pending), gone, a))
        invariant forall a :: old(ExactAt(a)) ==> ExactAt(a)
        invariant forall a :: old(SettlingAt(a)) ==> SettlingAt(a)
      {
        SlotsOfKnown(this);
        EvictOne(drop, i, all.Known());
        EvictNext(drop[i], old(pending), gone);
        gone := gone + {drop[i].Hash()};
        SlotsOfKnown(this);
      }
      assert drop[..|drop|] == drop;
      AllShelved(this);
      TrackAgain();
    }

    /** Removes one more transaction after `gone` are removed from the shelf that was `start`. */
    method EvictNext(tx: Tx, ghost start: Shelf, ghost gone: set<Hash>)
      requires Valid() && Stocked(start, true) && CutTo(start, pending, gone)
      requires forall a :: pendingNonces.Peek(a) <= CutAt(start, gone, a)
      modifies this`pending, this`queue, this`beats, all, priced`stales, priced`urgent, priced`floating, pendingNonces
      ensures Valid() && all.Known() == old(all.Known()) - {tx.Hash()} && all.remotes.Keys <= old(all.remotes).Keys
      ensures CutTo(start, pending, gone + {tx.Hash()})
      ensures forall a :: CutAt(start, gone + {tx.Hash()}, a) <= CutAt(start, gone, a)
      ensures forall a ::
        pendingNonces.Peek(a) == Min(old(pendingNonces.Peek(a)), CutAt(start, gone + {tx.Hash()}, a))
      ensures forall a :: old(ExactAt(a)) ==> ExactAt(a)
      ensures forall a :: old(SettlingAt(a)) ==> SettlingAt(a)
    {
      hide Core, ExactAt, SettlingAt, CutTo, CutAt, SetList, TxListState.Remove, Stocked, Stranded;
      HeldIfKnown(this, tx);
      CutMore(start, pending, gone, tx);
      RemoveTx(tx.Hash(), false);
    }

    /** Nothing untracked is left in the pool. */
    ghost method TrackAgain()
      requires Valid() && untracked !! all.Known()
      modifies this`untracked
      ensures Valid() && untracked == {}
    {
      hide Consistent;
      untracked := {};
    }

    method IsUnderpriced(tx: Tx) returns (under: bool)
      requires Valid()
      modifies priced`stales, priced`urgent, priced`floating
      ensures Valid() && (old(priced.Single()) ==> priced.Single())
      ensures under <==> old(Outpriced(tx))
      ensures LiveSlots(priced.Entries(), all.remotes) == old(LiveSlots(priced.Entries(), all.remotes))
      ensures Popped(old(priced.Prices()), priced.Prices())
    {
      hide Consistent, TxPricedList.Valid, NoneCheaper, AnyLive, LiveSlots;
      under := priced.Underpriced(tx);
      KeepsEntries(old(priced.Entries()), priced.Entries(), all.remotes, untracked);
      SameLiveSlots(priced.Entries(), old(priced.Entries()), all.remotes);
    }

    /** Some remote transaction is live, and none of them is cheaper than `tx`. */
    ghost predicate Outpriced(tx: Tx)
      reads all, priced
    {
      && AnyLive(priced.Entries(), all.remotes)
      && NoneCheaper(priced.baseFee, multiset(priced.urgent), tx, all.remotes)
      && NoneCheaper(None, multiset(priced.floating), tx, all.remotes)
    }

    predicate Fits(tx: Tx)
      reads all
    {
      all.slots + tx.Slots() <= Capacity()
    }

    /** A full pool takes no more before the next reorg run, or the transaction is a remote one not worth the room. */
    ghost predicate NoRoom(tx: Tx, isLocal: bool)
      reads this`changes, all, priced
    {
      && !Fits(tx)
      && (changes > config.globalSlots / 4
          || (!isLocal && Outpriced(tx))
          || (!isLocal && LiveSlots(priced.Entries(), all.remotes) < all.slots - Capacity() + tx.Slots()))
    }

    /** Takes the cheapest remote transactions worth `slots` slots out of the price heaps. */
    method TakeCheapest(slots: nat, force: bool) returns (drop: seq<Tx>, ok: bool)
      requires Valid() && untracked == {}
      modifies priced`stales, priced`urgent, priced`floating, this`untracked
      ensures Valid() && untracked == SeqHashes(drop) && (!ok ==> drop == [])
      ensures forall t :: t in drop ==> t.Hash() in all.remotes && t.sender !in locals
      ensures old(priced.Single()) ==> OnceEach(drop)
      ensures ok && !force ==> TotalSlots(drop) >= slots
      ensures ok <==> force || LiveSlots(old(priced.Entries()), all.remotes) >= slots
      ensures ok ==> Evicts(old(priced.Prices()), slots, force, drop)
    {
      hide Consistent, TxPricedList.Valid, TxLookup.Valid, LiveSlots, TotalSlots, CheapestFirst, CheapestDropped,
        OnceEach, SeqHashes, Evicts, SameLive;
      ghost var heaps := priced.Prices();
      drop, ok := priced.Discard(slots, force);
      untracked := SeqHashes(drop);
      if ok {
        DropsEvict(heaps, slots, force, drop, priced.Entries());
      } else {
        NoHashes();
      }
      DroppedEntries(old(priced.Entries()), priced.Entries(), drop, all.remotes);
    }

    /** Evicts the cheapest remote transactions worth `want` slots. */
    method EvictFor(want: nat, force: bool) returns (ok: bool, ghost evicted: set<Hash>)
      requires Valid() && untracked == {}
      modifies this`pending, this`queue, this`beats, this`untracked, this`changes, all, priced`stales, priced`urgent,
        priced`floating, pendingNonces
      ensures Valid() && untracked == {} && all.Known() == old(all.Known()) - evicted
      ensures all.remotes.Keys <= old(all.remotes).Keys
      ensures evicted <= old(all.remotes).Keys && forall h :: h in evicted ==> h.preimage.sender !in locals
      ensures ok <==> force || old(LiveSlots(priced.Entries(), all.remotes)) >= want
      ensures !ok ==> evicted == {} && pending == old(pending) && queue == old(queue)
      ensures evicted == {} ==> pendingNonces.nonces == old(pendingNonces.nonces)
      ensures Cleared(old(Snap()), Snap(), evicted)
      ensures forall a :: pendingNonces.Peek(a) == Min(old(pendingNonces.Peek(a)), CutAt(old(pending), evicted, a))
      ensures ok && !force && old(priced.Single()) ==> all.slots <= old(all.slots) - want
      ensures ok ==> EvictedFor(old(priced.Prices()), want, force, evicted, changes - old(changes))
      ensures !ok ==> changes == old(changes)
      ensures forall a :: old(ExactAt(a)) ==> ExactAt(a)
      ensures forall a :: old(SettlingAt(a)) ==> SettlingAt(a)
    {
      hide Core, ExactAt, SettlingAt, TxPricedList.Single, LiveSlots, TotalSlots, OnceEach, Evicts, EvictedFor, Cleared,
        CutAt;
      NothingCleared(this);
      var drop;
      drop, ok := TakeCheapest(want, force);
      RemotesKnown(this, drop);
      evicted := SeqHashes(drop);
      if !ok {
        return;
      }
      changes := changes + |drop|;
      EvictsList(old(priced.Prices()), want, force, drop);
      assert drop != [] ==> drop[0].Hash() in evicted;
      Evict(drop);
    }

    /**
     Makes room for a transaction the pool has no slots left for.  A remote one
     is refused when it is underpriced or cannot be made room for; a local one
     evicts what it can.
     */
    method MakeRoom(tx: Tx, isLocal: bool) returns (err: Option<PoolError>, ghost evicted: set<Hash>)
      requires Valid() && untracked == {}
      modifies this`pending, this`queue, this`beats, this`untracked, this`changes, all, priced`stales, priced`urgent,
        priced`floating, pendingNonces
      ensures Valid() && untracked == {} && all.Known() == old(all.Known()) - evicted
      ensures all.remotes.Keys <= old(all.remotes).Keys
      ensures evicted <= old(all.remotes).Keys && (err.Some? || old(Fits(tx)) ==> evicted == {})
      ensures evicted == {} ==> pendingNonces.nonces == old(pendingNonces.nonces)
      ensures Cleared(old(Snap()), Snap(), evicted)
      ensures forall a :: pendingNonces.Peek(a) == Min(old(pendingNonces.Peek(a)), CutAt(old(pending), evicted, a))
      ensures err.Some? <==> old(NoRoom(tx, isLocal))
      ensures err.Some? ==> err.value == if !isLocal && old(Outpriced(tx)) then UnderpricedTx else PoolOverflow
      ensures err.Some? ==> !old(Fits(tx))
      ensures err.Some? || old(Fits(tx)) ==> pending == old(pending) && queue == old(queue)
      ensures old(Fits(tx)) ==>
        && priced.Prices() == old(priced.Prices()) && priced.stales == old(priced.stales)
        && changes == old(changes) && beats == old(beats)
      ensures forall h :: h in evicted ==> h.preimage.sender !in locals
      ensures err.None? && !isLocal && old(priced.Single()) ==> all.slots + tx.Slots() <= Capacity()
      ensures err.None? && !old(Fits(tx)) ==>
        EvictedFor(old(priced.Prices()), old(Shortage(tx)), isLocal, evicted, changes - old(changes))
      ensures err.Some? ==> changes == old(changes)
      ensures forall a :: old(ExactAt(a)) ==> ExactAt(a)
      ensures forall a :: old(SettlingAt(a)) ==> SettlingAt(a)
    {
      hide Core, ExactAt, SettlingAt, TxPricedList.Single, LiveSlots, TotalSlots, Outpriced, OnceEach, Popped, Evicts,
        EvictedFor, Cleared, CutAt;
      ghost var prices := priced.Prices();
      NothingPopped(prices);
      NothingCleared(this);
      evicted := {};
      if all.slots + tx.Slots() <= Capacity() {
        return None, {};
      }
      if !isLocal {
        var under := IsUnderpriced(tx);
        if under {
          return Some(UnderpricedTx), {};
        }
      }
      if changes > config.globalSlots / 4 {
        return Some(PoolOverflow), {};
      }
      ghost var heaps := priced.Prices();
      var ok;
      ok, evicted := EvictFor(all.slots - Capacity() + tx.Slots(), isLocal);
      if !ok {
        return Some(PoolOverflow), {};
      }
      EvictedAsBefore(prices, heaps, old(all.slots) + tx.Slots() - Capacity(), isLocal, evicted,
                      changes - old(changes));
      err := None;
    }

    /** Replaces the pending transaction of the same account and nonce, if the new one outbids it. */
    method ReplacePending(tx: Tx, isLocal: bool) returns (ok: bool)
      requires Valid() && tx.signed && tx.Hash() !in all.Known() && Has(pending, tx.sender, tx.nonce)
      requires !isLocal ==> tx.sender !in locals
      modifies this`pending, this`beats, all, priced`stales, priced`urgent, priced`floating
      ensures Valid() && ok == old(pending)[tx.sender].Accepts(tx, config.priceBump)
      ensures !ok ==> pending == old(pending) && all.Known() == old(all.Known()) && all.slots == old(all.slots)
      ensures ok ==>
        && pending == Shelve(old(pending), tx, true)
        && all.Known() == old(all.Known()) - Rivals(old(pending), tx) + {tx.Hash()}
      ensures all.slots <= old(all.slots) + tx.Slots()
      ensures ok ==> SidesAre(old(all.remotes).Keys, tx, isLocal) && (tx.Hash() in all.remotes <==> !isLocal)
      ensures beats == if ok then old(beats)[tx.sender := clock] else old(beats)
      ensures forall a :: Run(pending, a) == old(Run(pending, a))
    {
      hide Served, Consistent, TxListState.Accepts, TxListState.Add, SidesAre;
      ShelvedAreKnown(this, tx);
      ghost var remotes, rivals := all.remotes.Keys, Rivals(pending, tx);
      var list := pending[tx.sender];
      ok := list.Accepts(tx, config.priceBump);
      if !ok {
        return;
      }
      ArrivedPending(pending, queue, all.Known(), tx);
      ShelveRun(pending, tx, true);
      pending := pending[tx.sender := list.Add(tx)];
      Exchange(list.items[tx.nonce].Hash(), tx, isLocal);
      beats := beats[tx.sender := clock];
      SidesFollow(this, remotes, rivals, tx, isLocal);
    }

    /** A new transaction is remote unless its account is local, and the other known ones are what they were. */
    ghost predicate SidesAre(remotes: set<Hash>, tx: Tx, isLocal: bool)
      reads all, this`locals
    {
      forall h :: h in all.remotes <==>
        && h in all.Known()
        && (if h == tx.Hash() then !isLocal else h in remotes && h.preimage.sender !in locals)
    }

    /** The lookup and the price heaps learn of a transaction in place of another. */
    method Exchange(hash: Hash, tx: Tx, local: bool)
      requires Served() && tx.Hash() !in all.Known()
      modifies all, priced`stales, priced`urgent, priced`floating
      ensures Served() && all.Known() == old(all.Known()) - {hash} + {tx.Hash()}
      ensures all.remotes.Keys == old(all.remotes).Keys - {hash} + (if local then {} else {tx.Hash()})
      ensures all.slots <= old(all.slots) + tx.Slots()
    {
      hide Served;
      DropKnown(hash);
      Admit(tx, local);
    }

    /** Puts a new transaction into the queue, in place of a queued one it outbids. */
    method EnqueueNew(tx: Tx, isLocal: bool) returns (replaced: bool, ok: bool)
      requires Valid() && tx.signed && tx.Hash() !in all.Known() && !Has(pending, tx.sender, tx.nonce)
      requires !isLocal ==> tx.sender !in locals
      modifies this`queue, this`beats, all, priced`stales, priced`urgent, priced`floating
      ensures Valid() && ok == ListOf(old(queue), tx.sender, false).Accepts(tx, config.priceBump)
      ensures !ok ==> queue == old(queue) && all.Known() == old(all.Known()) && all.slots == old(all.slots)
      ensures ok ==>
        queue == Shelve(old(queue), tx, false) && all.Known() == old(all.Known()) - Rivals(old(queue), tx) + {tx.Hash()}
      ensures ok ==> replaced == Has(old(queue), tx.sender, tx.nonce)
      ensures all.slots <= old(all.slots) + tx.Slots()
      ensures ok && !replaced && !isLocal ==>
        priced.Prices() == Entered(old(priced.Prices()), tx) && priced.stales == old(priced.stales)
      ensures ok ==> SidesAre(old(all.remotes).Keys, tx, isLocal) && (tx.Hash() in all.remotes <==> !isLocal)
      ensures beats == if ok && tx.sender !in old(beats) then old(beats)[tx.sender := clock] else old(beats)
    {
      hide Served, Consistent, TxListState.Accepts, TxListState.Add, SidesAre, Entered, Counted;
      ArrivedQueued(pending, queue, all.Known(), tx);
      ShelveElsewhere(queue, tx, false);
      ShelvedAreKnown(this, tx);
      ghost var remotes, rivals := all.remotes.Keys, Rivals(queue, tx);
      replaced, ok := EnqueueTx(tx, isLocal, true);
      if ok {
        SidesFollow(this, remotes, rivals, tx, isLocal);
      }
    }

    /** Makes an account local and moves its transactions out of the remotes. */
    method MarkLocal(addr: Address)
      requires Valid()
      modifies this`locals, all, priced`stales, priced`urgent, priced`floating
      ensures Valid() && locals == old(locals) + {addr} && all.Known() == old(all.Known())
      ensures all.slots == old(all.slots)
      ensures forall h :: h in all.remotes <==> h in old(all.remotes) && h.preimage.sender !in locals
      ensures priced.Recounted(old(priced.Tally()), |old(all.remotes)| - |all.remotes|)
    {
      hide Consistent, Served;
      AllSigned(pending, queue, {}, all.Known());
      locals := locals + {addr};
      MigrateRemotes();
    }

    method MigrateRemotes()
      requires Served()
      modifies all, priced`stales, priced`urgent, priced`floating
      ensures Served() && all.Known() == old(all.Known()) && all.slots == old(all.slots)
      ensures all.remotes == OfOthers(old(all.remotes), locals)
      ensures priced.Recounted(old(priced.Tally()), |old(all.remotes)| - |all.remotes|)
    {
      hide TxPricedList.Valid, TxLookup.Valid;
      var migrated := all.RemoteToLocals(locals);
      priced.Removed(migrated, untracked);
    }

    /**
     `add`: validates a transaction, makes room for it, and lets it replace a
     pending or queued one or join the queue.  It is accepted if and only if it
     is new and valid, there is room, and it outbids a rival that is not evicted.
     Short of a double heap entry, an accepted remote transaction leaves the pool
     within its capacity.
     */
    method Add(tx: Tx, local: bool) returns (replaced: bool, err: Option<PoolError>, ghost made: Clearing)
      requires Valid() && untracked == {}
      modifies this`pending, this`queue, this`beats, this`untracked, this`changes, this`locals, all, priced`stales,
        priced`urgent, priced`floating, pendingNonces
      ensures Valid() && untracked == {} && (!local ==> locals == old(locals))
      ensures Admits(old(Snap()), Snap(), tx, old(Validate(tx, local || SentBy(tx, locals))), config.priceBump,
                     Capacity(), err, made)
      ensures if err.None? then replaced <==> RivalsIn(made.left.known, tx) != {} else !replaced
      ensures err.None? || err == Some(ReplaceUnderpriced) ==> !old(NoRoom(tx, local || SentBy(tx, locals)))
      ensures made.evicted <= old(all.remotes).Keys
      ensures forall h :: h in made.evicted ==> h.preimage.sender !in old(locals)
      ensures (err.None? || err == Some(ReplaceUnderpriced)) && !old(Fits(tx)) ==>
        EvictedFor(old(priced.Prices()), old(Shortage(tx)), local || SentBy(tx, old(locals)), made.evicted,
                   changes - old(changes))
      ensures old(Fits(tx)) || (err.Some? && err != Some(ReplaceUnderpriced)) ==> changes == old(changes)
      ensures err.None? && !replaced && old(Fits(tx)) && !(local || SentBy(tx, old(locals))) ==>
        && priced.Prices() == Entered(old(priced.Prices()), tx) && priced.stales == old(priced.stales)
        && changes == old(changes)
      ensures locals == old(locals) + if local && NewlyQueued(tx, err, made) then {tx.sender} else {}
      ensures err.None? ==> (tx.Hash() in all.remotes <==> !(local || SentBy(tx, old(locals))))
      ensures err.None? && old(Fits(tx)) ==> beats == Beaten(old(beats), old(pending), tx, clock)
      ensures made.evicted == {} ==> pendingNonces.nonces == old(pendingNonces.nonces)
      ensures forall a :: pendingNonces.Peek(a) == Min(old(pendingNonces.Peek(a)), CutAt(old(pending), made.evicted, a))
      ensures err.None? && !local && !SentBy(tx, old(locals)) && old(priced.Single()) ==> all.slots <= Capacity()
      ensures tx.Hash() !in old(all.Known()) && old(Validate(tx, local || SentBy(tx, locals))).None? ==>
        (old(NoRoom(tx, local || SentBy(tx, locals))) <==> err.Some? && err.value != ReplaceUnderpriced)
      ensures forall a :: old(ExactAt(a)) ==> ExactAt(a)
      ensures forall a :: old(SettlingAt(a)) ==> SettlingAt(a)
    {
      hide Core, ExactAt, SettlingAt, TxPricedList.Single, NoRoom, Admits, Verdict, RivalsIn, EvictedFor, CutAt,
        Cleared;
      replaced, made := false, Clearing({}, None, Snap());
      NothingCleared(this);
      if tx.Hash() in all.locals || tx.Hash() in all.remotes {
        Refused(Snap(), tx, Validate(tx, local || SentBy(tx, locals)), config.priceBump, Capacity(), AlreadyKnown);
        return false, Some(AlreadyKnown), made;
      }
      var isLocal := local || SentBy(tx, locals);
      ValidIsSigned(this, tx, isLocal);
      err := Validate(tx, isLocal);
      if err.Some? {
        Refused(Snap(), tx, err, config.priceBump, Capacity(), err.value);
        return;
      }
      replaced, err, made := AddValid(tx, local, isLocal);
    }

    /** The part of `add` that follows the validation. */
    method AddValid(tx: Tx, local: bool, isLocal: bool)
      returns (replaced: bool, err: Option<PoolError>, ghost made: Clearing)
      requires Valid() && untracked == {} && tx.signed && tx.Hash() !in all.Known()
      requires isLocal == (local || SentBy(tx, locals))
      modifies this`pending, this`queue, this`beats, this`untracked, this`changes, this`locals, all, priced`stales,
        priced`urgent, priced`floating, pendingNonces
      ensures Valid() && untracked == {} && (!local ==> locals == old(locals))
      ensures Admits(old(Snap()), Snap(), tx, None, config.priceBump, Capacity(), err, made)
      ensures if err.None? then replaced <==> RivalsIn(made.left.known, tx) != {} else !replaced
      ensures old(NoRoom(tx, isLocal)) <==> err.Some? && err.value != ReplaceUnderpriced
      ensures made.evicted <= old(all.remotes).Keys
      ensures forall h :: h in made.evicted ==> h.preimage.sender !in old(locals)
      ensures (err.None? || err == Some(ReplaceUnderpriced)) && !old(Fits(tx)) ==>
        EvictedFor(old(priced.Prices()), old(Shortage(tx)), isLocal, made.evicted, changes - old(changes))
      ensures old(Fits(tx)) || (err.Some? && err != Some(ReplaceUnderpriced)) ==> changes == old(changes)
      ensures err.None? && !replaced && old(Fits(tx)) && !isLocal ==>
        && priced.Prices() == Entered(old(priced.Prices()), tx) && priced.stales == old(priced.stales)
        && changes == old(changes)
      ensures locals == old(locals) + if local && NewlyQueued(tx, err, made) then {tx.sender} else {}
      ensures err.None? ==> (tx.Hash() in all.remotes <==> !isLocal)
      ensures err.None? && old(Fits(tx)) ==> beats == Beaten(old(beats), old(pending), tx, clock)
      ensures made.evicted == {} ==> pendingNonces.nonces == old(pendingNonces.nonces)
      ensures forall a :: pendingNonces.Peek(a) == Min(old(pendingNonces.Peek(a)), CutAt(old(pending), made.evicted, a))
      ensures err.None? && !isLocal && old(priced.Single()) ==> all.slots <= Capacity()
      ensures forall a :: old(ExactAt(a)) ==> ExactAt(a)
      ensures forall a :: old(SettlingAt(a)) ==> SettlingAt(a)
    {
      hide Core, Exact, Settling, Run, TxPricedList.Single, Outpriced, LiveSlots, Admits, RivalsIn, OutbidsAll,
        PutInPlace, EvictedFor, CutAt, Cleared, Entered, Beaten, Has, SidesAre, TxNoncer.Peek, Shortage, Fits, NoRoom,
        Capacity, TxLookup.Known;
      replaced := false;
      ghost var before := Snap();
      FitsBySlots(this, tx);
      ghost var evicted;
      err, evicted := MakeRoom(tx, isLocal);
      made := Clearing(evicted, err, Snap());
      if err.Some? {
        assert before.known - {} == before.known;
        Crowded(before, tx, config.priceBump, Capacity(), err.value);
        return;
      }
      var placed;
      replaced, placed := Place(tx, local, isLocal);
      err := if placed then None else Some(ReplaceUnderpriced);
      Settled(before, Snap(), tx, config.priceBump, Capacity(), err, made);
    }

    /** The shelves and the known hashes, as a value. */
    ghost function Snap(): Snapshot
      reads this`pending, this`queue, all
    {
      Snapshot(pending, queue, all.Known())
    }

    /** The part of `add` that puts a transaction there is room for into its place. */
    method Place(tx: Tx, local: bool, isLocal: bool) returns (replaced: bool, placed: bool)
      requires Valid() && untracked == {} && tx.signed && tx.Hash() !in all.Known()
      requires (!isLocal ==> tx.sender !in locals)
      requires local ==> isLocal
      modifies this`pending, this`queue, this`beats, this`locals, all, priced`stales, priced`urgent, priced`floating
      ensures Valid() && untracked == {} && (!local ==> locals == old(locals))
      ensures placed <==> OutbidsAll(old(all.Known()), tx, config.priceBump)
      ensures if placed then replaced <==> RivalsIn(old(all.Known()), tx) != {} else !replaced
      ensures !placed ==> pending == old(pending) && queue == old(queue) && all.Known() == old(all.Known())
      ensures placed ==>
        && PutInPlace(old(pending), old(queue), pending, queue, tx)
        && all.Known() == old(all.Known()) - RivalsIn(old(all.Known()), tx) + {tx.Hash()}
      ensures all.slots <= old(all.slots) + tx.Slots()
      ensures placed && !replaced && !isLocal ==>
        priced.Prices() == Entered(old(priced.Prices()), tx) && priced.stales == old(priced.stales)
      ensures var joins := local && placed && !Has(old(pending), tx.sender, tx.nonce);
        locals == old(locals) + if joins then {tx.sender} else {}
      ensures placed ==> SidesAre(old(all.remotes).Keys, tx, isLocal) && (tx.Hash() in all.remotes <==> !isLocal)
      ensures beats == if placed then Beaten(old(beats), old(pending), tx, clock) else old(beats)
      ensures forall a :: Run(pending, a) == old(Run(pending, a))
    {
      hide Core, Exact, Settling, Run, Shelve, TxPricedList.Single, TxListState.Accepts, Rivals, RivalsIn, OutbidsAll,
        SidesAre, Entered;
      RivalsAreKnown(this, tx);
      if Has(pending, tx.sender, tx.nonce) {
        placed := ReplacePending(tx, isLocal);
        replaced := placed;
        return;
      }
      replaced, placed := EnqueueNew(tx, isLocal);
      if !placed {
        replaced := false;
        return;
      }
      if local && tx.sender !in locals {
        MarkSender(tx, old(all.remotes).Keys);
      }
    }

    /** Makes the account of a new local transaction local. */
    method MarkSender(tx: Tx, ghost remotes: set<Hash>)
      requires Valid() && SidesAre(remotes, tx, true)
      modifies this`locals, all, priced`stales, priced`urgent, priced`floating
      ensures Valid() && locals == old(locals) + {tx.sender} && all.Known() == old(all.Known())
      ensures all.slots == old(all.slots) && SidesAre(remotes, tx, true) && tx.Hash() !in all.remotes
    {
      hide Core;
      MarkLocal(tx.sender);
    }

    /**
     `addTxsLocked`: adds transactions one by one and collects the accounts
     with new ones.  `trail` are the snapshots before and after each of them.
     */
    method AddAll(txs: seq<Tx>, local: bool)
      returns (errs: seq<Option<PoolError>>, dirty: set<Address>, ghost log: AddLog)
      requires Valid() && untracked == {}
      modifies this`pending, this`queue, this`beats, this`untracked, this`changes, this`locals, all, priced`stales,
        priced`urgent, priced`floating, pendingNonces
      ensures Valid() && untracked == {} && all.Known() <= old(all.Known()) + SeqHashes(txs)
      ensures (!local ==> locals == old(locals)) && (local ==> Localised(old(locals), locals, txs, log))
      ensures Logged(log, txs, Rules(world, maxGas, gasPrice, forks), old(locals), local, config.priceBump, Capacity())
      ensures log.errs == errs && log.trail[0] == old(Snap()) && log.Last() == Snap() && Dirtied(dirty, txs, log)
      ensures NothingGone(log.gone) ==> pendingNonces.nonces == old(pendingNonces.nonces)
      ensures forall a :: pendingNonces.Peek(a) == log.Nonce(a, old(pendingNonces.Peek(a)))
      ensures forall a :: old(ExactAt(a)) ==> ExactAt(a)
      ensures forall a :: old(SettlingAt(a)) ==> SettlingAt(a)
    {
      hide Core, ExactAt, SettlingAt, Verdict, SentBy, TxPricedList.Single, Admits, RivalsIn, NoRoom, NothingGone,
        EvictedFor, Fits, Logged, Dirtied, Lowered, CutAt;
      errs, dirty, log := [], {}, AddLog([], [Snap()], []);
      ghost var rules := Rules(world, maxGas, gasPrice, forks);
      NothingLogged(log, txs, rules, locals, local, config.priceBump, Capacity());
      for i := 0 to |txs|
        invariant Valid() && untracked == {} && all.Known() <= old(all.Known()) + SeqHashes(txs)
        invariant Logged(log, txs[..i], rules, old(locals), local, config.priceBump, Capacity()) && log.errs == errs
        invariant log.trail != [] && log.trail[0] == old(Snap()) && log.Last() == Snap()
        invariant Dirtied(dirty, txs[..i], log)
        invariant !local ==> locals == old(locals)
        invariant local ==> Localised(old(locals), locals, txs[..i], log)
        invariant NothingGone(log.gone) ==> pendingNonces.nonces == old(pendingNonces.nonces)
        invariant forall a :: pendingNonces.Peek(a) == log.Nonce(a, old(pendingNonces.Peek(a)))
        invariant forall a :: old(ExactAt(a)) ==> ExactAt(a)
        invariant forall a :: old(SettlingAt(a)) ==> SettlingAt(a)
      {
        ghost var made;
        ghost var before := locals;
        var replaced, err;
        replaced, err, made := Add(txs[i], local);
        assert txs[i].Hash() in SeqHashes(txs);
        OneMoreLogged(log, Snap(), txs, i, rules, old(locals), local, config.priceBump, Capacity(), err, made, dirty,
                      replaced);
        OneMoreLocal(old(locals), before, locals, txs, i, log, err, Snap(), made, local);
        NothingGoneSoFar(log.gone, made);
        forall a ensures pendingNonces.Peek(a) == log.Then(err, Snap(), made).Nonce(a, old(pendingNonces.Peek(a))) {
          LoweredNext(log, err, Snap(), made, a, old(pendingNonces.Peek(a)));
        }
        errs, log := errs + [err], log.Then(err, Snap(), made);
        if err.None? && !replaced {
          dirty := dirty + {txs[i].sender};
        }
      }
      assert txs[..|txs|] == txs;
    }

    /**
     `reset`: adopts the state of a new head, if it can be loaded, and reinjects
     transactions of abandoned blocks, which `log` records.
     */
    method Reset(head: Option<Head>, reinject: seq<Tx>) returns (ghost log: AddLog)
      requires Valid() && untracked == {}
      modifies this`world, this`maxGas, this`forks, this`pendingNonces, this`pending, this`queue, this`beats,
        this`untracked, this`changes, this`locals, all, priced`stales, priced`urgent, priced`floating, pendingNonces
      ensures Valid() && untracked == {} && locals == old(locals)
      ensures (pendingNonces == old(pendingNonces) || fresh(pendingNonces))
      ensures all.Known() <= old(all.Known()) + SeqHashes(reinject)
      ensures head.None? ==> world == old(world) && maxGas == old(maxGas) && log == AddLog([], [old(Snap())], [])
      ensures head.Some? ==>
        && world == head.value.world && maxGas == head.value.gasLimit && forks == head.value.forks
        && Logged(log, reinject, Rules(world, maxGas, gasPrice, old(forks)), locals, false, config.priceBump,
                  Capacity())
      ensures locals == old(locals) && gasPrice == old(gasPrice) && log.trail != []
      ensures log.trail[0] == old(Snap()) && log.Last() == Snap()
      ensures NothingGone(log.gone) ==>
        pendingNonces.nonces == if head.Some? then map[] else old(pendingNonces.nonces)
      ensures head.Some? ==> forall a :: VirtualNonce(pendingNonces.nonces, world, a) == log.Nonce(a, world.Nonce(a))
      ensures forall a :: old(ExactAt(a)) && old(world).Nonce(a) <= world.Nonce(a) ==> SettlingAt(a)
    {
      hide Core, ExactAt, SettlingAt, Verdict, Logged, Lowered, VirtualNonce;
      log := AddLog([], [Snap()], []);
      if head.None? {
        ExactAllSettle(this);
        return;
      }
      AdoptHead(head.value.world, head.value.gasLimit);
      log := Reinject(reinject);
      forks := head.value.forks;
      PeeksAtState(this);
    }

    /** The new head's state; accounts whose state nonce does not fall can be settled. */
    method AdoptHead(next: World, gasLimit: u64)
      requires Valid()
      modifies this`world, this`maxGas, this`pendingNonces
      ensures Valid() && world == next && maxGas == gasLimit && fresh(pendingNonces) && pendingNonces.nonces == map[]
      ensures forall a :: pendingNonces.Peek(a) == world.Nonce(a)
      ensures forall a :: old(ExactAt(a)) && old(world).Nonce(a) <= world.Nonce(a) ==> SettlingAt(a)
    {
      hide Served, Consistent, Exact, Settling;
      world, maxGas := next, gasLimit;
      pendingNonces := new TxNoncer(world);
      forall a | old(ExactAt(a)) && old(world).Nonce(a) <= world.Nonce(a)
        ensures SettlingAt(a)
      {
        HeadMovedOn(Run(pending, a), old(world).Nonce(a), old(pendingNonces.Peek(a)), world.Nonce(a));
      }
    }

    method Reinject(txs: seq<Tx>) returns (ghost log: AddLog)
      requires Valid() && untracked == {}
      modifies this`pending, this`queue, this`beats, this`untracked, this`changes, this`locals, all, priced`stales,
        priced`urgent, priced`floating, pendingNonces
      ensures Valid() && untracked == {} && all.Known() <= old(all.Known()) + SeqHashes(txs) && locals == old(locals)
      ensures Logged(log, txs, Rules(world, maxGas, gasPrice, forks), locals, false, config.priceBump, Capacity())
      ensures log.trail != [] && log.trail[0] == old(Snap()) && log.Last() == Snap()
      ensures NothingGone(log.gone) ==> pendingNonces.nonces == old(pendingNonces.nonces)
      ensures forall a :: pendingNonces.Peek(a) == log.Nonce(a, old(pendingNonces.Peek(a)))
      ensures forall a :: old(SettlingAt(a)) ==> SettlingAt(a)
    {
      hide Core, ExactAt, SettlingAt, Verdict, Admits, RivalsIn;
      var errs, dirty;
      errs, dirty, log := AddAll(txs, false);
    }

    /** Rebuilds the price heaps for the next block's base fee. */
    method Reprice(fee: Option<int>)
      requires Valid()
      modifies priced
      ensures Valid() && priced.Rebuilt() && priced.baseFee == if fee.Some? then fee else old(priced.baseFee)
    {
      hide Consistent, TxPricedList.Valid, TxLookup.Valid, TxPricedList.Rebuilt, TxPricedList.Single;
      if fee.Some? {
        priced.SetBaseFee(fee.value);
      } else {
        priced.Reheap();
      }
    }

    /**
     `runReorg`.  With the two shelves as they are once transactions are
     reinjected, an account becomes exact if and only if what its pending and
     due transactions leave has no gap and stops short of the last nonce;
     truncation keeps that, and only where it cuts can it undo the contrary.
     Both shelves end within their limits as far as local accounts allow.
     */
    method RunReorg(reset: Option<ResetRequest>, dirty: set<Address>)
      returns (promoted: seq<Tx>, ghost log: AddLog, ghost virtual: map<Address, u64>, ghost mid: Midway)
      requires Valid() && untracked == {}
      modifies this`world, this`maxGas, this`forks, this`pendingNonces, this`pending, this`queue, this`beats,
        this`untracked, this`changes, this`locals, all, priced, pendingNonces
      ensures Valid() && untracked == {} && locals == old(locals) && changes == 0 && log.trail != []
      ensures log.trail[0] == old(Snap()) && Truncated(mid)
      ensures reset.None? ==> |log.trail| == 1 && world == old(world) && maxGas == old(maxGas) && forks == old(forks)
      ensures reset.None? ==> forall a ::
        ItemsOf(mid.shelves.pending, a) == old(ItemsOf(pending, a)) + if a in dirty then old(DueAt(a)) else map[]
      ensures reset.None? ==> forall a ::
        ItemsOf(mid.shelves.queue, a) == if a in dirty then old(RestAt(a)) else old(ItemsOf(queue, a))
      ensures reset.None? ==> Reports(promoted, dirty, old(DuesOf(dirty))) && forall a :: a in dirty ==> IdleAt(a)
      ensures reset.Some? ==> forall a ::
        ItemsOf(mid.shelves.pending, a) == KeptAt(Gathered(log.Last(), virtual, a), a)
      ensures reset.Some? ==> forall h: Hash ::
        h in mid.shelves.known <==> Survives(log.Last(), virtual, h.preimage)
      ensures reset.Some? ==> Reports(promoted, log.Last().queue.Keys, DuesIn(log.Last(), virtual))
      ensures forall t ::
        Holds(mid.shelves.queue, t) <==> t.Hash() in mid.shelves.known && !Holds(mid.shelves.pending, t)
      ensures priced.baseFee
        == if reset.Some? && reset.value.newHead && reset.value.baseFee.Some? then reset.value.baseFee
           else old(priced.baseFee)
      ensures reset.Some? ==> ResetLogged(reset.value, log, virtual, old(forks), old(pendingNonces.nonces))
      ensures reset.Some? ==> forall a :: SoundAt(Gathered(log.Last(), virtual, a), a) ==> ExactAt(a)
      ensures reset.Some? ==> forall a :: !SoundAt(Gathered(log.Last(), virtual, a), a) ==>
        (Run(pending, a) == KeptAt(Gathered(log.Last(), virtual, a), a).Keys ==> !ExactAt(a))
      ensures reset.Some? && old(RoomFor(reset.value)) ==>
        log.Last() == old(Ahead(reset.value)) && virtual == old(VirtualAhead(reset.value))
      ensures reset.Some? && old(RoomFor(reset.value)) ==> forall a :: old(FallsIn(reset.value, a)) ==>
        && (ClosesGap(old(Ahead(reset.value)), old(world).Nonce(a), a) ==> ExactAt(a))
        && (!ClosesGap(old(Ahead(reset.value)), old(world).Nonce(a), a) ==>
              (Run(pending, a) == KeptAt(Gathered(log.Last(), virtual, a), a).Keys ==> !ExactAt(a)))
      ensures reset.None? ==> forall a :: old(ExactAt(a)) && !(a in dirty && MAX_U64 in old(DueAt(a))) ==> ExactAt(a)
      ensures forall a :: MAX_U64 in Run(pending, a) ==> !ExactAt(a)
      ensures forall a :: old(ExactAt(a)) && old(world).Nonce(a) <= world.Nonce(a) ==>
        (BelowLast(old(all.Known()), a) && (reset.Some? ==> BelowLast(SeqHashes(reset.value.reinject), a)) ==>
           ExactAt(a))
      ensures Total(pending) <= config.globalSlots || forall a :: a in pending && a !in locals ==>
        Size(pending, a) <= config.accountSlots
      ensures Total(queue) <= config.globalQueue || forall a :: a in queue ==> a in locals
    {
      hide Core, ExactAt, SettlingAt, Total, Size, Tidy, IdleAt, SoundAt, Gathered, DueAt, RestAt, BelowLast, Doomed,
        KeptAt, Logged, DueList, DueOf, DuesOf, DuesIn, Reports, RoomFor, Ahead, VirtualAhead, FallsIn, ClosesGap,
        ResetLogged, Survives, NextAt, TxPricedList.Rebuilt, Truncated, LeftIn, ItemsOf, Holds, TxLookup.Known;
      log, virtual := AddLog([], [Snap()], []), map[];
      if reset.Some? {
        promoted, log, virtual := ReorgToHead(reset.value);
      } else {
        promoted := PromoteDirty(dirty);
      }
      mid := Midway(Snap(), beats);
      AllShelved(this);
      RunsAreKeys(pending);
      TruncateAll();
      LastNeverExact(this);
    }

    /** The part of `runReorg` without a change of head. */
    method PromoteDirty(dirty: set<Address>) returns (promoted: seq<Tx>)
      requires Valid()
      modifies this`pending, this`queue, this`beats, all, priced`stales, priced`urgent, priced`floating, pendingNonces
      ensures Valid() && Reports(promoted, dirty, old(DuesOf(dirty))) && forall a :: a in dirty ==> IdleAt(a)
      ensures forall a ::
        ItemsOf(pending, a) == old(ItemsOf(pending, a)) + if a in dirty then old(DueAt(a)) else map[]
      ensures forall a :: ItemsOf(queue, a) == if a in dirty then old(RestAt(a)) else old(ItemsOf(queue, a))
      ensures forall a :: old(ExactAt(a)) && !(a in dirty && MAX_U64 in old(DueAt(a))) ==> ExactAt(a)
      ensures forall a :: old(ExactAt(a)) && BelowLast(old(all.Known()), a) ==> ExactAt(a)
    {
      hide Core, ExactAt, SettlingAt, Tidy, IdleAt, DueAt, RestAt, BelowLast, Doomed, DueList, DueOf, DuesOf, Reports,
        ItemsOf;
      AllBelowLast(this);
      var accounts := ToSeq(dirty);
      ListsDirty(this, accounts, dirty);
      promoted := PromoteExecutables(accounts);
    }

    /** Brings both shelves within their limits.  Exact accounts stay exact, and others can become so only by a cut. */
    method TruncateAll()
      requires Valid()
      modifies this`pending, this`queue, this`beats, this`changes, all, priced`stales, priced`urgent, priced`floating,
        pendingNonces
      ensures Valid() && changes == 0
      ensures forall a :: old(ExactAt(a)) ==> ExactAt(a)
      ensures forall a :: Run(pending, a) == old(Run(pending, a)) ==> (ExactAt(a) <==> old(ExactAt(a)))
      ensures Truncated(old(Midway(Snap(), beats))) && forall a :: old(IdleAt(a)) ==> IdleAt(a)
      ensures Total(pending) <= config.globalSlots || forall a :: a in pending && a !in locals ==>
        Size(pending, a) <= config.accountSlots
      ensures Total(queue) <= config.globalQueue || forall a :: a in queue ==> a in locals
    {
      hide Core, Exact, Total, Levelled, EldestDropped, CutBack, Run;
      ghost var settled, waiting := pending, queue;
      var count, offenders := TruncatePending();
      SameRunSameSize(settled, pending);
      assert forall a :: Run(pending, a) == Run(settled, a) ==> (ExactAt(a) <==> old(ExactAt(a)));
      TruncateQueue();
      FewerQueued(waiting, queue, locals, old(beats));
      changes := 0;
    }

    /** What truncation makes of the shelves: of both the highest nonces go, and nothing if they are in their limits. */
    ghost predicate Truncated(mid: Midway)
      reads this`pending, this`queue, this`locals
    {
      && CutBack(mid.shelves.pending, pending)
      && (exists level :: Levelled(mid.shelves.pending, pending, locals, config.accountSlots, level))
      && (Total(mid.shelves.pending) <= config.globalSlots ==> pending == mid.shelves.pending)
      && EldestDropped(mid.shelves.queue, queue, locals, mid.beats)
      && (if Total(mid.shelves.queue) <= config.globalQueue then queue == mid.shelves.queue
          else
            || Total(queue) == config.globalQueue
            || (Total(queue) > config.globalQueue && forall a :: a in queue ==> a in locals))
    }

    /** The part of `runReorg` that follows a change of head. */
    method ReorgToHead(reset: ResetRequest)
      returns (promoted: seq<Tx>, ghost log: AddLog, ghost virtual: map<Address, u64>)
      requires Valid() && untracked == {}
      modifies this`world, this`maxGas, this`forks, this`pendingNonces, this`pending, this`queue, this`beats,
        this`untracked, this`changes, this`locals, all, priced, pendingNonces
      ensures Valid() && untracked == {} && locals == old(locals)
      ensures (pendingNonces == old(pendingNonces) || fresh(pendingNonces))
      ensures log.trail != [] && log.trail[0] == old(Snap())
      ensures ResetLogged(reset, log, virtual, old(forks), old(pendingNonces.nonces))
      ensures forall a :: ItemsOf(pending, a) == KeptAt(Gathered(log.Last(), virtual, a), a)
      ensures forall h: Hash :: h in all.Known() <==> Survives(log.Last(), virtual, h.preimage)
      ensures Reports(promoted, log.Last().queue.Keys, DuesIn(log.Last(), virtual))
      ensures Priced(reset, old(priced.baseFee)) && forall a :: pendingNonces.Peek(a) == NextAt(a)
      ensures forall a :: ExactAt(a) <==> SoundAt(Gathered(log.Last(), virtual, a), a)
      ensures old(RoomFor(reset)) ==> log.Last() == old(Ahead(reset)) && virtual == old(VirtualAhead(reset))
      ensures old(RoomFor(reset)) ==> forall a :: old(FallsIn(reset, a)) ==>
        (ExactAt(a) <==> ClosesGap(old(Ahead(reset)), old(world).Nonce(a), a))
      ensures forall a :: old(ExactAt(a)) && old(world).Nonce(a) <= world.Nonce(a) ==>
        (BelowLast(old(all.Known()), a) && BelowLast(SeqHashes(reset.reinject), a) ==> ExactAt(a))
    {
      hide Core, ExactAt, SettlingAt, GaplessAt, KeptAt, Gathered, SoundAt, BelowLast, Logged, Ahead, ClosesGap,
        FallsIn, DuesIn, Reports, ResetLogged, ItemsOf, VirtualAhead, RoomFor, Survives, Priced, NextAt;
      log := ResetTo(reset);
      virtual := pendingNonces.nonces;
      StillBelowLast(old(all.Known()), all.Known(), reset.reinject);
      promoted := SettleAll(reset);
    }

    /** The promotion and demotion that follow a reset. */
    method SettleAll(reset: ResetRequest) returns (promoted: seq<Tx>)
      requires Valid()
      modifies this`pending, this`queue, this`beats, all, priced, pendingNonces
      ensures Valid() && Priced(reset, old(priced.baseFee)) && forall a :: pendingNonces.Peek(a) == NextAt(a)
      ensures forall a :: ItemsOf(pending, a) == KeptAt(Gathered(old(Snap()), old(pendingNonces.nonces), a), a)
      ensures forall h: Hash :: h in all.Known() <==> Survives(old(Snap()), old(pendingNonces.nonces), h.preimage)
      ensures Reports(promoted, old(queue).Keys, DuesIn(old(Snap()), old(pendingNonces.nonces)))
      ensures forall a :: ExactAt(a) <==> SoundAt(Gathered(old(Snap()), old(pendingNonces.nonces), a), a)
      ensures forall a :: old(SettlingAt(a)) && BelowLast(old(all.Known()), a) ==> ExactAt(a)
    {
      hide Core, ExactAt, SettlingAt, GaplessAt, KeptAt, Gathered, SoundAt, BelowLast, DuesIn, Reports, ItemsOf, LeftIn,
        Survives, Hopeless, Priced, NextAt;
      ghost var s, virtual := Snap(), pendingNonces.nonces;
      promoted := PromoteAll();
      SurvivorsAre(this, s, virtual);
      FewerBelowLast(s.known, all.Known());
      SettleAtHead(reset);
    }

    /** `reset`, with what becomes of the accounts whose state nonce falls. */
    method ResetTo(reset: ResetRequest) returns (ghost log: AddLog)
      requires Valid() && untracked == {}
      modifies this`world, this`maxGas, this`forks, this`pendingNonces, this`pending, this`queue, this`beats,
        this`untracked, this`changes, this`locals, all, priced`stales, priced`urgent, priced`floating, pendingNonces
      ensures Valid() && untracked == {} && locals == old(locals)
      ensures all.Known() <= old(all.Known()) + SeqHashes(reset.reinject)
      ensures (pendingNonces == old(pendingNonces) || fresh(pendingNonces))
      ensures log.trail != [] && log.trail[0] == old(Snap()) && log.Last() == Snap()
      ensures ResetLogged(reset, log, pendingNonces.nonces, old(forks), old(pendingNonces.nonces))
      ensures old(RoomFor(reset)) ==> Snap() == old(Ahead(reset)) && pendingNonces.nonces == old(VirtualAhead(reset))
      ensures old(RoomFor(reset)) ==> forall a :: old(FallsIn(reset, a)) ==>
        (SoundAt(Gathered(Snap(), pendingNonces.nonces, a), a) <==> ClosesGap(Snap(), old(world).Nonce(a), a))
      ensures forall a :: old(ExactAt(a)) && old(world).Nonce(a) <= world.Nonce(a) ==> SettlingAt(a)
    {
      hide Core, ExactAt, SettlingAt, Gathered, SoundAt, Logged, ClosesGap, Verdict, TakingAll, Exact, Run, FallsIn,
        Lowered;
      SlotsAreKnown(this);
      FallingAre(this, reset);
      ghost var before := Snap();
      ghost var rules := Rules(world, maxGas, gasPrice, forks);
      log := Reset(reset.head, reset.reinject);
      if reset.head.Some? && old(RoomFor(reset)) {
        rules := Rules(world, maxGas, gasPrice, old(forks));
        AllTaken(log, reset.reinject, rules, locals, config.priceBump, Capacity());
        TakingKeepsRuns(before, reset.reinject, rules, locals, config.priceBump);
        forall a | old(FallsIn(reset, a))
          ensures SoundAt(Gathered(Snap(), pendingNonces.nonces, a), a) <==>
            ClosesGap(Snap(), old(world).Nonce(a), a)
        {
          FallenSoundAt(this, a, old(world).Nonce(a), old(pendingNonces.Peek(a)));
        }
      }
    }

    /** There is room for every reinjected transaction. */
    ghost predicate RoomFor(reset: ResetRequest)
      reads all
    {
      reset.head.Some? ==> all.slots + TotalSlots(reset.reinject) <= Capacity()
    }

    /** The shelves at the new head, before any promotion, when there is room for what is reinjected. */
    ghost function Ahead(reset: ResetRequest): Snapshot
      reads this`pending, this`queue, this`gasPrice, this`forks, this`locals, all
    {
      if reset.head.None? then Snap()
      else
        var rules := Rules(reset.head.value.world, reset.head.value.gasLimit, gasPrice, forks);
        TakingAll(Snap(), reset.reinject, rules, locals, config.priceBump)
    }

    ghost function VirtualAhead(reset: ResetRequest): map<Address, u64>
      reads this`pendingNonces, pendingNonces
    {
      if reset.head.None? then pendingNonces.nonces else map[]
    }

    /** An account with exact pending transactions has a lower nonce in the new head's state. */
    ghost predicate FallsIn(reset: ResetRequest, a: Address)
      reads this`pending, this`world, this`pendingNonces, pendingNonces
    {
      a in pending && ExactAt(a) && reset.head.Some? && reset.head.value.world.Nonce(a) < world.Nonce(a)
    }

    /** Promotes what is executable for every account with queued transactions. */
    method PromoteAll() returns (promoted: seq<Tx>)
      requires Valid()
      modifies this`pending, this`queue, this`beats, all, priced`stales, priced`urgent, priced`floating, pendingNonces
      ensures Valid() && all.Known() <= old(all.Known())
      ensures forall a :: ItemsOf(pending, a) == Gathered(old(Snap()), old(pendingNonces.nonces), a)
      ensures forall a :: ItemsOf(queue, a) == LeftIn(old(Snap()), old(pendingNonces.nonces), a)
      ensures Reports(promoted, old(queue).Keys, DuesIn(old(Snap()), old(pendingNonces.nonces)))
      ensures forall a :: old(SettlingAt(a)) ==> GaplessAt(a)
    {
      hide Core, ExactAt, SettlingAt, GaplessAt, Tidy, IdleAt, Doomed, Gathered, LeftIn, DueAt, RestAt, DueOf, DueList,
        ItemsOf, DuesIn;
      GatheredAt(this);
      var accounts := ToSeq(queue.Keys);
      ListsThem(this, accounts);
      promoted := PromoteExecutables(accounts);
      SettlingAllGapless(this);
    }

    /** What the reinjection of a head change did, and the virtual nonces it left. */
    ghost predicate ResetLogged(reset: ResetRequest, log: AddLog, virtual: map<Address, u64>, was: Forks,
                                nonces: map<Address, u64>)
      reads this`world, this`maxGas, this`gasPrice, this`locals
    {
      && (if reset.head.None? then |log.trail| == 1 && log.gone == []
          else
            && world == reset.head.value.world && maxGas == reset.head.value.gasLimit
            && Logged(log, reset.reinject, Rules(world, maxGas, gasPrice, was), locals, false, config.priceBump,
                      Capacity())
            && forall a :: VirtualNonce(virtual, world, a) == log.Nonce(a, world.Nonce(a)))
      && (NothingGone(log.gone) ==>
            virtual == if reset.head.Some? then map[] else nonces)
    }

    /** Demotes what the new state makes unexecutable, rebuilds the price heaps and sets all virtual nonces. */
    method SettleAtHead(reset: ResetRequest)
      requires Valid()
      modifies this`pending, this`queue, this`beats, all, priced, pendingNonces
      ensures Valid() && all.Known() <= old(all.Known())
      ensures forall a :: ItemsOf(pending, a) == KeptAt(old(ItemsOf(pending, a)), a)
      ensures forall h :: h in all.Known() <==> h in old(all.Known()) && !Hopeless(old(pending), h.preimage)
      ensures forall a :: pendingNonces.Peek(a) == NextAt(a)
      ensures Priced(reset, old(priced.baseFee))
      ensures forall a :: ExactAt(a) <==> SoundAt(old(ItemsOf(pending, a)), a)
      ensures forall a :: old(GaplessAt(a)) && BelowLast(old(all.Known()), a) ==> ExactAt(a)
    {
      hide Core, ExactAt, DemotedAt, Hopeless, KeptAt, BelowLast, Gapless, TxPricedList.Rebuilt, NextAt;
      ghost var before := pending;
      AllBelowLast(this);
      DemoteUnexecutables();
      if reset.newHead {
        Reprice(reset.baseFee);
      }
      SettleNonces();
      SettledIffSound(this, before);
    }

    /** A new head gives the heaps its base fee and has them rebuilt. */
    ghost predicate Priced(reset: ResetRequest, was: Option<int>)
      reads priced, all, priced.all
    {
      && priced.baseFee == (if reset.newHead && reset.baseFee.Some? then reset.baseFee else was)
      && (reset.newHead ==> priced.Rebuilt())
    }

    /** Demotion leaves no gap of these transactions and not the last 64-bit nonce. */
    ghost predicate SoundAt(m: Items, a: Address)
      reads this`world, this`maxGas
    {
      Gapless(KeptAt(m, a).Keys, world.Nonce(a)) && MAX_U64 !in KeptAt(m, a)
    }

    /** What promotion adds at a fallen state nonce leaves no gap below the run that began at `was`. */
    ghost predicate ClosesGap(s: Snapshot, was: u64, a: Address)
      reads this`world, this`maxGas
    {
      var due := Due(s.queue, a, world.Nonce(a));
      || due == map[] || (was > 0 && was - 1 in due)
      || Priceless(Gathered(s, map[], a), was, world.Balance(a), maxGas)
    }

    /** What promotion leaves in an account's queue. */
    ghost function LeftIn(s: Snapshot, virtual: map<Address, u64>, a: Address): Items
      reads this`world, this`maxGas, this`locals
    {
      RestOf(s.queue, a, VirtualNonce(virtual, world, a))
    }

    /** What promotion takes from each queue. */
    ghost function DuesIn(s: Snapshot, virtual: map<Address, u64>): map<Address, Items>
      reads this`world, this`maxGas
    {
      map a | a in s.queue :: Due(s.queue, a, VirtualNonce(virtual, world, a))
    }

    ghost function DuesOf(accounts: set<Address>): map<Address, Items>
      reads this`queue, this`world, this`maxGas, this`pendingNonces, pendingNonces
    {
      map a | a in accounts :: DueAt(a)
    }

    /** Known after a change of head: due or left in a queue, or pending before and not doomed. */
    ghost predicate Survives(s: Snapshot, virtual: map<Address, u64>, tx: Tx)
      reads this`world, this`maxGas, this`locals
    {
      || (Stores(Gathered(s, virtual, tx.sender), tx) && !Doomed(tx))
      || Stores(LeftIn(s, virtual, tx.sender), tx)
    }

    /** What an account has pending, and what its queue is due to add to it. */
    ghost function Gathered(s: Snapshot, virtual: map<Address, u64>, a: Address): Items
      reads this`world, this`maxGas
    {
      ItemsOf(s.pending, a) + Due(s.queue, a, VirtualNonce(virtual, world, a))
    }
  }

  /** The queues that are still to be looked at, local or have had a heartbeat within the lifetime. */
  function Recent(queue: Shelf, todo: set<Address>, locals: set<Address>, beats: map<Address, nat>, clock: nat,
                  lifetime: nat): Shelf
    requires queue.Keys <= beats.Keys
  {
    map a | a in queue && (a in todo || a in locals || clock - beats[a] <= lifetime) :: queue[a]
  }

  lemma NoneWaiting(queue: Shelf, locals: set<Address>, beats: map<Address, nat>, clock: nat, lifetime: nat)
    requires queue.Keys <= beats.Keys
    ensures Recent(queue, {}, locals, beats, clock, lifetime)
      == map a | a in queue && (a in locals || clock - beats[a] <= lifetime) :: queue[a]
  {
  }

  lemma AllWaiting(queue: Shelf, locals: set<Address>, beats: map<Address, nat>, clock: nat, lifetime: nat)
    requires queue.Keys <= beats.Keys
    ensures Recent(queue, queue.Keys, locals, beats, clock, lifetime) == queue
  {
  }

  lemma NextWaiting(queue: Shelf, todo: set<Address>, locals: set<Address>, beats: map<Address, nat>, clock: nat,
                    lifetime: nat, a: Address)
    requires queue.Keys <= beats.Keys && a in todo && todo <= queue.Keys
    ensures var now, next := Recent(queue, todo, locals, beats, clock, lifetime), Recent(queue, todo - {a}, locals,
                                    beats, clock, lifetime);
      a in now && (if a in locals || clock - beats[a] <= lifetime then next == now else next == now - {a})
  {
  }

  /** What a transaction is validated against. */
  datatype Rules = Rules(world: World, maxGas: u64, gasPrice: nat, forks: Forks)

  /** `validateTx`: the first rule a transaction breaks. */
  function Verdict(rules: Rules, tx: Tx, local: bool): Option<PoolError>
  {
    var charge := Charge(tx.payload, true, rules.forks.istanbul);
    if !rules.forks.eip2718 && tx.kind != Legacy then Some(TypeNotSupported)
    else if !rules.forks.eip1559 && tx.kind == DynamicFee then Some(TypeNotSupported)
    else if tx.size > MAX_TX_SIZE then Some(OversizedData)
    else if tx.value < 0 then Some(NegativeValue)
    else if rules.maxGas < tx.gas then Some(GasLimitExceeded)
    else if tx.feeCap >= TWO_256 then Some(FeeCapVeryHigh)
    else if tx.tipCap >= TWO_256 then Some(TipVeryHigh)
    else if tx.feeCap < tx.tipCap then Some(TipAboveFeeCap)
    else if !tx.signed then Some(InvalidSender)
    else if !local && tx.tipCap < rules.gasPrice then Some(UnderpricedTx)
    else if rules.world.Nonce(tx.sender) > tx.nonce then Some(NonceTooLow)
    else if rules.world.Balance(tx.sender) < tx.Cost() then Some(InsufficientFunds)
    else if charge.None? then Some(GasOverflow)
    else if tx.gas < charge.value then Some(TooLittleGas)
    else None
  }

  /** What is on the shelves of a pool, and the hashes it knows. */
  datatype Snapshot = Snapshot(pending: Shelf, queue: Shelf, known: set<Hash>)

  predicate SamePlace(t: Tx, tx: Tx) {
    t.sender == tx.sender && t.nonce == tx.nonce
  }

  /** The known transactions of the same account and nonce. */
  ghost function RivalsIn(known: set<Hash>, tx: Tx): set<Hash> {
    set h | h in known && SamePlace(h.preimage, tx)
  }

  ghost predicate OutbidsAll(known: set<Hash>, tx: Tx, bump: nat) {
    forall h :: h in RivalsIn(known, tx) ==> Outbids(h.preimage, tx, bump)
  }

  /** The transaction stands where its pending rival stood, or in the queue. */
  predicate PutInPlace(pending0: Shelf, queue0: Shelf, pending: Shelf, queue: Shelf, tx: Tx) {
    if Has(pending0, tx.sender, tx.nonce) then pending == Shelve(pending0, tx, true) && queue == queue0
    else pending == pending0 && queue == Shelve(queue0, tx, false)
  }

  /** Accepted and, with no pending transaction of its nonce left, put into the queue. */
  ghost predicate NewlyQueued(tx: Tx, err: Option<PoolError>, made: Clearing) {
    err.None? && !Has(made.left.pending, tx.sender, tx.nonce)
  }

  /** A pending replacement is a heartbeat of its account, and so is its first queued transaction. */
  function Beaten(beats: map<Address, nat>, pending: Shelf, tx: Tx, clock: nat): map<Address, nat> {
    if Has(pending, tx.sender, tx.nonce) || tx.sender !in beats then beats[tx.sender := clock] else beats
  }

  /** What was done for room: the evicted, the refusal if there was no room, and the shelves that were left. */
  datatype Clearing = Clearing(evicted: set<Hash>, refusal: Option<PoolError>, left: Snapshot)

  /**
   What adding a transaction does, with the verdict of the validation: known and
   invalid ones change nothing.  For the others room is made or refused, and
   then they are accepted exactly when they outbid every rival left; what is
   left stays as it is but for the rivals.
   */
  ghost predicate Admits(s: Snapshot, t: Snapshot, tx: Tx, invalid: Option<PoolError>, bump: nat, capacity: nat,
                         err: Option<PoolError>, made: Clearing) {
    && (err == Some(AlreadyKnown) <==> tx.Hash() in s.known)
    && (tx.Hash() !in s.known && invalid.Some? ==> err == invalid)
    && (tx.Hash() in s.known || invalid.Some? ==> t == s && made == Clearing({}, None, s))
    && (tx.Hash() !in s.known && invalid.None? ==>
          && Cleared(s, made.left, made.evicted) && Competes(made.left, t, tx, bump, err, made)
          && (made.refusal.Some? ==> made.evicted == {} && made.left == s)
          && (SlotSum(s.known) + tx.Slots() <= capacity ==> made == Clearing({}, None, s)))
  }

  /** With the given shelves left, a transaction is refused for room, or for a rival it does not outbid, or placed. */
  ghost predicate Competes(left: Snapshot, t: Snapshot, tx: Tx, bump: nat, err: Option<PoolError>, made: Clearing) {
    if made.refusal.Some? then
      made.refusal.value in {UnderpricedTx, PoolOverflow} && err == made.refusal && t == left
    else if !OutbidsAll(left.known, tx, bump) then err == Some(ReplaceUnderpriced) && t == left
    else
      && err.None? && PutInPlace(left.pending, left.queue, t.pending, t.queue, tx)
      && t.known == left.known - RivalsIn(left.known, tx) + {tx.Hash()}
  }

  ghost predicate NothingGone(gone: seq<Clearing>) {
    forall i :: 0 <= i < |gone| ==> gone[i].evicted == {}
  }

  lemma NothingGoneSoFar(gone: seq<Clearing>, made: Clearing)
    ensures NothingGone(gone + [made]) ==> NothingGone(gone) && made.evicted == {}
  {
    var all := gone + [made];
    assert all[|gone|] == made && forall i :: 0 <= i < |gone| ==> all[i] == gone[i];
  }

  /** A virtual nonce lowered by the evictions for transactions added one after the other. */
  ghost function Lowered(trail: seq<Snapshot>, gone: seq<Clearing>, a: Address, p: int): int {
    if gone == [] || |trail| < |gone| then p
    else
      var last := |gone| - 1;
      Min(Lowered(trail, gone[..last], a, p), CutAt(trail[last].pending, gone[last].evicted, a))
  }

  lemma {:induction false} LoweredBefore(trail: seq<Snapshot>, snap: Snapshot, gone: seq<Clearing>, a: Address, p: int)
    requires |gone| <= |trail|
    ensures Lowered(trail + [snap], gone, a, p) == Lowered(trail, gone, a, p)
  {
    if gone != [] {
      LoweredBefore(trail, snap, gone[..|gone| - 1], a, p);
    }
  }

  lemma LoweredNext(log: AddLog, err: Option<PoolError>, snap: Snapshot, made: Clearing, a: Address, p: int)
    requires |log.trail| == |log.gone| + 1
    ensures var next := log.Then(err, snap, made);
      Lowered(next.trail, next.gone, a, p)
        == Min(Lowered(log.trail, log.gone, a, p), CutAt(log.Last().pending, made.evicted, a))
  {
    var next := log.Then(err, snap, made);
    assert next.gone[..|log.gone|] == log.gone;
    LoweredBefore(log.trail, snap, log.gone, a, p);
  }

  /** The errors, the snapshots around and the evictions of transactions added one after the other. */
  datatype AddLog = AddLog(errs: seq<Option<PoolError>>, trail: seq<Snapshot>, gone: seq<Clearing>) {
    function Last(): Snapshot
      requires trail != []
    {
      trail[|trail| - 1]
    }

    /** An account's virtual nonce after the evictions. */
    ghost function Nonce(a: Address, p: u64): int {
      Lowered(trail, gone, a, p)
    }

    function Then(err: Option<PoolError>, snap: Snapshot, made: Clearing): AddLog {
      AddLog(errs + [err], trail + [snap], gone + [made])
    }
  }

  /** A log of transactions added under the given rules. */
  ghost predicate Logged(log: AddLog, txs: seq<Tx>, rules: Rules, locals: set<Address>, local: bool, bump: nat,
                         capacity: nat)
    ensures Logged(log, txs, rules, locals, local, bump, capacity) ==> log.trail != []
  {
    && |log.errs| == |log.gone| == |txs| && |log.trail| == |txs| + 1
    && forall i :: 0 <= i < |txs| ==>
         Admits(log.trail[i], log.trail[i + 1], txs[i], Verdict(rules, txs[i], local || SentBy(txs[i], locals)),
                bump, capacity, log.errs[i], log.gone[i])
  }

  /** A transaction accepted without replacing another one. */
  ghost predicate Appended(log: AddLog, i: nat, tx: Tx) {
    && i < |log.errs| && i < |log.gone| && i < |log.trail|
    && log.errs[i].None? && RivalsIn(log.gone[i].left.known, tx) == {}
  }

  /** The accounts to look at next are those with a transaction that replaced none. */
  ghost predicate Dirtied(dirty: set<Address>, txs: seq<Tx>, log: AddLog) {
    && (forall a :: a in dirty ==> exists i :: 0 <= i < |txs| && txs[i].sender == a && Appended(log, i, txs[i]))
    && (forall i :: 0 <= i < |txs| && Appended(log, i, txs[i]) ==> txs[i].sender in dirty)
  }

  /** The accounts that become local are those with a newly queued transaction. */
  ghost predicate Localised(before: set<Address>, after: set<Address>, txs: seq<Tx>, log: AddLog) {
    && |txs| == |log.errs| == |log.gone| && before <= after
    && (forall a :: a in after && a !in before ==>
          exists i :: 0 <= i < |txs| && txs[i].sender == a && NewlyQueued(txs[i], log.errs[i], log.gone[i]))
    && (forall i :: 0 <= i < |txs| && NewlyQueued(txs[i], log.errs[i], log.gone[i]) ==> txs[i].sender in after)
  }

  lemma OneMoreLocal(start: set<Address>, before: set<Address>, after: set<Address>, txs: seq<Tx>, i: nat, log: AddLog,
                     err: Option<PoolError>, snap: Snapshot, made: Clearing, local: bool)
    requires i < |txs| && (local ==> Localised(start, before, txs[..i], log))
    requires after == before + if local && NewlyQueued(txs[i], err, made) then {txs[i].sender} else {}
    ensures local ==> Localised(start, after, txs[..i + 1], log.Then(err, snap, made))
  {
    hide NewlyQueued;
    var next, shorter, longer := log.Then(err, snap, made), txs[..i], txs[..i + 1];
    assert forall j :: 0 <= j < i ==> shorter[j] == longer[j];
    if local {
      assert forall j :: 0 <= j < i ==> next.errs[j] == log.errs[j] && next.gone[j] == log.gone[j];
      forall a | a in after && a !in start
        ensures exists j :: 0 <= j <= i && longer[j].sender == a && NewlyQueued(longer[j], next.errs[j], next.gone[j])
      {
        if a in before {
          var j :| 0 <= j < i && shorter[j].sender == a && NewlyQueued(shorter[j], log.errs[j], log.gone[j]);
          assert longer[j].sender == a && NewlyQueued(longer[j], next.errs[j], next.gone[j]);
        } else {
          assert longer[i].sender == a && NewlyQueued(longer[i], next.errs[i], next.gone[i]);
        }
      }
    }
  }

  lemma NothingLogged(log: AddLog, txs: seq<Tx>, rules: Rules, locals: set<Address>, local: bool, bump: nat,
                      capacity: nat)
    requires |log.trail| == 1 && log.errs == [] && log.gone == []
    ensures Logged(log, txs[..0], rules, locals, local, bump, capacity) && Dirtied({}, txs[..0], log)
    ensures forall a, p :: log.Nonce(a, p) == p
  {
  }

  lemma OneMoreLogged(log: AddLog, snap: Snapshot, txs: seq<Tx>, i: nat, rules: Rules, locals: set<Address>,
                      local: bool, bump: nat, capacity: nat, err: Option<PoolError>, made: Clearing,
                      dirty: set<Address>, replaced: bool)
    requires i < |txs| && Logged(log, txs[..i], rules, locals, local, bump, capacity) && Dirtied(dirty, txs[..i], log)
    requires Admits(log.Last(), snap, txs[i], Verdict(rules, txs[i], local || SentBy(txs[i], locals)), bump, capacity,
                    err, made)
    requires err.None? ==> (replaced <==> RivalsIn(made.left.known, txs[i]) != {})
    ensures Logged(log.Then(err, snap, made), txs[..i + 1], rules, locals, local, bump, capacity)
    ensures |log.trail| == |log.gone| + 1 && snap.known <= log.Last().known + {txs[i].Hash()}
    ensures var more := if err.None? && !replaced then dirty + {txs[i].sender} else dirty;
      Dirtied(more, txs[..i + 1], log.Then(err, snap, made))
  {
    hide Admits, Verdict, RivalsIn, SentBy;
    AdmitsKnown(log.Last(), snap, txs[i], Verdict(rules, txs[i], local || SentBy(txs[i], locals)), bump, capacity, err,
                made);
    var next, shorter, longer := log.Then(err, snap, made), txs[..i], txs[..i + 1];
    assert forall j :: 0 <= j < i ==> shorter[j] == longer[j];
    assert forall j :: 0 <= j < i ==> (Appended(next, j, longer[j]) <==> Appended(log, j, shorter[j]));
    assert longer[i] == txs[i] && (Appended(next, i, longer[i]) <==> err.None? && !replaced);
    forall a | a in dirty
      ensures exists j :: 0 <= j < |longer| && longer[j].sender == a && Appended(next, j, longer[j])
    {
      var j :| 0 <= j < |shorter| && shorter[j].sender == a && Appended(log, j, shorter[j]);
      assert longer[j].sender == a && Appended(next, j, longer[j]);
    }
  }

  /** What adding a remote transaction there is room for makes of the shelves. */
  ghost function Taking(s: Snapshot, tx: Tx, rules: Rules, locals: set<Address>, bump: nat): Snapshot {
    if tx.Hash() in s.known || Verdict(rules, tx, SentBy(tx, locals)).Some? || !OutbidsAll(s.known, tx, bump) then s
    else
      var known := s.known - RivalsIn(s.known, tx) + {tx.Hash()};
      if Has(s.pending, tx.sender, tx.nonce) then Snapshot(Shelve(s.pending, tx, true), s.queue, known)
      else Snapshot(s.pending, Shelve(s.queue, tx, false), known)
  }

  ghost function TakingAll(s: Snapshot, txs: seq<Tx>, rules: Rules, locals: set<Address>, bump: nat): Snapshot {
    if txs == [] then s
    else Taking(TakingAll(s, txs[..|txs| - 1], rules, locals, bump), txs[|txs| - 1], rules, locals, bump)
  }

  lemma TakesFitting(s: Snapshot, t: Snapshot, tx: Tx, rules: Rules, locals: set<Address>, bump: nat, capacity: nat,
                     err: Option<PoolError>, made: Clearing)
    requires Admits(s, t, tx, Verdict(rules, tx, SentBy(tx, locals)), bump, capacity, err, made)
    requires SlotSum(s.known) + tx.Slots() <= capacity
    ensures t == Taking(s, tx, rules, locals, bump) && made.evicted == {}
    ensures SlotSum(t.known) <= SlotSum(s.known) + tx.Slots()
  {
    hide Verdict, Shelve, SentBy, Cleared;
    var rest := s.known - RivalsIn(s.known, tx);
    SlotSumGrows(rest, s.known);
    if tx.Hash() !in s.known {
      SlotSumMore(rest, tx.Hash());
    }
  }

  /** With room for all of them, added transactions make of the shelves what their list says. */
  lemma {:induction false} TakesAllFitting(log: AddLog, txs: seq<Tx>, rules: Rules, locals: set<Address>, bump: nat,
                                           capacity: nat, i: nat)
    requires Logged(log, txs, rules, locals, false, bump, capacity) && i <= |txs|
    requires SlotSum(log.trail[0].known) + TotalSlots(txs) <= capacity
    ensures log.trail[i] == TakingAll(log.trail[0], txs[..i], rules, locals, bump)
    ensures SlotSum(log.trail[i].known) <= SlotSum(log.trail[0].known) + TotalSlots(txs[..i])
    ensures forall j :: 0 <= j < i ==> log.gone[j].evicted == {}
  {
    hide Admits, Taking, Verdict, SentBy;
    if i > 0 {
      TakesAllFitting(log, txs, rules, locals, bump, capacity, i - 1);
      EvictOne(txs, i - 1, {});
      SomeSlots(txs, i);
      assert txs[..i][..i - 1] == txs[..i - 1];
      TakesFitting(log.trail[i - 1], log.trail[i], txs[i - 1], rules, locals, bump, capacity, log.errs[i - 1],
                   log.gone[i - 1]);
    } else {
      NoSlots();
    }
  }

  lemma AllTaken(log: AddLog, txs: seq<Tx>, rules: Rules, locals: set<Address>, bump: nat, capacity: nat)
    requires Logged(log, txs, rules, locals, false, bump, capacity)
    requires SlotSum(log.trail[0].known) + TotalSlots(txs) <= capacity
    ensures log.Last() == TakingAll(log.trail[0], txs, rules, locals, bump) && NothingGone(log.gone)
  {
    TakesAllFitting(log, txs, rules, locals, bump, capacity, |txs|);
    assert txs[..|txs|] == txs;
  }

  lemma {:induction false} SomeSlots(txs: seq<Tx>, i: nat)
    requires i <= |txs|
    ensures TotalSlots(txs[..i]) <= TotalSlots(txs)
  {
    if i < |txs| {
      SomeSlots(txs[..|txs| - 1], i);
      assert txs[..|txs| - 1][..i] == txs[..i];
    } else {
      assert txs[..i] == txs;
    }
  }

  /** Adding transactions changes no account's pending nonces. */
  lemma {:induction false} TakingKeepsRuns(s: Snapshot, txs: seq<Tx>, rules: Rules, locals: set<Address>, bump: nat)
    ensures forall a :: Run(TakingAll(s, txs, rules, locals, bump).pending, a) == Run(s.pending, a)
  {
    hide Verdict, SentBy, OutbidsAll, RivalsIn;
    if txs != [] {
      var tx := txs[|txs| - 1];
      TakingKeepsRuns(s, txs[..|txs| - 1], rules, locals, bump);
      var t := TakingAll(s, txs[..|txs| - 1], rules, locals, bump);
      ShelveRun(t.pending, tx, true);
      if Has(t.pending, tx.sender, tx.nonce) {
        assert Run(t.pending, tx.sender) + {tx.nonce} == Run(t.pending, tx.sender);
      }
    }
  }

  lemma AdmitsKnown(s: Snapshot, t: Snapshot, tx: Tx, invalid: Option<PoolError>, bump: nat, capacity: nat,
                    err: Option<PoolError>, made: Clearing)
    requires Admits(s, t, tx, invalid, bump, capacity, err, made)
    ensures t.known <= s.known + {tx.Hash()}
  {
    hide CutTo;
  }

  lemma Refused(s: Snapshot, tx: Tx, invalid: Option<PoolError>, bump: nat, capacity: nat, err: PoolError)
    requires err == AlreadyKnown <==> tx.Hash() in s.known
    requires tx.Hash() in s.known || invalid == Some(err)
    ensures Admits(s, s, tx, invalid, bump, capacity, Some(err), Clearing({}, None, s))
  {
  }

  lemma Crowded(s: Snapshot, tx: Tx, bump: nat, capacity: nat, err: PoolError)
    requires tx.Hash() !in s.known && err in {UnderpricedTx, PoolOverflow} && SlotSum(s.known) + tx.Slots() > capacity
    requires Cleared(s, s, {})
    ensures Admits(s, s, tx, None, bump, capacity, Some(err), Clearing({}, Some(err), s))
  {
    hide Cleared;
  }

  lemma Settled(s: Snapshot, t: Snapshot, tx: Tx, bump: nat, capacity: nat, err: Option<PoolError>, made: Clearing)
    requires tx.Hash() !in s.known && Cleared(s, made.left, made.evicted) && made.refusal.None?
    requires SlotSum(s.known) + tx.Slots() <= capacity ==> made.evicted == {} && made.left == s
    requires if OutbidsAll(made.left.known, tx, bump)
             then err.None? && PutInPlace(made.left.pending, made.left.queue, t.pending, t.queue, tx)
               && t.known == made.left.known - RivalsIn(made.left.known, tx) + {tx.Hash()}
             else err == Some(ReplaceUnderpriced) && t == made.left
    ensures Admits(s, t, tx, None, bump, capacity, err, made)
  {
    hide SlotSum, PutInPlace, Cleared;
  }

  lemma PeeksAtState(pool: TxPool)
    requires pool.Valid()
    ensures forall a :: pool.pendingNonces.Peek(a) == VirtualNonce(pool.pendingNonces.nonces, pool.world, a)
  {
  }

  lemma SlotsAreKnown(pool: TxPool)
    requires pool.Valid()
    ensures pool.all.slots == SlotSum(pool.all.Known())
  {
  }

  lemma ShelvedAreKnown(pool: TxPool, tx: Tx)
    requires pool.Valid()
    ensures pool.all.remotes.Keys + Rivals(pool.pending, tx) + Rivals(pool.queue, tx) <= pool.all.Known()
  {
    if Has(pool.pending, tx.sender, tx.nonce) {
      KnownIsShelved(pool, pool.pending[tx.sender].items[tx.nonce]);
    }
    if Has(pool.queue, tx.sender, tx.nonce) {
      KnownIsShelved(pool, pool.queue[tx.sender].items[tx.nonce]);
    }
  }

  lemma SidesFollow(pool: TxPool, remotes: set<Hash>, rivals: set<Hash>, tx: Tx, isLocal: bool)
    requires pool.Valid() && rivals !! pool.all.Known() && tx.Hash() !in remotes && tx.Hash() in pool.all.Known()
    requires pool.all.remotes.Keys == if isLocal then remotes - rivals else remotes - rivals + {tx.Hash()}
    ensures pool.SidesAre(remotes, tx, isLocal) && (tx.Hash() in pool.all.remotes <==> !isLocal)
  {
    hide Consistent;
  }

  lemma FitsBySlots(pool: TxPool, tx: Tx)
    requires pool.Valid()
    ensures pool.Fits(tx) <==> SlotSum(pool.all.Known()) + tx.Slots() <= pool.Capacity()
  {
    SlotsAreKnown(pool);
  }

  lemma ValidIsSigned(pool: TxPool, tx: Tx, local: bool)
    ensures pool.Validate(tx, local).None? ==> tx.signed
    ensures pool.Validate(tx, local) !in {Some(AlreadyKnown), Some(ReplaceUnderpriced)}
  {
  }

  /** The known rivals of a transaction are those the shelves have in its place; it is placed if it outbids them. */
  lemma RivalsAreKnown(pool: TxPool, tx: Tx)
    requires pool.Valid()
    ensures var known, pending, queue := pool.all.Known(), pool.pending, pool.queue;
      && RivalsIn(known, tx) == Rivals(pending, tx) + Rivals(queue, tx)
      && (Has(pending, tx.sender, tx.nonce) ==> Rivals(queue, tx) == {} && RivalsIn(known, tx) != {})
      && (!Has(pending, tx.sender, tx.nonce) ==> Rivals(pending, tx) == {})
      && (!Has(pending, tx.sender, tx.nonce) ==> (Has(queue, tx.sender, tx.nonce) <==> RivalsIn(known, tx) != {}))
      && forall bump: nat :: OutbidsAll(known, tx, bump) <==>
           if Has(pending, tx.sender, tx.nonce) then pending[tx.sender].Accepts(tx, bump)
           else ListOf(queue, tx.sender, false).Accepts(tx, bump)
  {
    RivalsHold(pool.pending, tx);
    RivalsHold(pool.queue, tx);
  }

  /** What the pool takes over from a chain head. */
  datatype Head = Head(world: World, gasLimit: u64, forks: Forks)

  /** A run between promotion and truncation: the shelves and the heartbeats. */
  datatype Midway = Midway(shelves: Snapshot, beats: map<Address, nat>)

  /** A head change: the head's state if it can be loaded, what is only on the old branch, the next base fee. */
  datatype ResetRequest = ResetRequest(head: Option<Head>, reinject: seq<Tx>, newHead: bool, baseFee: Option<int>)

  lemma ExactAllSettle(pool: TxPool)
    ensures forall a :: pool.ExactAt(a) ==> pool.SettlingAt(a)
  {
    forall a | pool.ExactAt(a)
      ensures pool.SettlingAt(a)
    {
      ExactSettles(Run(pool.pending, a), pool.world.Nonce(a), pool.pendingNonces.Peek(a));
    }
  }

  lemma SettlingAllGapless(pool: TxPool)
    ensures forall a :: pool.SettlingAt(a) ==> pool.GaplessAt(a)
  {
  }

  /** No known transaction of the account has the last 64-bit nonce. */
  ghost predicate BelowLast(known: set<Hash>, a: Address) {
    forall h :: h in known && h.preimage.sender == a ==> h.preimage.nonce < MAX_U64
  }

  lemma FewerBelowLast(before: set<Hash>, after: set<Hash>)
    requires after <= before
    ensures forall a :: BelowLast(before, a) ==> BelowLast(after, a)
  {
  }

  lemma StillBelowLast(before: set<Hash>, after: set<Hash>, txs: seq<Tx>)
    requires after <= before + SeqHashes(txs)
    ensures forall a :: BelowLast(before, a) && BelowLast(SeqHashes(txs), a) ==> BelowLast(after, a)
  {
  }

  /** Without a known transaction of the last nonce an account has none pending and none due. */
  lemma AllBelowLast(pool: TxPool)
    requires pool.Valid()
    ensures forall a :: BelowLast(pool.all.Known(), a) ==>
      && MAX_U64 !in Run(pool.pending, a) && MAX_U64 !in pool.DueAt(a)
      && MAX_U64 !in pool.KeptAt(ItemsOf(pool.pending, a), a)
  {
    forall a | BelowLast(pool.all.Known(), a)
      ensures MAX_U64 !in Run(pool.pending, a) && MAX_U64 !in pool.DueAt(a)
    {
      NoLastStored(pool.pending, pool.queue, pool.all.Known(), a);
      DueIsQueued(pool, a);
    }
  }

  lemma NoLastStored(pending: Shelf, queue: Shelf, known: set<Hash>, a: Address)
    requires Consistent(pending, queue, {}, known) && BelowLast(known, a)
    ensures MAX_U64 !in Run(pending, a) && MAX_U64 !in Run(queue, a)
  {
    if MAX_U64 in Run(pending, a) {
      assert Holds(pending, pending[a].items[MAX_U64].Hash().preimage);
    }
    if MAX_U64 in Run(queue, a) {
      assert Holds(queue, queue[a].items[MAX_U64].Hash().preimage);
    }
  }

  lemma DueIsQueued(pool: TxPool, a: Address)
    ensures pool.DueAt(a).Keys <= Run(pool.queue, a)
  {
  }

  /** The shelves as they stand, seen through a snapshot. */
  lemma GatheredAt(pool: TxPool)
    requires pool.Valid()
    ensures forall a ::
      pool.Gathered(pool.Snap(), pool.pendingNonces.nonces, a) == ItemsOf(pool.pending, a) + pool.DueAt(a)
    ensures forall a :: pool.LeftIn(pool.Snap(), pool.pendingNonces.nonces, a) == pool.RestAt(a)
    ensures forall a :: a !in pool.queue ==> pool.DueAt(a) == map[] && ItemsOf(pool.queue, a) == pool.RestAt(a) == map[]
  {
    hide DueFrom, TxPool.Cleaned, TxPool.Limited, Consistent;
  }

  /** Some order of the accounts in which the due transactions were listed. */
  ghost predicate Reports(promoted: seq<Tx>, accounts: set<Address>, due: map<Address, Items>) {
    exists order :: NoDuplicates(order) && Members(order) == accounts && promoted == DueList(order, due)
  }

  lemma ListsThem(pool: TxPool, order: seq<Address>)
    requires pool.Valid() && NoDuplicates(order) && forall a :: a in pool.queue <==> a in order
    ensures Reports(DueList(order, pool.DueOf(order)), pool.queue.Keys,
                    pool.DuesIn(pool.Snap(), pool.pendingNonces.nonces))
  {
    hide DueList, DueFrom, TxPool.Cleaned, Consistent;
    assert Members(order) == pool.queue.Keys;
    assert pool.DueOf(order) == pool.DuesIn(pool.Snap(), pool.pendingNonces.nonces);
  }

  lemma ListsDirty(pool: TxPool, order: seq<Address>, dirty: set<Address>)
    requires NoDuplicates(order) && forall a :: a in dirty <==> a in order
    ensures Reports(DueList(order, pool.DueOf(order)), dirty, pool.DuesOf(dirty))
  {
    hide DueList;
    assert Members(order) == dirty && pool.DueOf(order) == pool.DuesOf(dirty);
  }

  predicate Stores(m: Items, tx: Tx) {
    tx.nonce in m && m[tx.nonce] == tx
  }

  /** With all that is due promoted, what demotion is to leave known. */
  lemma SurvivorsAre(pool: TxPool, s: Snapshot, virtual: map<Address, u64>)
    requires pool.Valid()
    requires forall a :: ItemsOf(pool.pending, a) == pool.Gathered(s, virtual, a)
    requires forall a :: ItemsOf(pool.queue, a) == pool.LeftIn(s, virtual, a)
    ensures forall h: Hash :: pool.Survives(s, virtual, h.preimage) <==>
      h in pool.all.Known() && !pool.Hopeless(pool.pending, h.preimage)
  {
    hide TxPool.Gathered, TxPool.LeftIn, TxPool.Doomed;
    forall h: Hash ensures pool.Survives(s, virtual, h.preimage) <==>
      h in pool.all.Known() && !pool.Hopeless(pool.pending, h.preimage)
    {
      var t := h.preimage;
      KnownIsShelved(pool, t);
      assert Holds(pool.pending, t) <==> Stores(ItemsOf(pool.pending, t.sender), t);
      assert Holds(pool.queue, t) <==> Stores(ItemsOf(pool.queue, t.sender), t);
    }
  }

  lemma KnownIsShelved(pool: TxPool, t: Tx)
    requires pool.Valid()
    ensures t.Hash() in pool.all.Known() <==> Holds(pool.pending, t) || Holds(pool.queue, t)
    ensures !(Holds(pool.pending, t) && Holds(pool.queue, t))
  {
    assert t.Hash().preimage == t;
  }

  lemma SettledIffSound(pool: TxPool, before: Shelf)
    requires forall a :: ItemsOf(pool.pending, a) == pool.KeptAt(ItemsOf(before, a), a)
    requires forall a :: pool.ExactAt(a) <==> pool.GaplessAt(a) && MAX_U64 !in Run(pool.pending, a)
    ensures forall a :: pool.ExactAt(a) <==> pool.SoundAt(ItemsOf(before, a), a)
    ensures forall a :: Gapless(Run(before, a), pool.world.Nonce(a)) ==>
      (pool.SoundAt(ItemsOf(before, a), a) <==> MAX_U64 !in pool.KeptAt(ItemsOf(before, a), a))
  {
    hide Gapless, TxPool.ExactAt, TxPool.KeptAt;
    forall a
      ensures pool.ExactAt(a) <==> pool.SoundAt(ItemsOf(before, a), a)
      ensures Gapless(Run(before, a), pool.world.Nonce(a)) ==> Gapless(Run(pool.pending, a), pool.world.Nonce(a))
    {
      assert Run(pool.pending, a) == ItemsOf(pool.pending, a).Keys && Run(before, a) == ItemsOf(before, a).Keys;
      GaplessKept(pool, ItemsOf(before, a), a);
    }
  }

  lemma GaplessKept(pool: TxPool, m: Items, a: Address)
    ensures Gapless(m.Keys, pool.world.Nonce(a)) ==> Gapless(pool.KeptAt(m, a).Keys, pool.world.Nonce(a))
  {
    PaidIsRunnable(m, pool.world.Nonce(a), pool.world.Balance(a), pool.maxGas);
  }

  lemma RunsAreKeys(s: Shelf)
    ensures forall a :: Run(s, a) == ItemsOf(s, a).Keys
  {
  }

  lemma FewerQueued(before: Shelf, after: Shelf, locals: set<Address>, beats: map<Address, nat>)
    requires EldestDropped(before, after, locals, beats)
    ensures forall a :: Run(after, a) <= Run(before, a)
  {
  }

  lemma SameRunSameSize(before: Shelf, after: Shelf)
    ensures forall a :: Run(before, a) == Run(after, a) ==> Size(before, a) == Size(after, a)
  {
    forall a | Run(before, a) == Run(after, a)
      ensures Size(before, a) == Size(after, a)
    {
      assert Size(before, a) == |Run(before, a)| && Size(after, a) == |Run(after, a)|;
    }
  }

  lemma LastNeverExact(pool: TxPool)
    ensures forall a :: MAX_U64 in Run(pool.pending, a) ==> !pool.ExactAt(a)
  {
    forall a ensures MAX_U64 in Run(pool.pending, a) ==> !pool.ExactAt(a) {
      LastLosesExactness(pool, a);
    }
  }

  /** The elements of a set, in some order. */
  method ToSeq(s: set<Address>) returns (r: seq<Address>)
    ensures NoDuplicates(r) && forall a :: a in s <==> a in r
  {
    r := [];
    var todo := s;
    while todo != {}
      invariant NoDuplicates(r) && todo <= s && forall a :: a in r <==> a in s && a !in todo
      decreases |todo|
    {
      var a :| a in todo;
      todo := todo - {a};
      r := r + [a];
    }
  }

  lemma AllSigned(pending: Shelf, queue: Shelf, transit: set<Tx>, known: set<Hash>)
    requires Consistent(pending, queue, transit, known)
    ensures forall h :: h in known ==> h.preimage.signed
  {
  }

  /** Losing stale entries only, the heaps track and single out as before. */
  lemma KeepsEntries(before: multiset<Tx>, after: multiset<Tx>, remotes: Index, untracked: set<Hash>)
    requires SameLive(after, before, remotes)
    ensures forall h :: h in remotes ==> after[h.preimage] == before[h.preimage]
  {
    forall h | h in remotes
      ensures after[h.preimage] == before[h.preimage]
    {
      assert Live(h.preimage, remotes);
    }
  }

  /** Only stale entries have left the heaps. */
  ghost predicate Popped(before: Heaps, heaps: Heaps) {
    && heaps.baseFee == before.baseFee && heaps.remotes == before.remotes
    && heaps.urgent <= before.urgent && heaps.floating <= before.floating
    && SameLive(heaps.urgent + heaps.floating, before.urgent + before.floating, heaps.remotes)
  }

  lemma NothingPopped(heaps: Heaps)
    ensures Popped(heaps, heaps)
  {
  }

  /**
   A list of heap entries to evict for `want` slots: live ones, the cheapest,
   enough of them unless forced, and none more than needed.
   */
  ghost predicate Evicts(heaps: Heaps, want: int, force: bool, drop: seq<Tx>) {
    && (forall t :: t in drop ==> Live(t, heaps.remotes))
    && multiset(drop) <= heaps.urgent + heaps.floating && CheapestFirst(heaps, drop)
    && (force || TotalSlots(drop) >= want) && (drop != [] ==> TotalSlots(drop[..|drop| - 1]) < want)
  }

  lemma DropsEvict(heaps: Heaps, want: nat, force: bool, drop: seq<Tx>, left: multiset<Tx>)
    requires (forall t :: t in drop ==> Live(t, heaps.remotes)) && CheapestFirst(heaps, drop)
    requires left + multiset(drop) <= heaps.urgent + heaps.floating
    requires (drop != [] ==> TotalSlots(drop[..|drop| - 1]) < want)
    requires force || TotalSlots(drop) >= want
    ensures Evicts(heaps, want, force, drop)
  {
    hide CheapestFirst, TotalSlots;
  }

  lemma NoHashes()
    ensures SeqHashes([]) == {}
  {
  }

  /** The evicted are a list of `count` entries that the heaps gave up for the wanted slots. */
  ghost predicate EvictedFor(heaps: Heaps, want: int, force: bool, evicted: set<Hash>, count: int) {
    exists drop :: SeqHashes(drop) == evicted && |drop| == count && Evicts(heaps, want, force, drop)
  }

  lemma EvictsList(heaps: Heaps, want: int, force: bool, drop: seq<Tx>)
    requires Evicts(heaps, want, force, drop)
    ensures EvictedFor(heaps, want, force, SeqHashes(drop), |drop|)
  {
  }

  lemma EvictedAsBefore(before: Heaps, heaps: Heaps, want: int, force: bool, evicted: set<Hash>, count: int)
    requires Popped(before, heaps) && EvictedFor(heaps, want, force, evicted, count)
    ensures EvictedFor(before, want, force, evicted, count)
  {
    hide CheapestFirst, TotalSlots, SameLive;
    var drop :| SeqHashes(drop) == evicted && |drop| == count && Evicts(heaps, want, force, drop);
    FirstAsBefore(before, heaps, drop);
    assert Evicts(before, want, force, drop);
  }

  lemma DroppedEntries(before: multiset<Tx>, after: multiset<Tx>, drop: seq<Tx>, remotes: Index)
    requires SameLive(after + multiset(drop), before, remotes) && forall t :: t in drop ==> Live(t, remotes)
    ensures forall h :: h in remotes && h !in SeqHashes(drop) ==> after[h.preimage] == before[h.preimage]
    ensures (forall h :: h in remotes ==> before[h.preimage] <= 1) ==> OnceEach(drop)
  {
    forall h | h in remotes && h !in SeqHashes(drop)
      ensures after[h.preimage] == before[h.preimage]
    {
      assert Live(h.preimage, remotes);
      assert forall i :: 0 <= i < |drop| ==> drop[i].Hash() in SeqHashes(drop);
      assert multiset(drop)[h.preimage] == 0;
    }
    if forall h :: h in remotes ==> before[h.preimage] <= 1 {
      forall t | t in drop
        ensures multiset(drop)[t] <= 1
      {
        assert Live(t, remotes) && before[t.Hash().preimage] <= 1;
      }
      AtMostOnce(drop);
    }
  }

  lemma AtMostOnce(s: seq<Tx>)
    requires forall t :: t in s ==> multiset(s)[t] <= 1
    ensures OnceEach(s)
  {
    forall i, j | 0 <= i < j < |s|
      ensures s[i] != s[j]
    {
      assert s[j] in s && s == s[..j] + [s[j]] + s[j + 1..];
      assert multiset(s) == multiset(s[..j]) + multiset{s[j]} + multiset(s[j + 1..]);
      assert multiset(s[..j])[s[j]] == 0;
      assert s[..j][i] == s[i] && s[i] in multiset(s[..j]);
    }
  }

  lemma RemotesKnown(pool: TxPool, drop: seq<Tx>)
    requires pool.Valid() && forall t :: t in drop ==> t.Hash() in pool.all.remotes
    ensures SeqHashes(drop) <= pool.all.Known()
  {
    forall h | h in SeqHashes(drop)
      ensures h in pool.all.Known()
    {
      var i :| 0 <= i < |drop| && drop[i].Hash() == h;
      assert drop[i] in drop;
    }
  }

  /** The hashes of a list of transactions. */
  function SeqHashes(s: seq<Tx>): set<Hash> {
    set i | 0 <= i < |s| :: s[i].Hash()
  }

  ghost predicate OnceEach(s: seq<Tx>) {
    forall i, j :: 0 <= i < j < |s| ==> s[i] != s[j]
  }

  /**
   What evicting a list frees: its slots when nothing is listed twice, and
   fewer exactly when something is.
   */
  lemma {:induction false} FreedSlots(drop: seq<Tx>)
    requires forall t :: t in drop ==> t.Slots() > 0
    ensures SlotSum(SeqHashes(drop)) <= TotalSlots(drop)
    ensures SlotSum(SeqHashes(drop)) == TotalSlots(drop) <==> OnceEach(drop)
  {
    if drop == [] {
      assert SeqHashes(drop) == {};
    } else {
      var n := |drop| - 1;
      var init := drop[..n];
      assert drop[..n + 1] == drop;
      EvictOne(drop, n, SeqHashes(init));
      FreedSlots(init);
      if drop[n].Hash() in SeqHashes(init) {
        var i :| 0 <= i < n && init[i].Hash() == drop[n].Hash();
        assert drop[i] == drop[n];
        assert SeqHashes(init) + {drop[n].Hash()} == SeqHashes(init);
      } else {
        SlotSumMore(SeqHashes(init), drop[n].Hash());
        OnceMore(init, drop[n]);
        assert drop == init + [drop[n]];
      }
    }
  }

  lemma OnceMore(init: seq<Tx>, t: Tx)
    requires t.Hash() !in SeqHashes(init)
    ensures OnceEach(init + [t]) <==> OnceEach(init)
  {
    var s := init + [t];
    assert forall i :: 0 <= i < |init| ==> init[i].Hash() in SeqHashes(init);
    if OnceEach(s) {
      forall i, j | 0 <= i < j < |init|
        ensures init[i] != init[j]
      {
        assert s[i] == init[i] && s[j] == init[j];
      }
    }
  }

  lemma NoSlots()
    ensures TotalSlots([]) == 0
  {
  }

  lemma SlotsOfKnown(pool: TxPool)
    requires pool.Valid()
    ensures pool.all.slots == SlotSum(pool.all.Known())
  {
  }

  /** The lowest pending nonce of an account among the evicted; 2^64 if there is none. */
  ghost function CutAt(pending: Shelf, evicted: set<Hash>, a: Address): (n: int)
    ensures n <= MAX_U64 + 1
  {
    var gone := Among(ItemsOf(pending, a), evicted);
    if gone == map[] then MAX_U64 + 1 else MinNonce(gone)
  }

  ghost function Among(items: Items, hashes: set<Hash>): Items {
    map n | n in items && items[n].Hash() in hashes :: items[n]
  }

  /** Every account has lost what it had pending from its lowest evicted nonce on. */
  ghost predicate CutTo(before: Shelf, after: Shelf, evicted: set<Hash>) {
    forall a :: ItemsOf(after, a) == BelowNonce(ItemsOf(before, a), CutAt(before, evicted, a))
  }

  /**
   What evicting does to the shelves: the evicted are forgotten, accounts lose
   their pending transactions from the lowest evicted nonce on, and all other
   known transactions are queued.
   */
  ghost predicate Cleared(before: Snapshot, after: Snapshot, evicted: set<Hash>) {
    && after.known == before.known - evicted && CutTo(before.pending, after.pending, evicted)
    && forall t :: Holds(after.queue, t) <==> t.Hash() in after.known && !Holds(after.pending, t)
  }

  lemma NoneCut(pending: Shelf)
    ensures CutTo(pending, pending, {}) && forall a :: CutAt(pending, {}, a) == MAX_U64 + 1
  {
  }

  lemma NothingCleared(pool: TxPool)
    requires pool.Valid()
    ensures Cleared(pool.Snap(), pool.Snap(), {}) && forall a :: CutAt(pool.pending, {}, a) == MAX_U64 + 1
  {
    NoneCut(pool.pending);
    AllShelved(pool);
    assert pool.all.Known() - {} == pool.all.Known();
  }

  lemma PendingStocked(pool: TxPool)
    requires pool.Valid()
    ensures Stocked(pool.pending, true)
  {
  }

  lemma AllShelved(pool: TxPool)
    requires pool.Valid()
    ensures forall t :: Holds(pool.queue, t) <==> t.Hash() in pool.all.Known() && !Holds(pool.pending, t)
  {
    forall t ensures Holds(pool.queue, t) <==> t.Hash() in pool.all.Known() && !Holds(pool.pending, t) {
      assert t.Hash().preimage == t;
    }
  }

  /** A known transaction with its nonce pending is the one pending there, and is no other. */
  lemma HeldIfKnown(pool: TxPool, tx: Tx)
    requires pool.Valid()
    ensures Holds(pool.pending, tx) <==> tx.Hash() in pool.all.Known() && Has(pool.pending, tx.sender, tx.nonce)
    ensures Holds(pool.pending, tx) ==> pool.pending[tx.sender].strict
  {
    if tx.Hash() in pool.all.Known() {
      FoundByNonce(pool.pending, pool.queue, pool.all.Known(), tx.Hash());
    } else {
      assert tx.Hash().preimage == tx;
    }
  }

  lemma CutMore(before: Shelf, pending: Shelf, evicted: set<Hash>, tx: Tx)
    requires Stocked(before, true) && CutTo(before, pending, evicted)
    requires Holds(pending, tx) ==> pending[tx.sender].strict
    ensures var more, a := evicted + {tx.Hash()}, tx.sender;
      && (Holds(pending, tx) ==> CutTo(before, SetList(pending, a, pending[a].Remove(tx.nonce)), more))
      && (!Holds(pending, tx) ==> CutTo(before, pending, more))
      && forall b :: CutAt(before, more, b)
           == Min(CutAt(before, evicted, b), if Holds(pending, tx) && b == a then tx.nonce else MAX_U64 + 1)
  {
    hide CutAt, Stocked;
    var a, n := tx.sender, tx.nonce;
    forall b ensures CutAt(before, evicted + {tx.Hash()}, b)
      == if b == a && Holds(before, tx) then Min(CutAt(before, evicted, b), n) else CutAt(before, evicted, b)
    {
      CutAtMore(before, evicted, tx, b);
    }
    assert ItemsOf(pending, a) == BelowNonce(ItemsOf(before, a), CutAt(before, evicted, a));
    if Holds(pending, tx) {
      var next := SetList(pending, a, pending[a].Remove(n));
      assert ItemsOf(next, a) == BelowNonce(ItemsOf(pending, a), n);
      assert forall b :: b != a ==> ItemsOf(next, b) == ItemsOf(pending, b);
    }
    HeldBelow(before, pending, CutAt(before, evicted, a), tx);
  }

  lemma HeldBelow(before: Shelf, after: Shelf, cut: int, tx: Tx)
    requires ItemsOf(after, tx.sender) == BelowNonce(ItemsOf(before, tx.sender), cut)
    ensures Holds(before, tx) && tx.nonce < cut ==> Holds(after, tx)
  {
    assert Holds(after, tx) <==> tx.nonce in ItemsOf(after, tx.sender) && ItemsOf(after, tx.sender)[tx.nonce] == tx;
  }

  lemma CutAtMore(pending: Shelf, evicted: set<Hash>, tx: Tx, a: Address)
    requires Stocked(pending, true)
    ensures CutAt(pending, evicted + {tx.Hash()}, a)
      == if a == tx.sender && Holds(pending, tx) then Min(CutAt(pending, evicted, a), tx.nonce)
         else CutAt(pending, evicted, a)
  {
    var items := ItemsOf(pending, a);
    var gone, more := Among(items, evicted), Among(items, evicted + {tx.Hash()});
    forall n | n in items && items[n].Hash() == tx.Hash()
      ensures items[n] == tx && n == tx.nonce && a == tx.sender
    {
      assert items[n].Hash().preimage == items[n];
    }
    if a == tx.sender && Holds(pending, tx) {
      assert more == gone[tx.nonce := tx];
      LeastWith(gone, tx.nonce, tx);
    } else {
      assert more == gone;
    }
  }

  lemma LeastWith(m: Items, n: u64, tx: Tx)
    ensures n in m[n := tx] && m[n := tx] != map[]
    ensures MinNonce(m[n := tx]) == if m == map[] then n else Min(MinNonce(m), n)
  {
    var more := m[n := tx];
    assert n in more;
    assert MinNonce(more) in m || MinNonce(more) == n;
    assert m != map[] ==> MinNonce(m) in more;
  }

  /** Evicting the next of a list frees its slots unless it was evicted before. */
  lemma EvictOne(drop: seq<Tx>, i: nat, known: set<Hash>)
    requires i < |drop|
    ensures SeqHashes(drop[..i + 1]) == SeqHashes(drop[..i]) + {drop[i].Hash()}
    ensures TotalSlots(drop[..i + 1]) == TotalSlots(drop[..i]) + drop[i].Slots()
    ensures OnceEach(drop) ==> drop[i].Hash() !in SeqHashes(drop[..i])
    ensures drop[i].Hash() in known ==> SlotSum(known - {drop[i].Hash()}) == SlotSum(known) - drop[i].Slots()
  {
    var longer := drop[..i + 1];
    assert longer[..i] == drop[..i] && longer[i] == drop[i];
    forall h | h in SeqHashes(longer)
      ensures h in SeqHashes(drop[..i]) + {drop[i].Hash()}
    {
      var j :| 0 <= j < |longer| && longer[j].Hash() == h;
      assert j < i ==> drop[..i][j].Hash() == h;
    }
    forall h | h in SeqHashes(drop[..i])
      ensures h in SeqHashes(longer)
    {
      var j :| 0 <= j < i && drop[..i][j].Hash() == h;
      assert longer[j].Hash() == h;
    }
    assert longer[i].Hash() in SeqHashes(longer);
    if drop[i].Hash() in known {
      SlotSumLess(known, drop[i].Hash());
    }
  }

  function RemoteKeys(s: Shelf, locals: set<Address>): set<Address> {
    set a | a in s && a !in locals
  }

  /**
   Of two remote accounts, one that lost queued transactions is not younger
   than one that kept some; what an account keeps are its lowest nonces, and
   local accounts keep everything.
   */
  ghost predicate EldestDropped(start: Shelf, now: Shelf, locals: set<Address>, beats: map<Address, nat>) {
    && now.Keys <= start.Keys <= beats.Keys
    && (forall a :: a in start && a in locals ==> a in now && now[a] == start[a])
    && (forall a :: a in now ==> now[a].items == start[a].Cap(Size(now, a)).items)
    && (forall a, b :: a in start && b in now && a !in locals && b !in locals && a != b && Size(now, a) < Size(start, a)
          ==> beats[a] <= beats[b])
  }

  /** The waiting accounts are untouched and none is older than one already handled; `partial` was cut in part. */
  ghost predicate Aged(start: Shelf, now: Shelf, locals: set<Address>, beats: map<Address, nat>, waiting: set<Address>,
                       partial: set<Address>) {
    && start.Keys <= beats.Keys && waiting <= RemoteKeys(start, locals)
    && Handled(start, now, locals, waiting, partial)
    && Older(start, locals, beats, waiting, partial)
  }

  ghost predicate Handled(start: Shelf, now: Shelf, locals: set<Address>, waiting: set<Address>, partial: set<Address>)
  {
    && now.Keys <= start.Keys
    && (forall a :: a in start && (a in locals || a in waiting) ==> a in now && now[a] == start[a])
    && (forall a :: a in now ==> a in locals || a in waiting || a in partial)
    && (forall a :: a in now ==> now[a].items == start[a].Cap(Size(now, a)).items)
  }

  ghost predicate Older(start: Shelf, locals: set<Address>, beats: map<Address, nat>, waiting: set<Address>,
                        partial: set<Address>)
    requires start.Keys <= beats.Keys && waiting <= start.Keys
  {
    && (forall a, b :: a in start && a !in locals && a !in waiting && b in waiting ==> beats[a] <= beats[b])
    && (forall a :: a in partial ==> a in start && a !in locals && a !in waiting)
    && (forall a, b :: a in partial && b in start && b !in waiting && b !in locals ==> beats[b] <= beats[a])
    && (forall a, b :: a in partial && b in partial ==> a == b)
  }

  lemma BeatsCover(pool: TxPool)
    requires pool.Valid()
    ensures pool.queue.Keys <= pool.beats.Keys
    ensures forall a :: a in pool.queue ==> Keyed(pool.queue[a].items)
  {
  }

  lemma NothingAged(s: Shelf, locals: set<Address>, beats: map<Address, nat>)
    requires s.Keys <= beats.Keys && forall a :: a in s ==> Keyed(s[a].items)
    ensures Aged(s, s, locals, beats, RemoteKeys(s, locals), {})
  {
    forall a | a in s
      ensures s[a].Cap(Size(s, a)).items == s[a].items
    {
      CutNothing(s[a].items);
    }
  }

  lemma WaitingStored(start: Shelf, now: Shelf, locals: set<Address>, beats: map<Address, nat>, waiting: set<Address>,
                      a: Address)
    requires Aged(start, now, locals, beats, waiting, {}) && a in waiting
    ensures a in now && now[a] == start[a]
  {
  }

  lemma DroppedAll(start: Shelf, before: Shelf, after: Shelf, locals: set<Address>, beats: map<Address, nat>,
                   waiting: set<Address>, addr: Address)
    requires addr !in waiting && Aged(start, before, locals, beats, waiting + {addr}, {})
    requires addr !in after && after - {addr} == before - {addr} && addr in beats
    requires forall b :: b in waiting ==> b in beats && beats[addr] <= beats[b]
    ensures Aged(start, after, locals, beats, waiting, {})
  {
    OthersKept(before, after, addr);
  }

  lemma DroppedSome(start: Shelf, before: Shelf, after: Shelf, locals: set<Address>, beats: map<Address, nat>,
                    waiting: set<Address>, addr: Address, k: nat)
    requires addr !in waiting && Aged(start, before, locals, beats, waiting + {addr}, {})
    requires addr in before && 0 < k < Size(before, addr) && after - {addr} == before - {addr} && addr in beats
    requires ItemsOf(after, addr) == before[addr].Cap(Size(before, addr) - k).items && Keyed(before[addr].items)
    requires forall b :: b in waiting ==> b in beats && beats[addr] <= beats[b]
    ensures Aged(start, after, locals, beats, waiting, {addr})
  {
    hide Handled, TxListState.Cap;
    HandledSome(start, before, after, locals, waiting, addr, k);
  }

  lemma HandledSome(start: Shelf, before: Shelf, after: Shelf, locals: set<Address>, waiting: set<Address>,
                    addr: Address, k: nat)
    requires addr !in waiting && addr !in locals && Handled(start, before, locals, waiting + {addr}, {})
    requires addr in start && addr in before && 0 < k < Size(before, addr) && after - {addr} == before - {addr}
    requires ItemsOf(after, addr) == before[addr].Cap(Size(before, addr) - k).items && Keyed(before[addr].items)
    ensures Handled(start, after, locals, waiting, {addr})
  {
    hide Flat, TxListState.Cap;
    OthersKept(before, after, addr);
    CappedTo(before[addr], Size(before, addr) - k);
    assert addr in after && Size(after, addr) == Size(before, addr) - k;
    forall a | a in after
      ensures a in start && after[a].items == start[a].Cap(Size(after, a)).items
    {
      assert a != addr ==> after[a] == before[a];
    }
  }

  lemma CappedTo(l: TxListState, size: nat)
    requires Keyed(l.items) && size <= |l.items|
    ensures |l.Cap(size).items| == size
  {
    CapKeepsFirst(l.items, size);
  }

  lemma AgedAtLast(start: Shelf, now: Shelf, locals: set<Address>, beats: map<Address, nat>, waiting: set<Address>,
                   partial: set<Address>)
    requires Aged(start, now, locals, beats, waiting, partial)
    ensures EldestDropped(start, now, locals, beats)
    ensures waiting == {} && partial == {} ==> forall a :: a in now ==> a in locals
  {
  }

  /** The account whose heartbeat is longest ago. */
  method Eldest(beats: map<Address, nat>, among: set<Address>) returns (a: Address)
    requires among != {} && among <= beats.Keys
    ensures a in among && forall b :: b in among ==> beats[a] <= beats[b]
  {
    a :| a in among;
    var todo := among - {a};
    while todo != {}
      invariant todo <= among && a in among
      invariant forall b :: b in among && b !in todo ==> beats[a] <= beats[b]
      decreases |todo|
    {
      var b :| b in todo;
      todo := todo - {b};
      if beats[b] < beats[a] {
        a := b;
      }
    }
  }

  lemma QueuedKnown(pool: TxPool, addr: Address, n: u64)
    requires pool.Valid() && Has(pool.queue, addr, n)
    ensures var t := pool.queue[addr].items[n];
      && t.Hash() in pool.all.Known() && t.sender == addr && t.nonce == n
      && !Has(pool.pending, addr, n) && !pool.queue[addr].strict
  {
    assert Holds(pool.queue, pool.queue[addr].items[n].Hash().preimage);
  }

  lemma QueuedKept(pool: TxPool, addr: Address)
    requires pool.Valid() && addr in pool.queue
    ensures pool.queue[addr].items != map[] && WellKept(pool.queue[addr], addr, false)
  {
  }

  lemma NoEmptyQueue(pool: TxPool, addr: Address)
    requires pool.Valid() && Size(pool.queue, addr) == 0
    ensures addr !in pool.queue
  {
  }

  lemma SaneSlots(pool: TxPool)
    requires pool.Valid()
    ensures pool.config.Sane()
  {
  }

  /** The remote accounts above `floor`. */
  method Candidates(s: Shelf, locals: set<Address>, floor: nat) returns (spammers: set<Address>)
    ensures Ranked(s, s, locals, floor, spammers, [])
  {
    spammers := set a | a in s && a !in locals && |s[a].items| > floor;
  }

  lemma OffendersWereLarge(start: Shelf, now: Shelf, locals: set<Address>, floor: nat, spammers: set<Address>,
                           offenders: seq<Address>)
    requires Ranked(start, now, locals, floor, spammers, offenders)
    ensures NoDuplicates(offenders) && forall o :: o in offenders ==> o !in locals && Size(start, o) > floor
  {
  }

  predicate NoDuplicates(s: seq<Address>) {
    forall i, j :: 0 <= i < j < |s| ==> s[i] != s[j]
  }

  lemma NoneTwice()
    ensures NoDuplicates([])
  {
  }

  /** Exactly the given accounts have come down by one from `level`. */
  ghost predicate Swept(before: Shelf, after: Shelf, addrs: seq<Address>, level: nat) {
    && after.Keys == before.Keys
    && (forall i :: 0 <= i < |addrs| ==> Size(after, addrs[i]) == level - 1)
    && (forall a :: a in after && a !in addrs ==> after[a] == before[a])
  }

  /** Every account has lost its highest nonces only, if anything. */
  ghost predicate CutBack(before: Shelf, after: Shelf) {
    && after.Keys == before.Keys
    && forall a :: a in after ==>
         && Keyed(before[a].items) && Size(after, a) <= Size(before, a)
         && after[a].items == before[a].Cap(Size(after, a)).items
  }

  lemma NothingCut(pool: TxPool, s: Shelf)
    requires pool.Valid() && s == pool.pending
    ensures CutBack(s, s)
  {
    forall a | a in s ensures Keyed(s[a].items) && s[a].items == s[a].Cap(Size(s, a)).items {
      PendingKept(pool, a);
      CutNothing(s[a].items);
    }
  }

  /** Cutting twice is cutting to the smaller size. */
  lemma CutTwice(m: Items, size: nat, less: nat)
    requires Keyed(m) && less <= size <= |m|
    ensures var kept := BelowNonce(m, CapCut(m, size));
      |kept| == size && BelowNonce(kept, CapCut(kept, less)) == BelowNonce(m, CapCut(m, less))
  {
    hide Flat;
    var kept := BelowNonce(m, CapCut(m, size));
    CapKeepsFirst(m, size);
    if less < size {
      assert Flat(kept)[less] == Flat(m)[less];
      CutsGrow(m, less, size);
    }
  }

  lemma CutsGrow(m: Items, less: nat, size: nat)
    requires Keyed(m) && less <= size <= |m|
    ensures CapCut(m, less) <= CapCut(m, size)
  {
    FlatIsSorted(m);
  }

  lemma CutBackMore(start: Shelf, before: Shelf, after: Shelf)
    requires CutBack(start, before) && CutBack(before, after)
    ensures CutBack(start, after)
  {
    hide CapCut, BelowNonce;
    forall a | a in after ensures after[a].items == start[a].Cap(Size(after, a)).items {
      CutTwice(start[a].items, Size(before, a), Size(after, a));
    }
  }

  lemma CutBackOne(start: Shelf, before: Shelf, after: Shelf, addr: Address)
    requires CutBack(start, before) && addr in before && Size(before, addr) > 1
    requires after == before[addr := before[addr].Cap(Size(before, addr) - 1)]
    requires Size(after, addr) == Size(before, addr) - 1
    ensures CutBack(start, after)
  {
    hide CapCut, BelowNonce;
    CutTwice(start[addr].items, Size(before, addr), Size(before, addr) - 1);
    forall a | a in after
      ensures Keyed(start[a].items) && Size(after, a) <= Size(start, a)
      ensures after[a].items == start[a].Cap(Size(after, a)).items
    {
      if a != addr {
        assert after[a] == before[a];
      }
    }
  }

  lemma SweepNothing(before: Shelf, addrs: seq<Address>, level: nat)
    ensures Swept(before, before, addrs[..0], level)
  {
  }

  lemma NextToSweep(start: Shelf, before: Shelf, addrs: seq<Address>, i: nat, level: nat)
    requires i < |addrs| && NoDuplicates(addrs) && Swept(start, before, addrs[..i], level) && level > 1
    requires Size(start, addrs[i]) == level
    ensures Size(before, addrs[i]) == level
  {
    assert addrs[i] !in addrs[..i];
  }

  lemma SweptOne(start: Shelf, before: Shelf, after: Shelf, addrs: seq<Address>, i: nat, level: nat)
    requires i < |addrs| && NoDuplicates(addrs) && Swept(start, before, addrs[..i], level) && level > 1
    requires Size(before, addrs[i]) == level && Size(after, addrs[i]) == level - 1
    requires after.Keys == before.Keys && after - {addrs[i]} == before - {addrs[i]}
    ensures Swept(start, after, addrs[..i + 1], level)
  {
    OthersKept(before, after, addrs[i]);
    assert addrs[..i + 1] == addrs[..i] + [addrs[i]];
  }

  /**
   What truncation has done so far: local accounts are untouched, every remote
   account that lost transactions has `level` of them left, not fewer than
   `floor`, and no remote account has more than `level`.
   */
  ghost predicate Levelled(start: Shelf, now: Shelf, locals: set<Address>, floor: nat, level: nat) {
    && now.Keys == start.Keys && level >= floor
    && (forall a :: a in now && a in locals ==> now[a] == start[a])
    && (forall a :: a in now && a !in locals && now[a] != start[a] ==> Size(now, a) == level < Size(start, a))
    && (forall a :: a in now && a !in locals ==> Size(now, a) <= level)
  }

  /** Candidates still in the queue are untouched; every remote account above `floor` is one or has been taken. */
  ghost predicate Ranked(start: Shelf, now: Shelf, locals: set<Address>, floor: nat, spammers: set<Address>,
                         offenders: seq<Address>) {
    && NoDuplicates(offenders) && now.Keys == start.Keys
    && (forall a :: a in spammers ==>
          a in now && a !in locals && a !in offenders && now[a] == start[a] && Size(now, a) > floor)
    && (forall i :: 0 <= i < |offenders| ==>
          offenders[i] in now && offenders[i] !in locals && Size(start, offenders[i]) > floor)
    && (forall a :: a in now && a !in locals && a !in spammers && a !in offenders ==>
          now[a] == start[a] && Size(now, a) <= floor)
  }

  lemma LevelAtStart(start: Shelf, locals: set<Address>, floor: nat)
    ensures Levelled(start, start, locals, floor, Total(start) + floor)
  {
    forall a | a in start
      ensures Size(start, a) <= Total(start)
    {
      TotalSplit(start, a);
    }
  }

  lemma RankedPop(start: Shelf, now: Shelf, locals: set<Address>, floor: nat, level: nat, spammers: set<Address>,
                  offenders: seq<Address>, offender: Address)
    requires Ranked(start, now, locals, floor, spammers, offenders) && Levelled(start, now, locals, floor, level)
    requires offender in spammers && forall a :: a in spammers ==> Size(now, a) <= Size(now, offender)
    ensures Ranked(start, now, locals, floor, spammers - {offender}, offenders + [offender])
    ensures AmongOffenders(offenders, offenders + [offender]) && offender !in offenders
    ensures NoDuplicates(offenders) && offender in start && offender in now && now[offender] == start[offender]
    ensures floor < Size(now, offender) <= level && Others(now, locals, offenders, Size(now, offender))
  {
    var longer := offenders + [offender];
    assert forall a :: a in longer <==> a in offenders || a == offender;
  }

  /** The first offender sets the level: nobody has lost anything yet. */
  lemma FirstLevel(start: Shelf, now: Shelf, locals: set<Address>, floor: nat, spammers: set<Address>,
                   offender: Address, level: nat)
    requires Levelled(start, now, locals, floor, level) && Ranked(start, now, locals, floor, spammers, [offender])
    requires Others(now, locals, [], Size(now, offender)) && offender in start && offender in now
    requires now[offender] == start[offender] && Size(now, offender) > floor
    ensures Levelled(start, now, locals, floor, Size(now, offender)) && AtLevel(now, [offender], Size(now, offender))
  {
  }

  /** A sweep over the accounts at `level` takes the level down by one. */
  lemma LevelSwept(start: Shelf, before: Shelf, after: Shelf, locals: set<Address>, floor: nat, swept: seq<Address>,
                   level: nat, bound: nat, spammers: set<Address>, offenders: seq<Address>)
    requires Levelled(start, before, locals, floor, level) && Ranked(start, before, locals, floor, spammers, offenders)
    requires Swept(before, after, swept, level) && level > bound >= floor && Others(before, locals, swept, bound)
    requires AmongOffenders(swept, offenders) && AtLevel(before, swept, level)
    ensures Levelled(start, after, locals, floor, level - 1) && Ranked(start, after, locals, floor, spammers, offenders)
    ensures Others(after, locals, swept, bound) && AtLevel(after, swept, level - 1)
  {
    forall a | a in after && a !in locals
      ensures Size(after, a) <= level - 1 && (after[a] != start[a] ==> Size(after, a) == level - 1 < Size(start, a))
    {
      if a in swept {
        var i :| 0 <= i < |swept| && swept[i] == a;
      } else {
        assert after[a] == before[a];
      }
    }
  }

  ghost predicate AtLevel(s: Shelf, addrs: seq<Address>, level: nat) {
    forall i :: 0 <= i < |addrs| ==> Size(s, addrs[i]) == level
  }

  lemma LastAt(s: Shelf, addrs: seq<Address>, level: nat)
    requires AtLevel(s, addrs, level) && addrs != []
    ensures Size(s, addrs[|addrs| - 1]) == level
  {
  }

  ghost predicate AmongOffenders(addrs: seq<Address>, offenders: seq<Address>) {
    forall i :: 0 <= i < |addrs| ==> addrs[i] in offenders
  }

  ghost predicate SameElsewhere(before: Shelf, after: Shelf, addrs: seq<Address>) {
    forall a :: a !in addrs ==> Size(after, a) == Size(before, a)
  }

  lemma SameElsewhereAtFirst(s: Shelf, addrs: seq<Address>)
    ensures SameElsewhere(s, s, addrs)
  {
  }

  lemma SameElsewhereAgain(start: Shelf, before: Shelf, after: Shelf, addrs: seq<Address>, level: nat)
    requires SameElsewhere(start, before, addrs) && Swept(before, after, addrs, level)
    ensures SameElsewhere(start, after, addrs)
  {
  }

  /** The taken offender brought the others down to its own size. */
  lemma Joined(before: Shelf, after: Shelf, others: seq<Address>, offender: Address, level: nat)
    requires AtLevel(after, others, level) && SameElsewhere(before, after, others) && offender !in others
    requires Size(before, offender) == level
    ensures AtLevel(after, others + [offender], level)
  {
  }

  lemma LevelBounds(start: Shelf, now: Shelf, locals: set<Address>, floor: nat, level: nat)
    requires Levelled(start, now, locals, floor, level)
    ensures forall a :: a in now && a !in locals ==> Size(now, a) <= level
  {
  }

  lemma OnlyOffenders(start: Shelf, now: Shelf, locals: set<Address>, floor: nat, offenders: seq<Address>)
    requires Ranked(start, now, locals, floor, {}, offenders)
    ensures Others(now, locals, offenders, floor) && NoDuplicates(offenders) && AmongOffenders(offenders, offenders)
    ensures offenders == [] ==> forall a :: a in now && a !in locals ==> Size(now, a) <= floor
  {
  }

  /** `prque.Pop`: an account with the most transactions. */
  method Largest(s: Shelf, among: set<Address>) returns (a: Address)
    requires among != {}
    ensures a in among && forall b :: b in among ==> Size(s, b) <= Size(s, a)
  {
    a :| a in among;
    var todo := among - {a};
    while todo != {}
      invariant todo <= among && a in among
      invariant forall b :: b in among && b !in todo ==> Size(s, b) <= Size(s, a)
      decreases |todo|
    {
      var b :| b in todo;
      todo := todo - {b};
      if Size(s, b) > Size(s, a) {
        a := b;
      }
    }
  }

  method CountAll(s: Shelf) returns (count: nat)
    ensures count == Total(s)
  {
    hide Total;
    count := 0;
    var left := s;
    while left != map[]
      invariant Total(s) == count + Total(left)
      decreases |left|
    {
      var a :| a in left;
      TotalSplit(left, a);
      SmallerShelf(left, a);
      count := count + Size(left, a);
      left := left - {a};
    }
    TotalOfNothing();
  }

  lemma TotalOfNothing()
    ensures Total(map[]) == 0
  {
  }

  /** Remote accounts other than those listed have at most `bound` transactions. */
  ghost predicate Others(now: Shelf, locals: set<Address>, listed: seq<Address>, bound: nat) {
    forall a :: a in now && a !in locals && a !in listed ==> Size(now, a) <= bound
  }

  function LastNonce(m: Items): u64 {
    if m == map[] then 0 else Flat(m)[|m| - 1].nonce
  }

  lemma OthersKept(before: Shelf, after: Shelf, addr: Address)
    requires after - {addr} == before - {addr}
    ensures forall a :: a != addr ==> (a in after <==> a in before) && (a in after ==> after[a] == before[a])
    ensures forall a :: a != addr ==> Run(after, a) == Run(before, a) && ItemsOf(after, a) == ItemsOf(before, a)
  {
    forall a | a != addr
      ensures (a in after <==> a in before) && (a in after ==> after[a] == before[a])
    {
      assert a in after <==> a in after - {addr};
      assert a in before <==> a in before - {addr};
      if a in after {
        assert after[a] == (after - {addr})[a] == before[a];
      }
    }
  }

  lemma SettledAt(pool: TxPool, a: Address)
    requires pool.Valid() && pool.DemotedAt(a)
    requires pool.pendingNonces.Peek(a) ==
      if a in pool.pending then Succ(LastNonce(pool.pending[a].items)) else pool.world.Nonce(a)
    ensures pool.ExactAt(a) <==> pool.GaplessAt(a) && MAX_U64 !in Run(pool.pending, a)
  {
    if a in pool.pending {
      PendingKept(pool, a);
      var m := pool.pending[a].items;
      LastIsGreatest(m);
      ExactIffGapless(m.Keys, pool.world.Nonce(a), LastNonce(m));
    }
  }

  /** Capping a list by one takes out exactly its last transaction. */
  lemma LastIsCapped(list: TxListState, addr: Address)
    requires WellKept(list, addr, true) && |list.items| > 1
    ensures var kept, last := list.Cap(|list.items| - 1), Flat(list.items)[|list.items| - 1];
      && Thinned(list, kept) && Taken(list, kept) == {last} && last.nonce in list.items
      && |kept.items| == |list.items| - 1 && kept.items != map[]
      && forall k :: k in kept.items.Keys <==> k in list.items.Keys && k < last.nonce
  {
    hide Flat, Thinned, TxListState.Ok, CapCut, BelowNonce;
    var n := |list.items| - 1;
    KeptKeyed(list, addr, true);
    OperationsThin(list, 0, 0, 0, n);
    CapKeepsFirst(list.items, n);
    CutAtLast(list.items);
  }

  lemma CutAtLast(m: Items)
    requires Keyed(m) && m != map[]
    ensures var last, kept := Flat(m)[|m| - 1], BelowNonce(m, CapCut(m, |m| - 1));
      && last.nonce in m && m[last.nonce] == last
      && (forall k :: k in kept.Keys <==> k in m.Keys && k < last.nonce)
      && (forall k :: k in m && k !in kept ==> k == last.nonce)
  {
    hide Flat;
    LastIsGreatest(m);
    assert CapCut(m, |m| - 1) == Flat(m)[|m| - 1].nonce;
  }

  lemma ShownTotal(before: Shelf, after: Shelf, addr: Address, kept: TxListState)
    requires addr in before && Shows(after, addr, kept) && kept.items != map[] && after - {addr} == before - {addr}
    ensures addr in after && after == SetList(before, addr, kept) == before[addr := kept]
    ensures after.Keys == before.Keys && Size(after, addr) == |kept.items|
    ensures Run(after, addr) == kept.items.Keys && forall a :: a != addr ==> Run(after, a) == Run(before, a)
  {
    OthersKept(before, after, addr);
    assert after == before[addr := kept];
  }

  /** A transaction up to a nonce is unaffordable. */
  ghost predicate Priceless(m: Items, n: u64, balance: int, gasLimit: u64) {
    exists k :: k in m && k <= n && Unaffordable(balance, gasLimit).Meets(m[k])
  }

  /** At a fallen state nonce the due transactions run from it up to the old run at most. */
  lemma DueRun(pool: TxPool, s: Snapshot, a: Address, was: u64) returns (end: int)
    requires Consistent(s.pending, s.queue, {}, s.known) && was in Run(s.pending, a) && pool.world.Nonce(a) < was
    ensures pool.world.Nonce(a) <= end <= was
    ensures forall n: u64 :: n in pool.Due(s.queue, a, pool.world.Nonce(a)) <==> pool.world.Nonce(a) <= n < end
  {
    hide Consistent, TxListState.Ready, TxListState.ReadyEnd, DueFrom, TxListState.Forward, TxListState.Filter;
    var low := pool.world.Nonce(a);
    end := low;
    if a in s.queue {
      var list := pool.Cleaned(s.queue[a], a);
      CleanedNonces(pool, s.queue[a], a);
      QueuedNotPending(s.pending, s.queue, s.known, a);
      ReadyIsRun(list, low);
      if list.ReadyEnd(low) != 0 {
        end := list.ReadyEnd(low);
      }
    }
  }

  lemma CleanedNonces(pool: TxPool, list: TxListState, a: Address)
    ensures forall n :: n in pool.Cleaned(list, a).items ==> n in list.items && n >= pool.world.Nonce(a)
  {
  }

  lemma PendingKept(pool: TxPool, addr: Address)
    requires pool.Valid() && addr in pool.pending
    ensures pool.pending[addr].items != map[] && WellKept(pool.pending[addr], addr, true)
  {
  }

  /**
   What demotion keeps of pending transactions: those from the state nonce on
   and below the first unaffordable one, if the state nonce is among them.
   */
  function Kept(m: Items, nonce: u64, balance: int, gasLimit: u64): Items {
    var paid := Paid(m, nonce, balance, gasLimit);
    if nonce in paid then paid else map[]
  }

  function Paid(m: Items, nonce: u64, balance: int, gasLimit: u64): Items {
    var recent := FromNonce(m, nonce);
    BelowNonce(recent, FirstMeeting(recent, Unaffordable(balance, gasLimit)))
  }

  /**
   When a state nonce falls to `low`, an account has its old run from `s` to
   `p` and the run from `low` to `end` that promotion adds below it.  Demotion
   leaves no gap if and only if nothing was added, the added run reaches the old
   one, or a transaction up to `s` is unaffordable.
   */
  lemma FallenNonceIff(m: Items, low: u64, end: int, s: int, p: int, balance: int, gasLimit: u64)
    requires low <= end <= s < p <= MAX_U64 + 1 && low < s
    requires forall n: u64 :: n in m <==> low <= n < end || s <= n < p
    ensures Gapless(Kept(m, low, balance, gasLimit).Keys, low) <==>
      end == low || end == s || exists n :: n in m && n <= s && Unaffordable(balance, gasLimit).Meets(m[n])
  {
    var c := Unaffordable(balance, gasLimit);
    var f := FirstMeeting(m, c);
    assert FromNonce(m, low) == m;
    forall n | n in m && c.Meets(m[n])
      ensures f <= n
    {
      assert n in Selected(m, c);
    }
    if f <= s {
      assert Selected(m, c) != map[] && f in m && c.Meets(m[f]);
    } else if low < end < s {
      var paid := Paid(m, low, balance, gasLimit);
      var gap: u64 := end;
      var top: u64 := s;
      assert low in paid && top in paid && gap !in paid;
    }
  }

  /**
   An account whose state nonce falls below `was`, where its pending run began,
   is sound at the new head if and only if nothing of its queue is due, what is
   due reaches the old run, or a transaction up to `was` is unaffordable.
   */
  lemma FallenSound(pool: TxPool, s: Snapshot, a: Address, was: u64, p: u64)
    requires Consistent(s.pending, s.queue, {}, s.known) && Exact(Run(s.pending, a), was, p)
    requires pool.world.Nonce(a) < was < p
    ensures pool.SoundAt(pool.Gathered(s, map[], a), a) <==> pool.ClosesGap(s, was, a)
  {
    hide Consistent, TxPool.Due, Gapless;
    var low, m := pool.world.Nonce(a), pool.Gathered(s, map[], a);
    var end := DueRun(pool, s, a, was);
    assert forall n: u64 :: n in m <==> low <= n < end || was <= n < p by {
      assert Run(s.pending, a) == ItemsOf(s.pending, a).Keys;
    }
    FallenNonceIff(m, low, end, was, p, pool.world.Balance(a), pool.maxGas);
    assert MAX_U64 !in m;
  }

  lemma FallingAre(pool: TxPool, reset: ResetRequest)
    requires pool.Valid()
    ensures forall a :: pool.FallsIn(reset, a) ==>
      && Run(pool.Snap().pending, a) != {}
      && Exact(Run(pool.Snap().pending, a), pool.world.Nonce(a), pool.pendingNonces.Peek(a))
      && reset.head.Some? && reset.head.value.world.Nonce(a) < pool.world.Nonce(a)
  {
    hide Exact;
    forall a | a in pool.pending ensures Run(pool.pending, a) != {} {
      PendingKept(pool, a);
    }
  }

  lemma FallenSoundAt(pool: TxPool, a: Address, was: u64, p: u64)
    requires pool.Valid() && Run(pool.pending, a) != {} && Exact(Run(pool.pending, a), was, p)
    requires pool.world.Nonce(a) < was
    ensures pool.SoundAt(pool.Gathered(pool.Snap(), map[], a), a) <==> pool.ClosesGap(pool.Snap(), was, a)
  {
    FallenSound(pool, pool.Snap(), a, was, p);
  }

  /** Of a nonce not yet used, within the balance and the gas limit. */
  ghost predicate Able(m: Items, n: u64, nonce: u64, balance: int, gasLimit: u64) {
    n in m && n >= nonce && m[n].Cost() <= balance && m[n].gas <= gasLimit
  }

  /** Demotion keeps a transaction exactly if the state nonce is there and nothing from it on is unaffordable. */
  lemma KeptIs(m: Items, nonce: u64, balance: int, gasLimit: u64, n: u64)
    ensures n in Kept(m, nonce, balance, gasLimit) <==>
      && n in m && n >= nonce && nonce in m
      && forall k :: k in m && nonce <= k <= n ==> Able(m, k, nonce, balance, gasLimit)
    ensures n in Kept(m, nonce, balance, gasLimit) ==> Kept(m, nonce, balance, gasLimit)[n] == m[n]
  {
    var recent := FromNonce(m, nonce);
    var unpaid := Selected(recent, Unaffordable(balance, gasLimit));
    assert forall k :: k in recent ==> (k in unpaid <==> !Able(m, k, nonce, balance, gasLimit));
    if unpaid != map[] {
      assert MinNonce(unpaid) in recent;
    }
  }

  /**
   A queued transaction is due exactly if from some nonce up to the virtual one
   all nonces to its own are able, and none below is.
   */
  lemma DueIs(pool: TxPool, waiting: Shelf, a: Address, p: u64, n: u64)
    requires a in waiting && !waiting[a].strict
    ensures var m := waiting[a].items;
      n in pool.Due(waiting, a, p) <==> exists first: u64 :: first <= p && pool.LeadsTo(m, first, n, a)
  {
    var m := waiting[a].items;
    var clean := pool.Cleaned(waiting[a], a);
    assert forall k: u64 :: k in clean.items <==> pool.AbleAt(m, k, a);
    ReadyIsRun(clean, p);
    if n in pool.Due(waiting, a, p) {
      assert pool.LeadsTo(m, MinNonce(clean.items), n, a);
    }
    forall first: u64 | first <= p && pool.LeadsTo(m, first, n, a)
      ensures n in pool.Due(waiting, a, p)
    {
      assert pool.AbleAt(m, first, a) && pool.AbleAt(m, n, a);
      assert MinNonce(clean.items) == first;
      var end := clean.ReadyEnd(p);
      assert end <= n ==> end in clean.items;
    }
  }

  /** What is able and not due stays queued, of a remote account as many as its limit, lowest nonces first. */
  lemma RestIs(pool: TxPool, waiting: Shelf, a: Address, p: u64, n: u64)
    requires a in waiting && WellKept(waiting[a], a, false)
    ensures var later := pool.Later(waiting, a, p);
      n in pool.RestOf(waiting, a, p) <==>
        n in later && (a in pool.locals || |set k | k in later && k < n| < pool.config.accountQueue)
  {
    var clean := pool.Cleaned(waiting[a], a);
    var rest := clean.Ready(p);
    var later := pool.Later(waiting, a, p);
    assert rest.items.Keys == later;
    if n in rest.items {
      CapIs(rest.items, pool.config.accountQueue, n);
      assert Lower(rest.items, n) == set k | k in later && k < n;
    }
  }

  lemma PaidIsKept(pool: TxPool, list: TxListState, addr: Address)
    requires WellKept(list, addr, true)
    ensures var paid := list.Forward(pool.world.Nonce(addr)).Filter(pool.world.Balance(addr), pool.maxGas).items;
      pool.KeptAt(list.items, addr) == if pool.world.Nonce(addr) in paid then paid else map[]
  {
  }

  lemma NothingStored(s: Shelf)
    ensures forall a :: a !in s ==> ItemsOf(s, a) == map[]
  {
  }

  lemma KeptNothing(pool: TxPool)
    ensures forall a :: pool.KeptAt(map[], a) == map[]
  {
  }

  lemma KeptIsDemoted(pool: TxPool, before: Shelf)
    requires forall a :: ItemsOf(pool.pending, a) == pool.KeptAt(ItemsOf(before, a), a)
    ensures forall a :: pool.DemotedAt(a)
  {
    forall a ensures pool.DemotedAt(a) {
      PaidIsRunnable(ItemsOf(before, a), pool.world.Nonce(a), pool.world.Balance(a), pool.maxGas);
    }
  }

  lemma PaidIsRunnable(m: Items, nonce: u64, balance: int, gasLimit: u64)
    ensures Runnable(Paid(m, nonce, balance, gasLimit), nonce, balance, gasLimit)
    ensures Gapless(m.Keys, nonce) ==> Gapless(Paid(m, nonce, balance, gasLimit).Keys, nonce)
    ensures Gapless(m.Keys, nonce) ==> Gapless(Kept(m, nonce, balance, gasLimit).Keys, nonce)
  {
    var c, r := Unaffordable(balance, gasLimit), FromNonce(m, nonce);
    forall n | n in r && c.Meets(r[n])
      ensures n >= FirstMeeting(r, c)
    {
      assert n in Selected(r, c);
    }
  }

  lemma CleanedAreDoomed(pool: TxPool, list: TxListState, addr: Address)
    requires WellKept(list, addr, false)
    ensures var kept := list.Forward(pool.world.Nonce(addr)); var paid := kept.Filter(pool.world.Balance(addr),
                                     pool.maxGas);
      && (forall t :: t in Taken(list, kept) ==> pool.Doomed(t))
      && (forall t :: t in Taken(kept, paid) ==> pool.Doomed(t))
  {
  }

  lemma CappedAreCrowded(pool: TxPool, rest: TxListState, addr: Address)
    requires WellKept(rest, addr, false)
    requires Shows(pool.queue, addr, if addr in pool.locals then rest else rest.Cap(pool.config.accountQueue))
    ensures addr !in pool.locals ==> forall t :: t in Taken(rest, rest.Cap(pool.config.accountQueue)) ==>
      pool.CrowdedOut(t, addr)
  {
    var size := pool.config.accountQueue;
    KeptKeyed(rest, addr, false);
    if addr !in pool.locals && size < |rest.items| {
      CapKeepsFirst(rest.items, size);
    }
  }

  /** What demotion forgets of an account are its hopeless transactions, all of them. */
  lemma DemotedAreDoomed(pool: TxPool, addr: Address)
    requires addr in pool.pending && WellKept(pool.pending[addr], addr, true)
    ensures var list := pool.pending[addr]; var kept := list.Forward(pool.world.Nonce(addr));
      var unpaid := Selected(kept.items, Unaffordable(pool.world.Balance(addr), pool.maxGas));
      forall h :: h in Hashes(Taken(list, kept)) + Hashes(Txs(unpaid)) <==>
        h.preimage.sender == addr && pool.Hopeless(pool.pending, h.preimage)
  {
    var list := pool.pending[addr];
    var kept := list.Forward(pool.world.Nonce(addr));
    var unpaid := Selected(kept.items, Unaffordable(pool.world.Balance(addr), pool.maxGas));
    forall h: Hash ensures h in Hashes(Taken(list, kept)) + Hashes(Txs(unpaid)) <==>
      h.preimage.sender == addr && pool.Hopeless(pool.pending, h.preimage)
    {
      var t := h.preimage;
      assert t.Hash() == h;
      if t.sender == addr && pool.Hopeless(pool.pending, t) {
        assert list.items[t.nonce] == t;
        if t.nonce >= pool.world.Nonce(addr) {
          assert unpaid[t.nonce] == t && t in Txs(unpaid);
        } else {
          assert t in Taken(list, kept);
        }
      }
    }
  }

  lemma HopelessAreStored(pool: TxPool, s: Shelf)
    ensures forall t :: pool.Hopeless(s, t) ==> t.sender in s
  {
  }

  lemma SameHopeless(pool: TxPool, s: Shelf, t: Shelf, a: Address)
    requires ItemsOf(s, a) == ItemsOf(t, a)
    ensures forall x: Tx :: x.sender == a ==> (pool.Hopeless(s, x) <==> pool.Hopeless(t, x))
  {
  }

  /** The transactions of a map. */
  function Txs(m: Items): set<Tx> {
    set n | n in m :: m[n]
  }

  lemma DemotingThins(list: TxListState, addr: Address, nonce: u64, balance: int, gasLimit: u64)
    requires WellKept(list, addr, true)
    ensures var kept := list.Forward(nonce); var paid := kept.Filter(balance, gasLimit);
      && Thinned(list, kept) && Thinned(kept, paid) && Thinned(paid, paid.Cap(0))
      && WellKept(kept, addr, true) && WellKept(paid, addr, true) && paid.Cap(0).items == map[]
      && Txs(Selected(kept.items, Unaffordable(balance, gasLimit))) <= Taken(kept, paid)
  {
    hide TxListState.Ok, Criterion.Meets, TxListState.Filter, TxListState.Cap, TxListState.Forward, Thinned, WellKept;
    var kept := list.Forward(nonce);
    var paid := kept.Filter(balance, gasLimit);
    ThinsTo(list, addr, nonce, balance, gasLimit);
    ThinsTo(kept, addr, nonce, balance, gasLimit);
    ThinsTo(paid, addr, nonce, balance, gasLimit);
    StrictDrops(kept, addr, balance, gasLimit);
    KeptKeyed(paid, addr, true);
    CapToNothing(paid);
  }

  lemma ThinsTo(l: TxListState, addr: Address, nonce: u64, balance: int, gasLimit: u64)
    requires WellKept(l, addr, true)
    ensures Thinned(l, l.Forward(nonce)) && WellKept(l.Forward(nonce), addr, true)
    ensures Thinned(l, l.Filter(balance, gasLimit)) && WellKept(l.Filter(balance, gasLimit), addr, true)
    ensures Thinned(l, l.Cap(0))
  {
    hide TxListState.Filter, TxListState.Cap, TxListState.Forward, Thinned;
    OperationsThin(l, nonce, balance, gasLimit, 0);
    ThinnedKept(l, l.Forward(nonce), addr, true);
    ThinnedKept(l, l.Filter(balance, gasLimit), addr, true);
  }

  lemma StrictDrops(kept: TxListState, addr: Address, balance: int, gasLimit: u64)
    requires WellKept(kept, addr, true)
    ensures Txs(Selected(kept.items, Unaffordable(balance, gasLimit))) <= Taken(kept, kept.Filter(balance, gasLimit))
  {
    StrictFilter(kept, balance, gasLimit);
  }

  lemma KeptKeyed(l: TxListState, addr: Address, strict: bool)
    requires WellKept(l, addr, strict)
    ensures Keyed(l.items)
  {
  }

  lemma CapToNothing(l: TxListState)
    requires Keyed(l.items)
    ensures l.Cap(0).items == map[]
  {
    if |l.items| > 0 {
      CapKeepsFirst(l.items, 0);
    }
  }

  /** In a strict list what is kept lies below everything unaffordable. */
  lemma StrictFilter(l: TxListState, balance: int, gasLimit: u64)
    requires l.strict && l.Ok()
    ensures var paid := l.Filter(balance, gasLimit); var c := Unaffordable(balance, gasLimit);
      && (forall n, k: u64 :: n in paid.items && k in l.items && k <= n ==> k in paid.items)
      && (forall n :: n in paid.items ==> n in l.items && paid.items[n] == l.items[n] && !c.Meets(l.items[n]))
      && (forall n :: n in Selected(l.items, c) ==> n !in paid.items)
  {
    var c := Unaffordable(balance, gasLimit);
    forall n | n in l.items && c.Meets(l.items[n])
      ensures n >= FirstMeeting(l.items, c)
    {
      assert n in Selected(l.items, c);
    }
  }

  /** Every transaction is at or above the nonce and affordable. */
  ghost predicate Runnable(m: Items, nonce: u64, balance: int, gasLimit: u64) {
    forall n :: n in m ==> n >= nonce && !Unaffordable(balance, gasLimit).Meets(m[n])
  }

  lemma EmptyNotStored(pending: Shelf, queue: Shelf, known: set<Hash>, a: Address, l: TxListState)
    requires Consistent(pending, queue, {}, known) && Shows(queue, a, l) && l.items == map[]
    ensures a !in queue
  {
  }

  ghost predicate Within(m: Items, all: Items) {
    forall n :: n in m ==> n in all && m[n] == all[n]
  }

  ghost predicate Above(m: Items, p: int) {
    forall n :: n in m ==> n > p
  }

  lemma RunnableNonces(m: Items, nonce: u64, balance: int, gasLimit: u64)
    requires Runnable(m, nonce, balance, gasLimit)
    ensures Above(m, nonce - 1)
  {
  }

  lemma CleaningThins(list: TxListState, addr: Address, nonce: u64, balance: int, gasLimit: u64)
    requires WellKept(list, addr, false)
    ensures var kept := list.Forward(nonce); var paid := kept.Filter(balance, gasLimit);
      && Thinned(list, kept) && Thinned(kept, paid) && WellKept(kept, addr, false) && WellKept(paid, addr, false)
      && Runnable(paid.items, nonce, balance, gasLimit)
      && paid.items == Without(FromNonce(list.items, nonce), Unaffordable(balance, gasLimit))
      && |paid.items| <= |list.items|
  {
    hide TxListState.Ok, Criterion.Meets, TxListState.Ready, TxListState.Cap, TxListState.WithinCaps;
    var kept := list.Forward(nonce);
    var paid := kept.Filter(balance, gasLimit);
    OperationsThin(list, nonce, balance, gasLimit, 0);
    ThinnedKept(list, kept, addr, false);
    OperationsThin(kept, nonce, balance, gasLimit, 0);
    ThinnedKept(kept, paid, addr, false);
    assert paid.items == Without(kept.items, Unaffordable(balance, gasLimit));
    FewerItems(list.items, paid.items);
  }

  lemma RestThins(list: TxListState, rest: TxListState, addr: Address, size: nat, nonce: u64, balance: int,
                  gasLimit: u64)
    requires WellKept(rest, addr, false) && Runnable(list.items, nonce, balance, gasLimit)
    requires Within(rest.items, list.items)
    ensures var capped := rest.Cap(size);
      && Runnable(rest.items, nonce, balance, gasLimit) && Runnable(capped.items, nonce, balance, gasLimit)
      && Thinned(rest, capped) && WellKept(capped, addr, false)
      && |capped.items| <= |rest.items| && |capped.items| <= size
  {
    OperationsThin(rest, 0, 0, 0, size);
    ThinnedKept(rest, rest.Cap(size), addr, false);
    FewerItems(rest.items, rest.Cap(size).items);
    CappedSize(rest.items, size);
  }

  lemma CappedSize(m: Items, size: nat)
    requires Keyed(m)
    ensures |BelowNonce(m, CapCut(m, size))| == if size < |m| then size else |m|
  {
    if size < |m| {
      CapKeepsFirst(m, size);
    } else {
      assert BelowNonce(m, MAX_U64 + 1) == m;
    }
  }

  lemma FewerItems(m: Items, less: Items)
    requires less.Keys <= m.Keys
    ensures |less| <= |m|
  {
    assert |m.Keys - less.Keys| == |m.Keys| - |less.Keys|;
  }

  /** The transactions of `m` with nonces from `lo` up to, not including, `hi`. */
  function Between(m: Items, lo: int, hi: int): Items {
    map n | n in m && lo <= n < hi :: m[n]
  }

  lemma BetweenNone(base: Items, m: Items, lo: int)
    ensures base + Between(m, lo, lo) == base
  {
  }

  lemma BetweenOne(base: Items, m: Items, lo: int, n: u64)
    requires n in m && lo <= n
    ensures (base + Between(m, lo, n))[n := m[n]] == base + Between(m, lo, n + 1)
  {
  }

  /** The run `Ready` takes from a list. */
  function DueFrom(list: TxListState, p: u64): Items {
    list.items - list.Ready(p).items.Keys
  }

  /** How many transactions are gone: those counted before, and those a list is short of. */
  function Missing(before: int, list: Items, kept: Items): int {
    before + |list| - |kept|
  }

  /** How many of a queue are neither due nor left. */
  function Unplaced(size: int, due: Items, rest: Items): int {
    size - |due| - |rest|
  }

  lemma UnplacedAreMissing(size: int, paid: TxListState, p: u64)
    ensures forall rest: Items ::
      Missing(size - |paid.items|, paid.Ready(p).items, rest) == Unplaced(size, DueFrom(paid, p), rest)
  {
    DueSize(paid, p);
  }

  /** A promotion is a heartbeat of its account. */
  function Woken(beats: map<Address, nat>, a: Address, due: Items, clock: nat): map<Address, nat> {
    if due == map[] then beats else beats[a := clock]
  }

  lemma WokenIs(beats: map<Address, nat>, a: Address, due: Items, clock: nat)
    ensures Woken(beats, a, due, clock) == if due == map[] then beats else beats[a := clock]
  {
  }

  lemma FadedIs(beats: map<Address, nat>, a: Address, rest: Items)
    ensures Faded(beats, a, rest) == if rest == map[] then beats - {a} else beats
  {
  }

  /** An account whose queue is used up has none. */
  function Faded(beats: map<Address, nat>, a: Address, rest: Items): map<Address, nat> {
    if rest == map[] then beats - {a} else beats
  }

  lemma DueSize(list: TxListState, p: u64)
    ensures |DueFrom(list, p)| + |list.Ready(p).items| == |list.items|
  {
    hide TxListState.ReadyEnd;
    SizeWithout(list.items, list.Ready(p).items.Keys);
  }

  lemma SizeWithout(m: Items, keys: set<u64>)
    requires keys <= m.Keys
    ensures |m - keys| + |keys| == |m|
  {
    assert (m - keys).Keys == m.Keys - keys;
    assert |m.Keys - keys| == |m.Keys| - |keys|;
  }

  /** Nothing is due from a list whose nonces all lie above the virtual one. */
  lemma NothingDue(list: TxListState, p: u64)
    requires forall n :: n in list.items ==> n > p
    ensures DueFrom(list, p) == map[]
  {
  }

  lemma CappedIsLess(rest: TxListState, size: nat)
    ensures rest.Cap(size).items.Keys <= rest.items.Keys
  {
  }

  lemma RestIsIdle(pool: TxPool, a: Address, rest: TxListState)
    requires forall n :: n in ItemsOf(pool.queue, a) ==> n in rest.items
    requires Above(rest.items, pool.pendingNonces.Peek(a))
    ensures pool.IdleAt(a)
  {
    forall n | n in Run(pool.queue, a) ensures n > pool.pendingNonces.Peek(a) {
      assert n in ItemsOf(pool.queue, a);
    }
  }

  function Slot(s: Shelf, a: Address): Option<TxListState> {
    if a in s then Some(s[a]) else None
  }

  lemma SameSlots(before: Shelf, after: Shelf, addr: Address)
    requires after - {addr} == before - {addr}
    ensures forall a :: a != addr ==> Slot(after, a) == Slot(before, a)
  {
    OthersKept(before, after, addr);
  }

  /** How an account stands depends on its own lists and virtual nonce alone. */
  lemma StandsByLists(pool: TxPool)
    ensures forall a ::
      pool.At(a) == pool.StandsAt(a, Slot(pool.pending, a), Slot(pool.queue, a), pool.pendingNonces.Peek(a))
  {
    hide Exact, Settling, DueFrom, TxPool.Cleaned, TxPool.Limited, Runnable;
    forall a
      ensures pool.At(a) == pool.StandsAt(a, Slot(pool.pending, a), Slot(pool.queue, a), pool.pendingNonces.Peek(a))
    {
      assert Run(pool.pending, a) == ItemsOf(pool.pending, a).Keys && Run(pool.queue, a) == ItemsOf(pool.queue, a).Keys;
    }
  }

  lemma NoQueueIsTidy(pool: TxPool, a: Address)
    requires a !in pool.queue
    ensures pool.Tidy(a) && pool.IdleAt(a) && ItemsOf(pool.pending, a) == ItemsOf(pool.pending, a) + map[]
    ensures ItemsOf(pool.queue, a) == map[]
  {
  }

  lemma NothingDueAgain(pool: TxPool, a: Address)
    ensures pool.IdleAt(a) ==> pool.DueAt(a) == map[]
  {
    if pool.IdleAt(a) && a in pool.queue {
      assert forall n :: n in pool.Cleaned(pool.queue[a], a).items ==> n in Run(pool.queue, a);
      NothingDue(pool.Cleaned(pool.queue[a], a), pool.pendingNonces.Peek(a));
    }
  }

  /** A tidy queue with nothing next in line is what promotion leaves of it. */
  lemma RestStays(pool: TxPool, a: Address)
    requires pool.Valid() && pool.Tidy(a) && pool.IdleAt(a)
    ensures pool.RestAt(a) == ItemsOf(pool.queue, a)
  {
    if a in pool.queue {
      QueuedKept(pool, a);
      var list := pool.queue[a];
      CleanedStays(list, pool.world.Nonce(a), pool.world.Balance(a), pool.maxGas);
      var clean := pool.Cleaned(list, a);
      assert forall n :: n in clean.items ==> n in Run(pool.queue, a);
      NoneReady(clean, pool.pendingNonces.Peek(a));
      if a !in pool.locals {
        AboveAll(clean.items, pool.config.accountQueue);
      }
    }
  }

  lemma CleanedStays(list: TxListState, nonce: u64, balance: int, gasLimit: u64)
    requires Runnable(list.items, nonce, balance, gasLimit) && !list.strict
    ensures list.Forward(nonce).Filter(balance, gasLimit).items == list.items
  {
  }

  lemma NoneReady(list: TxListState, p: u64)
    requires forall n :: n in list.items ==> n > p
    ensures list.Ready(p).items == list.items
  {
  }

  lemma LastLosesExactness(pool: TxPool, a: Address)
    ensures MAX_U64 in ItemsOf(pool.pending, a) ==> !pool.ExactAt(a)
  {
    if MAX_U64 in ItemsOf(pool.pending, a) {
      LastIsNeverExact(Run(pool.pending, a), pool.world.Nonce(a), pool.pendingNonces.Peek(a));
    }
  }

  /** The pending run after a promotion, and what it does to exactness. */
  lemma RunPromoted(before: Shelf, after: Shelf, addr: Address, list: TxListState, s: u64, p: u64, first: u64, end: int)
    requires first < end <= MAX_U64 + 1 && s <= first <= p
    requires forall n: u64 :: first <= n < end ==> n in list.items && n !in Run(before, addr)
    requires ItemsOf(after, addr) == ItemsOf(before, addr) + Between(list.items, first, end)
    ensures Exact(Run(before, addr), s, p) ==> (Exact(Run(after, addr), s, Succ(end - 1)) <==> end <= MAX_U64)
    ensures Settling(Run(before, addr), s, p) ==> Settling(Run(after, addr), s, Succ(end - 1))
  {
    hide Exact, Settling;
    var due := Between(list.items, first, end);
    assert Run(after, addr) == ItemsOf(after, addr).Keys == Run(before, addr) + due.Keys;
    forall k: u64
      ensures k in Run(after, addr) <==> k in Run(before, addr) || first <= k < end
    {
      assert k in due <==> k in list.items && first <= k < end;
    }
    PromotedIff(Run(before, addr), s, p, first, end, Run(after, addr));
  }

  lemma {:induction false} BetweenSize(m: Items, lo: int, hi: int)
    requires 0 <= lo <= hi <= MAX_U64 + 1 && forall n: u64 :: lo <= n < hi ==> n in m
    ensures |Between(m, lo, hi)| == hi - lo
    decreases hi
  {
    if lo < hi {
      BetweenSize(m, lo, hi - 1);
      var last: u64 := hi - 1;
      assert Between(m, lo, hi) == Between(m, lo, last)[last := m[last]];
    } else {
      assert Between(m, lo, hi) == map[];
    }
  }

  /** A run listed from its first nonce on is its sorted listing. */
  lemma RunIsFlat(m: Items, run: seq<Tx>, first: u64, end: int)
    requires Keyed(m) && first < end <= MAX_U64 + 1 && |run| == end - first
    requires forall n: u64 :: first <= n < end ==> n in m
    requires forall i :: 0 <= i < |run| ==> run[i] == m[first + i]
    ensures run == Flat(Between(m, first, end))
  {
    BetweenSize(m, first, end);
    FlatUnique(Between(m, first, end), run);
  }

  lemma FlatNothing()
    ensures Flat(map[]) == []
  {
  }

  /** The due transactions of the given accounts, each account's in nonce order and once. */
  ghost function DueList(accounts: seq<Address>, due: map<Address, Items>): seq<Tx> {
    if accounts == [] then []
    else
      var front, last := accounts[..|accounts| - 1], accounts[|accounts| - 1];
      DueList(front, due) + if last in front || last !in due then [] else Flat(due[last])
  }

  /** What promotion looks at and changes of one account. */
  datatype Standing = Standing(items: Items, waiting: Items, due: Items, rest: Items, exact: bool, settling: bool,
                               tidy: bool, idle: bool)

  /** How an account stands after promotion, which leaves it nothing to promote. */
  ghost predicate Follows(before: Standing, after: Standing) {
    && after.items == before.items + before.due && after.due == map[] && after.tidy && after.idle
    && after.waiting == before.rest && after.rest == after.waiting
    && (before.exact ==> (after.exact <==> MAX_U64 !in before.due)) && (before.settling ==> after.settling)
    && (MAX_U64 in after.items ==> !after.exact)
  }

  /** Promotion in one turn or in two. */
  lemma FollowsTwice(first: Standing, second: Standing, third: Standing)
    requires first == second || Follows(first, second)
    requires Follows(second, third)
    ensures Follows(first, third)
    ensures Follows(first, second) ==> Flat(second.due) == []
  {
    FlatNothing();
  }

  lemma DueOfEach(pool: TxPool, accounts: seq<Address>)
    ensures forall a :: a in accounts ==> a in pool.DueOf(accounts)
    ensures forall a :: a in accounts ==> pool.DueOf(accounts)[a] == pool.At(a).due
  {
  }

  lemma NoneListed(accounts: seq<Address>, due: map<Address, Items>)
    ensures DueList(accounts[..0], due) == [] && Members(accounts[..0]) == {}
  {
  }

  ghost function Members(accounts: seq<Address>): set<Address> {
    set a | a in accounts
  }

  lemma AllMembers(accounts: seq<Address>)
    ensures accounts[..|accounts|] == accounts && forall a :: a in accounts <==> a in Members(accounts)
  {
  }

  lemma DueListNext(accounts: seq<Address>, due: map<Address, Items>, i: nat)
    requires i < |accounts| && accounts[i] in due
    ensures Members(accounts[..i + 1]) == Members(accounts[..i]) + {accounts[i]}
    ensures DueList(accounts[..i + 1], due)
      == DueList(accounts[..i], due) + if accounts[i] in Members(accounts[..i]) then [] else Flat(due[accounts[i]])
  {
    hide Flat;
    assert accounts[..i + 1] == accounts[..i] + [accounts[i]];
  }

  lemma ReadySplits(list: TxListState, addr: Address, p: u64)
    requires WellKept(list, addr, false)
    ensures var rest, end := list.Ready(p), list.ReadyEnd(p);
      && WellKept(rest, addr, false) && Thinned(list, rest) && Keyed(list.items)
      && Within(rest.items, list.items)
      && (end == 0 ==> rest == list && DueFrom(list, p) == map[] && Above(list.items, p))
      && (end != 0 ==>
        var first := (if list.items == map[] then 0 else MinNonce(list.items));
        && list.items != map[] && first <= p && first < end <= MAX_U64 + 1 && DueFrom(list, p) != map[]
        && Taken(list, rest) == Stretch(list.items, first, end)
        && DueFrom(list, p) == Between(list.items, first, end) && (end == MAX_U64 + 1 <==> MAX_U64 in DueFrom(list, p))
        && Above(rest.items, Succ(end - 1))
        && forall n: u64 :: n in list.items && n !in rest.items <==> first <= n < end)
  {
    hide Thinned, WellKept, Taken, Stretch, DueFrom, TxListState.Ready, TxListState.ReadyEnd;
    ThinnedByReady(list, addr, p);
    ReadyIsRun(list, p);
  }

  /** What is taken from a list is the run from `first` to `end`. */
  ghost predicate Splits(list: TxListState, rest: TxListState, first: u64, end: int) {
    && list.items != map[] && Keyed(list.items) && Thinned(list, rest) && first < end <= MAX_U64 + 1
    && Taken(list, rest) == Stretch(list.items, first, end)
    && forall n: u64 :: first <= n < end ==> n in list.items
  }

  lemma ThinnedByReady(list: TxListState, addr: Address, p: u64)
    requires WellKept(list, addr, false)
    ensures Thinned(list, list.Ready(p)) && WellKept(list.Ready(p), addr, false) && Keyed(list.items)
    ensures forall n :: n in list.Ready(p).items ==> n in list.items && list.Ready(p).items[n] == list.items[n]
  {
    hide TxListState.Ready;
    OperationsThin(list, p, 0, 0, 0);
    ThinnedKept(list, list.Ready(p), addr, false);
  }

  /** `Ready` takes nothing, or the run from the least nonce to the first gap, and leaves what lies beyond. */
  lemma ReadyIsRun(list: TxListState, p: u64)
    ensures var rest, end := list.Ready(p), list.ReadyEnd(p);
      if end == 0 then rest == list && DueFrom(list, p) == map[] && Above(list.items, p)
      else
        var first := (if list.items == map[] then 0 else MinNonce(list.items));
        && list.items != map[] && first <= p && first < end <= MAX_U64 + 1 && DueFrom(list, p) != map[]
        && Taken(list, rest) == Stretch(list.items, first, end)
        && DueFrom(list, p) == Between(list.items, first, end) && (end == MAX_U64 + 1 <==> MAX_U64 in DueFrom(list, p))
        && Above(rest.items, Succ(end - 1))
        && forall n: u64 :: n in list.items && n !in rest.items <==> first <= n < end
  {
    if list.ReadyEnd(p) == 0 {
      FromNonceAll(list.items, 0);
    } else {
      assert MinNonce(list.items) in DueFrom(list, p);
    }
  }

  lemma ShownIsStored(s: Shelf, a: Address, list: TxListState, rest: TxListState)
    requires Shows(s, a, list) && list.items != map[]
    ensures a in s && s[a] == list && Shows(SetList(s, a, rest), a, rest) && SetList(s, a, rest) - {a} == s - {a}
    ensures SetList(s, a, rest).Keys <= s.Keys
  {
  }

  lemma QueuedNotPending(pending: Shelf, queue: Shelf, known: set<Hash>, a: Address)
    requires Consistent(pending, queue, {}, known) && a in queue
    ensures forall n :: n in queue[a].items ==> n !in Run(pending, a)
    ensures forall n :: n in queue[a].items ==> queue[a].items[n].Hash() in known
  {
    forall n | n in queue[a].items
      ensures n !in Run(pending, a) && queue[a].items[n].Hash() in known
    {
      assert Has(queue, a, n) && Holds(queue, queue[a].items[n].Hash().preimage);
    }
  }

  lemma StretchEmpty(m: Items, end: int)
    ensures Stretch(m, end, end) == {}
  {
  }
}
