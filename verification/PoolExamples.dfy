/**
 Pools on which an exact condition of the model fails.
 */
module PoolExamples {
  import opened Prelude
  import opened Transactions
  import opened SortedMap
  import opened TxLists
  import opened Lookup
  import opened PricedList
  import opened PoolState
  import opened Noncer
  import opened TxPools

  lemma Affords(rules: Rules, tx: Tx, local: bool)
    requires Verdict(rules, tx, local).None?
    ensures tx.Cost() <= rules.world.Balance(tx.sender) && tx.gas <= rules.maxGas
  {
  }

  /** Nonces 3 and 5, both affordable, stay pending at state nonce 3. */
  lemma GapStays(pool: TxPool, three: Tx, five: Tx)
    requires pool.world.Nonce(five.sender) == 3 && three.nonce == 3 && three.sender == five.sender
    requires three.Cost() <= pool.world.Balance(five.sender) && three.gas <= pool.maxGas
    requires five.Cost() <= pool.world.Balance(five.sender) && five.gas <= pool.maxGas
    ensures var m := map[5 := five] + map[3 := three];
      pool.KeptAt(m, five.sender).Keys == {3, 5} && !pool.SoundAt(m, five.sender)
  {
    var m: Items := map[5 := five] + map[3 := three];
    assert FromNonce(m, 3) == m;
    assert Selected(m, Unaffordable(pool.world.Balance(five.sender), pool.maxGas)) == map[];
    assert pool.KeptAt(m, five.sender) == m && 5 in m && 4 !in m;
  }

  /** A queue of one executable transaction is due at its nonce. */
  lemma OneIsDue(pool: TxPool, queue: Shelf, tx: Tx)
    requires tx.sender in queue && queue[tx.sender].items == map[tx.nonce := tx] && !queue[tx.sender].strict
    requires tx.Cost() <= pool.world.Balance(tx.sender) && tx.gas <= pool.maxGas
    requires pool.world.Nonce(tx.sender) == tx.nonce
    ensures pool.Due(queue, tx.sender, tx.nonce) == map[tx.nonce := tx]
  {
    var paid := pool.Cleaned(queue[tx.sender], tx.sender);
    assert paid.items == map[tx.nonce := tx];
    assert tx.nonce !in paid.Ready(tx.nonce).items;
  }

  lemma FirstShelved(queue: Shelf, tx: Tx)
    requires tx.sender !in queue
    ensures var shelf := Shelve(queue, tx, false);
      tx.sender in shelf && shelf[tx.sender].items == map[tx.nonce := tx] && !shelf[tx.sender].strict
  {
  }

  /** Reinjecting one transaction there is room for, of an account with nothing queued and not that nonce pending. */
  lemma OneIsQueued(s: Snapshot, t: Snapshot, tx: Tx, bump: nat, capacity: nat, err: Option<PoolError>,
                    made: Clearing)
    requires Admits(s, t, tx, None, bump, capacity, err, made)
    requires SlotSum(s.known) + tx.Slots() <= capacity && tx.Hash() !in s.known
    requires RivalsIn(s.known, tx) == {} && !Has(s.pending, tx.sender, tx.nonce)
    ensures made == Clearing({}, None, s) && t.pending == s.pending && t.queue == Shelve(s.queue, tx, false)
    ensures err.None? && t.known == s.known + {tx.Hash()}
  {
    assert s.known - {} == s.known;
  }

  /**
   The state nonce of an account falls from 5 to 3 with nonce 5 pending, and
   only nonce 3 comes back from the old branch.  The virtual nonce then jumps
   over the missing nonce 4.
   */
  method FallenNonceLeavesGap(pool: TxPool, head: Head, three: Tx, five: Tx) returns (promoted: seq<Tx>)
    requires pool.Valid() && pool.untracked == {}
    requires three.nonce == 3 && five.nonce == 5 && three.sender == five.sender
    requires ItemsOf(pool.pending, five.sender) == map[5 := five] && five.sender !in pool.queue
    requires pool.ExactAt(five.sender) && head.world.Nonce(five.sender) == 3
    requires five.Cost() <= head.world.Balance(five.sender) && five.gas <= head.gasLimit
    requires var rules := Rules(head.world, head.gasLimit, pool.gasPrice, pool.forks);
      Verdict(rules, three, SentBy(three, pool.locals)).None?
    requires three.Hash() !in pool.all.Known() && pool.Fits(three)
    modifies pool, pool.all, pool.priced, pool.pendingNonces
    ensures pool.Valid() && Run(pool.pending, five.sender) == {3, 5} && !pool.ExactAt(five.sender)
  {
    hide Verdict, TxPool.Core, TxPool.ExactAt, TxPool.Due, TxPool.KeptAt, TxPool.SoundAt, Shelve, TxListState.Accepts,
      TxPool.RoomFor, TxPool.Ahead, TxPool.VirtualAhead, TxPool.FallsIn, TxPool.ClosesGap, Admits, RivalsIn, Lowered,
      TxPool.Survives, TxPool.DuesIn, Reports, TxPool.Priced, TxPool.NextAt;
    var a := five.sender;
    SlotsAreKnown(pool);
    RivalsAreKnown(pool, three);
    Affords(Rules(head.world, head.gasLimit, pool.gasPrice, pool.forks), three, SentBy(three, pool.locals));
    ghost var s := pool.Snap();
    ghost var log, virtual;
    promoted, log, virtual := pool.ReorgToHead(ResetRequest(Some(head), [three], true, None));
    OneIsQueued(s, log.trail[1], three, pool.config.priceBump, pool.Capacity(), log.errs[0], log.gone[0]);
    FirstShelved(s.queue, three);
    OneIsDue(pool, log.Last().queue, three);
    GapStays(pool, three, five);
    assert pool.Gathered(log.Last(), virtual, a) == map[5 := five] + map[3 := three];
    RunsAreKeys(pool.pending);
  }

  /** With all that is known pending, nothing is queued. */
  lemma OnlyPending(pool: TxPool, tx: Tx)
    requires pool.Valid() && pool.all.Known() <= {tx.Hash()} && Has(pool.pending, tx.sender, tx.nonce)
    ensures tx.sender !in pool.queue
  {
    if tx.sender in pool.queue {
      QueuedKept(pool, tx.sender);
      var n :| n in pool.queue[tx.sender].items;
      QueuedKnown(pool, tx.sender, n);
    }
  }

  lemma OneKnown(known: set<Hash>, tx: Tx)
    requires known <= {tx.Hash()}
    ensures SlotSum(known) <= tx.Slots()
  {
    if known != {} {
      SlotSumLess(known, tx.Hash());
      assert known - {tx.Hash()} == {};
    }
  }

  lemma NoRivals(tx: Tx)
    ensures RivalsIn({}, tx) == {} && SlotSum({}) == 0
  {
  }

  /** An empty pool to which one transaction is added. */
  method AddFirst(config: Config, world: World, gasLimit: u64, gasPrice: nat, forks: Forks, tx: Tx)
    returns (pool: TxPool)
    requires config.Sane() && Verdict(Rules(world, gasLimit, gasPrice, forks), tx, false).None?
    requires tx.Slots() <= config.globalSlots + config.globalQueue
    ensures fresh(pool) && fresh(pool.all) && fresh(pool.priced) && fresh(pool.pendingNonces)
    ensures pool.Valid() && pool.untracked == {} && pool.all.Known() == {tx.Hash()} && pool.pending == map[]
    ensures pool.queue == Shelve(map[], tx, false) && pool.pendingNonces.nonces == map[]
    ensures pool.ExactAt(tx.sender) && pool.config == config && pool.locals == {} && pool.world == world
    ensures pool.gasPrice == gasPrice && pool.forks == forks && pool.maxGas == gasLimit
  {
    hide TxPool.Core, TxPool.ExactAt, TxPool.SettlingAt, Verdict, Shelve, TxPool.NoRoom, Admits, EvictedFor;
    pool := new TxPool(config, {}, world, gasLimit, gasPrice, forks);
    ghost var s := pool.Snap();
    var replaced, err;
    ghost var made;
    replaced, err, made := pool.Add(tx, false);
    NoRivals(tx);
    OneIsQueued(s, pool.Snap(), tx, config.priceBump, pool.Capacity(), err, made);
  }

  /** An empty pool to which one transaction is added, at its account's state nonce, and promoted. */
  method AddAndPromote(config: Config, world: World, gasLimit: u64, gasPrice: nat, forks: Forks, tx: Tx)
    returns (pool: TxPool)
    requires config.Sane() && tx.nonce == world.Nonce(tx.sender) < MAX_U64
    requires Verdict(Rules(world, gasLimit, gasPrice, forks), tx, false).None?
    requires tx.Slots() <= config.globalSlots + config.globalQueue
    ensures fresh(pool) && fresh(pool.all) && fresh(pool.priced) && fresh(pool.pendingNonces)
    ensures pool.Valid() && pool.untracked == {} && pool.all.Known() <= {tx.Hash()} && pool.all.slots <= tx.Slots()
    ensures ItemsOf(pool.pending, tx.sender) == map[tx.nonce := tx] && tx.sender !in pool.queue
    ensures pool.ExactAt(tx.sender) && pool.config == config && pool.locals == {}
    ensures pool.gasPrice == gasPrice && pool.forks == forks
  {
    hide TxPool.Core, TxPool.ExactAt, Verdict, Shelve;
    pool := AddFirst(config, world, gasLimit, gasPrice, forks, tx);
    Affords(Rules(world, gasLimit, gasPrice, forks), tx, false);
    FirstShelved(map[], tx);
    PromoteFirst(pool, tx);
  }

  /** The only transaction of a pool, queued at its account's state nonce, is promoted. */
  method PromoteFirst(pool: TxPool, tx: Tx)
    requires pool.Valid() && pool.all.Known() == {tx.Hash()} && pool.pending == map[]
    requires tx.sender in pool.queue && pool.queue[tx.sender].items == map[tx.nonce := tx]
    requires !pool.queue[tx.sender].strict
    requires tx.nonce == pool.world.Nonce(tx.sender) < MAX_U64 && tx.Cost() <= pool.world.Balance(tx.sender)
    requires tx.gas <= pool.maxGas && pool.pendingNonces.nonces == map[] && pool.ExactAt(tx.sender)
    modifies pool`pending, pool`queue, pool`beats, pool.all, pool.priced, pool.pendingNonces
    ensures pool.Valid() && pool.all.Known() <= {tx.Hash()} && pool.all.slots <= tx.Slots()
    ensures ItemsOf(pool.pending, tx.sender) == map[tx.nonce := tx] && tx.sender !in pool.queue
    ensures pool.ExactAt(tx.sender)
  {
    hide TxPool.Core, TxPool.ExactAt, TxPool.SettlingAt, TxPool.Due, TxPool.Tidy, TxPool.IdleAt, TxPool.Doomed,
      TxPool.CrowdedOut, Flat;
    OneIsDue(pool, pool.queue, tx);
    PeekIsState(pool, tx.sender);
    var promoted := pool.PromoteAccount(tx.sender);
    ghost var due: Items := map[tx.nonce := tx];
    assert ItemsOf(pool.pending, tx.sender) == due && tx.nonce in due;
    OnlyPending(pool, tx);
    SlotsAreKnown(pool);
    OneKnown(pool.all.Known(), tx);
  }

  lemma PeekIsState(pool: TxPool, a: Address)
    requires pool.Valid() && pool.pendingNonces.nonces == map[]
    ensures pool.pendingNonces.Peek(a) == pool.world.Nonce(a)
  {
  }

  /** The fallen nonce from an empty pool on. */
  method FallenNonceRun(config: Config, world: World, head: Head, gasPrice: nat, forks: Forks, three: Tx, five: Tx)
    returns (pool: TxPool)
    requires config.Sane() && three.nonce == 3 && five.nonce == 5 && three.sender == five.sender
    requires world.Nonce(five.sender) == 5 && head.world.Nonce(five.sender) == 3
    requires Verdict(Rules(world, head.gasLimit, gasPrice, forks), five, false).None?
    requires Verdict(Rules(head.world, head.gasLimit, gasPrice, forks), three, false).None?
    requires five.Cost() <= head.world.Balance(five.sender)
    requires three.Slots() + five.Slots() <= config.globalSlots + config.globalQueue
    ensures pool.Valid() && Run(pool.pending, five.sender) == {3, 5} && !pool.ExactAt(five.sender)
  {
    hide TxPool.Core, TxPool.ExactAt, Verdict;
    Affords(Rules(world, head.gasLimit, gasPrice, forks), five, false);
    pool := AddAndPromote(config, world, head.gasLimit, gasPrice, forks, five);
    var promoted := FallenNonceLeavesGap(pool, head, three, five);
  }

  /** An account whose state nonce is the last one, with that nonce queued: promoting it wraps the virtual nonce. */
  method LastNonceIsLost(pool: TxPool, tx: Tx) returns (promoted: seq<Tx>)
    requires pool.Valid() && tx.nonce == MAX_U64 && pool.world.Nonce(tx.sender) == MAX_U64
    requires tx.sender !in pool.pending && pool.pendingNonces.Peek(tx.sender) == MAX_U64
    requires tx.sender in pool.queue && pool.queue[tx.sender].items == map[tx.nonce := tx]
    requires tx.Cost() <= pool.world.Balance(tx.sender) && tx.gas <= pool.maxGas
    modifies pool, pool.all, pool.priced, pool.pendingNonces
    ensures pool.Valid() && Run(pool.pending, tx.sender) == {tx.nonce}
    ensures old(pool.ExactAt(tx.sender)) && !pool.ExactAt(tx.sender)
  {
    hide TxPool.Core, TxPool.Due, TxPool.Lost, TxPool.At, TxPool.Tidy, TxPool.IdleAt, TxPool.RestOf, TxPool.Doomed,
      TxPool.CrowdedOut, Flat, TxPool.SettlingAt;
    QueuedKept(pool, tx.sender);
    OneIsDue(pool, pool.queue, tx);
    promoted := pool.PromoteAccount(tx.sender);
    RunsAreKeys(pool.pending);
  }

  /** The lost last nonce from an empty pool on. */
  method LastNonceRun(config: Config, world: World, gasLimit: u64, gasPrice: nat, forks: Forks, tx: Tx)
    returns (pool: TxPool)
    requires config.Sane() && tx.nonce == world.Nonce(tx.sender) == MAX_U64
    requires Verdict(Rules(world, gasLimit, gasPrice, forks), tx, false).None?
    requires tx.Slots() <= config.globalSlots + config.globalQueue
    ensures pool.Valid() && Run(pool.pending, tx.sender) == {tx.nonce} && !pool.ExactAt(tx.sender)
  {
    hide TxPool.Core, TxPool.ExactAt, Verdict, Shelve;
    pool := AddFirst(config, world, gasLimit, gasPrice, forks, tx);
    Affords(Rules(world, gasLimit, gasPrice, forks), tx, false);
    FirstShelved(map[], tx);
    PeekIsState(pool, tx.sender);
    var promoted := LastNonceIsLost(pool, tx);
  }

  method Enter(list: TxPricedList, tx: Tx)
    requires list.Valid() && list.all.Valid() && tx.Hash() !in list.all.Known()
    modifies list, list.all
    ensures list.Valid() && list.all.Valid() && list.all.slots == old(list.all.slots) + tx.Slots()
    ensures list.all.remotes.Keys == old(list.all.remotes.Keys) + {tx.Hash()} && list.all.locals == old(list.all.locals)
    ensures multiset(list.urgent) == multiset(old(list.urgent)) + multiset{tx}
    ensures |list.urgent| == |old(list.urgent)| + 1
    ensures list.floating == old(list.floating) && list.stales == old(list.stales) && list.baseFee == old(list.baseFee)
  {
    list.all.Add(tx, false);
    list.Put(tx, false);
    assert |multiset(list.urgent)| == |multiset(old(list.urgent))| + 1;
  }

  lemma {:induction false} OneSlotEach(drop: seq<Tx>)
    requires forall d :: d in drop ==> d.Slots() == 1
    ensures TotalSlots(drop) == |drop|
  {
    if drop != [] {
      OneSlotEach(drop[..|drop| - 1]);
    }
  }

  /** The heaps hold `t` twice among dearer transactions of one slot each. */
  ghost predicate TwiceAmongDearer(heaps: Heaps, t: Tx) {
    && heaps.baseFee == None && heaps.floating == multiset{} && heaps.urgent[t] == 2 && Live(t, heaps.remotes)
    && forall u :: u in heaps.urgent ==> u.Slots() == 1 && (u != t ==> Cheaper(None, t, u))
  }

  /** Two slots take both entries of the cheapest. */
  lemma TwiceTaken(heaps: Heaps, t: Tx, drop: seq<Tx>)
    requires TwiceAmongDearer(heaps, t) && Evicts(heaps, 2, false, drop)
    ensures drop == [t, t] && SeqHashes(drop) == {t.Hash()}
  {
    hide Cheaper;
    forall d | d in drop
      ensures d in heaps.urgent
    {
      assert multiset(drop)[d] > 0;
    }
    OneSlotEach(drop);
    OneSlotEach(drop[..|drop| - 1]);
    assert drop == [drop[0], drop[1]];
    assert drop[0].Hash() in SeqHashes(drop);
  }

  lemma TwoSlotsLive(heaps: Heaps, t: Tx)
    requires TwiceAmongDearer(heaps, t)
    ensures t.Slots() == 1 && Live(t, heaps.remotes) && LiveSlots(heaps.urgent + heaps.floating, heaps.remotes) >= 2
  {
    hide LiveSlots;
    var entries := heaps.urgent + heaps.floating;
    assert t in heaps.urgent;
    LiveSlotsLess(entries, t, heaps.remotes);
    LiveSlotsLess(entries - multiset{t}, t, heaps.remotes);
  }

  lemma EnteredTwice(heaps: Heaps, t: Tx, u: Tx, v: Tx, w: Tx)
    requires t !in {u, v, w} && t.Slots() == u.Slots() == v.Slots() == w.Slots() == 1
    requires Cheaper(None, t, u) && Cheaper(None, t, v) && Cheaper(None, t, w)
    requires heaps.baseFee == None && heaps.floating == multiset{} && Live(t, heaps.remotes)
    requires heaps.urgent == multiset{t, u, v, w} + multiset{t}
    ensures TwiceAmongDearer(heaps, t)
  {
    hide Cheaper;
  }

  /** Four transactions of one slot each in the urgent heap. */
  method EnterFour(t: Tx, u: Tx, v: Tx, w: Tx) returns (list: TxPricedList)
    requires t !in {u, v, w} && u !in {v, w} && v != w
    requires t.Slots() == u.Slots() == v.Slots() == w.Slots() == 1
    ensures list.Valid() && list.all.Valid() && fresh(list) && fresh(list.all) && list.all.slots == 4
    ensures list.all.remotes.Keys == {t.Hash(), u.Hash(), v.Hash(), w.Hash()} && list.all.locals == map[]
    ensures multiset(list.urgent) == multiset{t, u, v, w} && |list.urgent| == 4
    ensures list.floating == [] && list.stales == 0 && list.baseFee == None
  {
    hide TxPricedList.Valid, TxLookup.Valid;
    var all := new TxLookup();
    list := new TxPricedList(all);
    Enter(list, t);
    Enter(list, u);
    Enter(list, v);
    Enter(list, w);
  }

  /** A transaction that leaves the remotes and comes back before the heaps are rebuilt has two entries. */
  method EnterTwice(t: Tx, u: Tx, v: Tx, w: Tx) returns (list: TxPricedList)
    requires t !in {u, v, w} && u !in {v, w} && v != w
    requires t.Slots() == u.Slots() == v.Slots() == w.Slots() == 1
    requires Cheaper(None, t, u) && Cheaper(None, t, v) && Cheaper(None, t, w)
    ensures list.Valid() && list.all.Valid() && fresh(list) && fresh(list.all) && list.all.slots == 4
    ensures TwiceAmongDearer(list.Prices(), t)
  {
    hide Cheaper, TxPricedList.Valid, TxLookup.Valid, TwiceAmongDearer;
    list := EnterFour(t, u, v, w);
    list.all.Remove(t.Hash());
    list.Removed(1, {});
    Enter(list, t);
    EnteredTwice(list.Prices(), t, u, v, w);
  }

  /** Dropping two slots then drops it twice, and would free only the one slot it takes. */
  method TwoEntries(t: Tx, u: Tx, v: Tx, w: Tx) returns (list: TxPricedList, drop: seq<Tx>, ok: bool)
    requires t !in {u, v, w} && u !in {v, w} && v != w
    requires t.Slots() == u.Slots() == v.Slots() == w.Slots() == 1
    requires Cheaper(None, t, u) && Cheaper(None, t, v) && Cheaper(None, t, w)
    ensures ok && drop == [t, t] && TotalSlots(drop) == 2
    ensures list.all.Valid() && t.Hash() in list.all.remotes && list.all.slots == 4
  {
    hide Cheaper, TxPricedList.Valid, CheapestFirst, TotalSlots, LiveSlots, TwiceAmongDearer;
    list := EnterTwice(t, u, v, w);
    ghost var heaps := list.Prices();
    TwoSlotsLive(heaps, t);
    drop, ok := list.Discard(2, false);
    TwiceTaken(heaps, t, drop);
    OneSlotEach(drop);
  }

  lemma RivalsLeft(known: set<Hash>, evicted: set<Hash>, tx: Tx)
    requires RivalsIn(known, tx) == {}
    ensures RivalsIn(known - evicted, tx) == {}
  {
    assert forall h :: h in RivalsIn(known - evicted, tx) ==> h in RivalsIn(known, tx);
  }

  /** One slot goes and two come. */
  lemma OneMoreSlot(known: set<Hash>, t: Tx, tx: Tx)
    requires t.Hash() in known && tx.Hash() !in known && t.Slots() == 1 && tx.Slots() == 2
    ensures SlotSum(known - {t.Hash()} + {tx.Hash()}) == SlotSum(known) + 1
  {
    SlotSumLess(known, t.Hash());
    SlotSumMore(known - {t.Hash()}, tx.Hash());
  }

  lemma RoomForTwo(pool: TxPool, t: Tx, tx: Tx)
    requires TwiceAmongDearer(pool.priced.Prices(), t) && Cmp(None, t, tx) < 0 && tx.Slots() == 2
    requires pool.Valid()
    requires pool.all.slots == pool.Capacity() && pool.changes <= pool.config.globalSlots / 4
    ensures !pool.NoRoom(tx, false)
  {
    hide Cmp, Cheaper, LiveSlots;
    TwoSlotsLive(pool.priced.Prices(), t);
    assert t in multiset(pool.priced.urgent) && Live(t, pool.all.remotes);
  }

  /** A valid transaction with room made for it and no rival left is accepted. */
  lemma Welcomed(s: Snapshot, t: Snapshot, tx: Tx, bump: nat, capacity: nat, err: Option<PoolError>, made: Clearing)
    requires Admits(s, t, tx, None, bump, capacity, err, made) && tx.Hash() !in s.known
    requires err.None? || err == Some(ReplaceUnderpriced)
    requires RivalsIn(s.known - made.evicted, tx) == {}
    ensures err.None? && t.known == s.known - made.evicted + {tx.Hash()}
  {
    hide PutInPlace, CutTo;
  }

  /** With the cheapest remote transaction entered twice, a full pool takes a remote one of two slots for one slot. */
  method AcceptsBeyondCapacity(pool: TxPool, t: Tx, tx: Tx) returns (replaced: bool, err: Option<PoolError>)
    requires pool.Valid() && pool.untracked == {} && TwiceAmongDearer(pool.priced.Prices(), t)
    requires pool.all.slots == pool.Capacity() && pool.changes <= pool.config.globalSlots / 4
    requires tx.Slots() == 2 && tx.sender !in pool.locals && pool.Validate(tx, false).None?
    requires Cmp(None, t, tx) < 0 && tx.Hash() !in pool.all.Known() && RivalsIn(pool.all.Known(), tx) == {}
    modifies pool, pool.all, pool.priced, pool.pendingNonces
    ensures pool.Valid() && err.None? && tx.Hash() in pool.all.Known() && pool.all.slots == pool.Capacity() + 1
  {
    hide TxPool.Core, TxPool.ExactAt, TxPool.SettlingAt, Cmp, Verdict, LiveSlots, TxPool.NoRoom, TwiceAmongDearer,
      Evicts, RivalsIn, Admits, CutAt;
    ghost var heaps, known, s := pool.priced.Prices(), pool.all.Known(), pool.Snap();
    TwoSlotsLive(heaps, t);
    SlotsAreKnown(pool);
    RoomForTwo(pool, t, tx);
    ghost var made;
    replaced, err, made := pool.Add(tx, false);
    ghost var drop :| SeqHashes(drop) == made.evicted && Evicts(heaps, 2, false, drop);
    TwiceTaken(heaps, t, drop);
    RivalsLeft(known, made.evicted, tx);
    Welcomed(s, pool.Snap(), tx, pool.config.priceBump, pool.Capacity(), err, made);
    OneMoreSlot(known, t, tx);
    SlotsAreKnown(pool);
  }

  /** A remote transaction with its account to itself comes to a pool with room for it. */
  method AddApart(pool: TxPool, tx: Tx)
    requires pool.Valid() && pool.untracked == {} && pool.pending == map[] && pool.locals == {}
    requires pool.Validate(tx, false).None? && pool.Fits(tx) && Apart(pool.all.Known(), tx)
    modifies pool`pending, pool`queue, pool`beats, pool`untracked, pool`changes, pool`locals, pool.all, pool.priced,
      pool.pendingNonces
    ensures pool.Valid() && pool.untracked == {} && pool.pending == map[] && pool.locals == {}
    ensures pool.all.Known() == old(pool.all.Known()) + {tx.Hash()}
    ensures pool.all.slots == old(pool.all.slots) + tx.Slots()
    ensures pool.priced.Prices() == Entered(old(pool.priced.Prices()), tx)
    ensures pool.priced.stales == old(pool.priced.stales)
    ensures pool.changes == old(pool.changes)
  {
    hide TxPool.Core, TxPool.ExactAt, TxPool.SettlingAt, Verdict, TxPool.NoRoom, EvictedFor, Admits, Entered;
    SlotsAreKnown(pool);
    NoRivalsApart(pool.all.Known(), tx);
    ghost var s := pool.Snap();
    var replaced, err;
    ghost var made;
    replaced, err, made := pool.Add(tx, false);
    OneIsQueued(s, pool.Snap(), tx, pool.config.priceBump, pool.Capacity(), err, made);
    SlotsAreKnown(pool);
    SlotSumMore(s.known, tx.Hash());
  }

  /** No known transaction is of the same account. */
  ghost predicate Apart(known: set<Hash>, tx: Tx) {
    forall h :: h in known ==> h.preimage.sender != tx.sender
  }

  lemma NoRivalsApart(known: set<Hash>, tx: Tx)
    requires Apart(known, tx)
    ensures tx.Hash() !in known && forall less :: less <= known ==> RivalsIn(less, tx) == {}
  {
  }

  /** Four transactions of one slot each, of four accounts, and a fifth of two slots, of which `t` is the cheapest. */
  ghost predicate CheapFirstOfFive(t: Tx, u: Tx, v: Tx, w: Tx, tx: Tx) {
    && t.Slots() == u.Slots() == v.Slots() == w.Slots() == 1 && tx.Slots() == 2
    && |{t.sender, u.sender, v.sender, w.sender, tx.sender}| == 5
    && Cheaper(None, t, u) && Cheaper(None, t, v) && Cheaper(None, t, w) && Cmp(None, t, tx) < 0
  }

  /** All of them are valid. */
  ghost predicate ValidFive(rules: Rules, t: Tx, u: Tx, v: Tx, w: Tx, tx: Tx) {
    forall x :: x in {t, u, v, w, tx} ==> Verdict(rules, x, false).None?
  }

  lemma AllFive(rules: Rules, t: Tx, u: Tx, v: Tx, w: Tx, tx: Tx)
    requires ValidFive(rules, t, u, v, w, tx) && CheapFirstOfFive(t, u, v, w, tx)
    ensures Verdict(rules, t, false).None? && Verdict(rules, u, false).None? && Verdict(rules, v, false).None?
    ensures Verdict(rules, w, false).None? && Verdict(rules, tx, false).None?
    ensures t.Slots() == u.Slots() == v.Slots() == w.Slots() == 1 && tx.Slots() == 2
    ensures t.sender !in {u.sender, v.sender, w.sender, tx.sender} && u.sender !in {v.sender, w.sender, tx.sender}
    ensures v.sender !in {w.sender, tx.sender} && w.sender != tx.sender
    ensures Cheaper(None, t, u) && Cheaper(None, t, v) && Cheaper(None, t, w) && Cmp(None, t, tx) < 0
  {
    hide Verdict, Cheaper, Cmp;
  }

  /** What the heaps are after four transactions. */
  function FourEntered(t: Tx, u: Tx, v: Tx, w: Tx): Heaps {
    Entered(Entered(Entered(Entered(Heaps(None, multiset{}, multiset{}, map[]), t), u), v), w)
  }

  /** An empty pool of four slots takes one transaction from each of four accounts. */
  method FillFour(config: Config, rules: Rules, t: Tx, u: Tx, v: Tx, w: Tx, ghost tx: Tx) returns (pool: TxPool)
    requires config.Sane() && config.globalSlots + config.globalQueue == 4
    requires CheapFirstOfFive(t, u, v, w, tx) && ValidFive(rules, t, u, v, w, tx)
    ensures fresh(pool) && fresh(pool.all) && fresh(pool.priced) && fresh(pool.pendingNonces)
    ensures pool.Valid() && pool.untracked == {} && pool.pending == map[] && pool.locals == {} && pool.changes == 0
    ensures pool.config == config && Rules(pool.world, pool.maxGas, pool.gasPrice, pool.forks) == rules
    ensures pool.all.Known() == {t.Hash(), u.Hash(), v.Hash(), w.Hash()} && pool.all.slots == 4
    ensures pool.priced.Prices() == FourEntered(t, u, v, w) && pool.priced.stales == 0
  {
    hide TxPool.Core, TxPool.ExactAt, Verdict, Entered, CheapFirstOfFive, ValidFive, Apart;
    AllFive(rules, t, u, v, w, tx);
    pool := new TxPool(config, {}, rules.world, rules.maxGas, rules.gasPrice, rules.forks);
    ApartFromTwo(pool.all.Known(), v, w, t, u);
    AddTwo(pool, t, u);
    ApartFromTwo(pool.all.Known(), t, u, v, w);
    AddTwo(pool, v, w);
    assert {t.Hash(), u.Hash()} + {v.Hash(), w.Hash()} == {t.Hash(), u.Hash(), v.Hash(), w.Hash()};
  }

  lemma ApartFromTwo(known: set<Hash>, t: Tx, u: Tx, x: Tx, y: Tx)
    requires known <= {t.Hash(), u.Hash()} && {x.sender, y.sender} !! {t.sender, u.sender}
    ensures Apart(known, x) && Apart(known, y)
  {
  }

  method AddTwo(pool: TxPool, x: Tx, y: Tx)
    requires pool.Valid() && pool.untracked == {} && pool.pending == map[] && pool.locals == {}
    requires pool.Validate(x, false).None? && pool.Validate(y, false).None? && x.sender != y.sender
    requires pool.all.slots + x.Slots() + y.Slots() <= pool.Capacity()
    requires Apart(pool.all.Known(), x) && Apart(pool.all.Known(), y)
    modifies pool`pending, pool`queue, pool`beats, pool`untracked, pool`changes, pool`locals, pool.all, pool.priced,
      pool.pendingNonces
    ensures pool.Valid() && pool.untracked == {} && pool.pending == map[] && pool.locals == {}
    ensures pool.all.Known() == old(pool.all.Known()) + {x.Hash(), y.Hash()} && pool.changes == old(pool.changes)
    ensures pool.all.slots == old(pool.all.slots) + x.Slots() + y.Slots()
    ensures pool.priced.Prices() == Entered(Entered(old(pool.priced.Prices()), x), y)
    ensures pool.priced.stales == old(pool.priced.stales)
  {
    hide TxPool.Core, Verdict, Entered;
    AddApart(pool, x);
    AddApart(pool, y);
  }

  /** A queued transaction is removed while the heaps are calm. */
  method RemoveApart(pool: TxPool, t: Tx)
    requires pool.Valid() && pool.pending == map[] && t.Hash() in pool.all.Known() && pool.priced.Calm()
    modifies pool`pending, pool`queue, pool`beats, pool.all, pool.priced, pool.pendingNonces
    ensures pool.Valid() && pool.pending == map[] && pool.all.slots == old(pool.all.slots) - t.Slots()
    ensures pool.all.Known() == old(pool.all.Known()) - {t.Hash()}
    ensures pool.priced.Prices() == Stranded(old(pool.priced.Prices()), t.Hash())
    ensures pool.priced.stales == old(pool.priced.stales) + 1
  {
    hide TxPool.Core, TxPool.ExactAt, TxPool.SettlingAt, Stranded;
    SlotsAreKnown(pool);
    SlotSumLess(pool.all.Known(), t.Hash());
    pool.RemoveTx(t.Hash(), true);
    SlotsAreKnown(pool);
  }

  /** The heaps of four transactions are calm, and one of them removed and back again has two entries. */
  lemma FourAndBack(list: TxPricedList, t: Tx, u: Tx, v: Tx, w: Tx)
    requires t !in {u, v, w} && list.Prices() == FourEntered(t, u, v, w) && list.stales == 0
    ensures list.Calm()
    ensures var heaps := Entered(Stranded(FourEntered(t, u, v, w), t.Hash()), t);
      && heaps.baseFee == None && heaps.floating == multiset{} && Live(t, heaps.remotes)
      && heaps.urgent == multiset{t, u, v, w} + multiset{t}
  {
    assert multiset(list.urgent) == multiset{t, u, v, w} && multiset(list.floating) == multiset{};
    assert |list.urgent| == |multiset(list.urgent)| == 4 && |list.floating| == |multiset(list.floating)| == 0;
  }

  lemma ApartFromThree(known: set<Hash>, t: Tx, u: Tx, v: Tx, w: Tx, tx: Tx)
    requires known <= {u.Hash(), v.Hash(), w.Hash()}
    requires t.sender !in {u.sender, v.sender, w.sender} && tx.sender !in {t.sender, u.sender, v.sender, w.sender}
    ensures Apart(known, t) && Apart(known + {t.Hash()}, tx)
  {
  }

  /** Four accounts fill a pool, and the cheapest transaction is removed and comes back. */
  method FillAndReturn(config: Config, rules: Rules, t: Tx, u: Tx, v: Tx, w: Tx, ghost tx: Tx) returns (pool: TxPool)
    requires config.Sane() && config.globalSlots + config.globalQueue == 4
    requires CheapFirstOfFive(t, u, v, w, tx) && ValidFive(rules, t, u, v, w, tx)
    ensures fresh(pool) && fresh(pool.all) && fresh(pool.priced) && fresh(pool.pendingNonces)
    ensures pool.Valid() && pool.untracked == {} && pool.locals == {} && pool.changes == 0 && pool.all.slots == 4
    ensures pool.config == config && Rules(pool.world, pool.maxGas, pool.gasPrice, pool.forks) == rules
    ensures TwiceAmongDearer(pool.priced.Prices(), t) && Apart(pool.all.Known(), tx)
  {
    hide TxPool.Core, TxPool.ExactAt, TxPool.SettlingAt, Verdict, Cheaper, Cmp, TwiceAmongDearer, Entered, Stranded,
      FourEntered, ValidFive, CheapFirstOfFive, RivalsIn, Apart, TxPricedList.Calm;
    AllFive(rules, t, u, v, w, tx);
    pool := FillFour(config, rules, t, u, v, w, tx);
    FourAndBack(pool.priced, t, u, v, w);
    RemoveApart(pool, t);
    ApartFromThree(pool.all.Known(), t, u, v, w, tx);
    AddApart(pool, t);
    EnteredTwice(pool.priced.Prices(), t, u, v, w);
  }

  /**
   From an empty pool of four slots to five: four accounts fill it, the cheapest
   transaction is removed and comes back, which leaves it two heap entries, and
   a remote transaction of two slots takes the place of its one.
   */
  method CapacityRun(config: Config, rules: Rules, t: Tx, u: Tx, v: Tx, w: Tx, tx: Tx)
    returns (pool: TxPool, err: Option<PoolError>)
    requires config.Sane() && config.globalSlots + config.globalQueue == 4
    requires CheapFirstOfFive(t, u, v, w, tx) && ValidFive(rules, t, u, v, w, tx)
    ensures pool.Valid() && err.None? && pool.all.slots == pool.Capacity() + 1
  {
    hide TxPool.Core, TxPool.ExactAt, Verdict, Cmp, TwiceAmongDearer, ValidFive, CheapFirstOfFive, RivalsIn, Apart;
    AllFive(rules, t, u, v, w, tx);
    pool := FillAndReturn(config, rules, t, u, v, w, tx);
    NoRivalsApart(pool.all.Known(), tx);
    var replaced;
    replaced, err := AcceptsBeyondCapacity(pool, t, tx);
  }
}
