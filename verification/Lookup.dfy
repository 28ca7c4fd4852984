/** `txLookup`: all pooled transactions by hash, local and remote apart, with the slots they take. */
module Lookup {
  import opened Prelude
  import opened Transactions

  type Index = map<Hash, Tx>

  /** Every transaction is stored under its own hash. */
  ghost predicate Hashed(m: Index) {
    forall h :: h in m ==> m[h] == h.preimage
  }

  /** The slots of a set of transactions, given by their hashes. */
  ghost function SlotSum(s: set<Hash>): nat {
    if s == {} then 0
    else
      var h :| h in s;
      h.preimage.Slots() + SlotSum(s - {h})
  }

  lemma {:induction false} SlotSumLess(s: set<Hash>, h: Hash)
    requires h in s
    ensures SlotSum(s) == h.preimage.Slots() + SlotSum(s - {h})
  {
    var g :| g in s && SlotSum(s) == g.preimage.Slots() + SlotSum(s - {g});
    if g != h {
      SlotSumLess(s - {g}, h);
      SlotSumLess(s - {h}, g);
      assert s - {g} - {h} == s - {h} - {g};
    }
  }

  lemma SlotSumMore(s: set<Hash>, h: Hash)
    requires h !in s
    ensures SlotSum(s + {h}) == h.preimage.Slots() + SlotSum(s)
  {
    SlotSumLess(s + {h}, h);
    assert s + {h} - {h} == s;
  }

  lemma {:induction false} SlotSumGrows(less: set<Hash>, more: set<Hash>)
    requires less <= more
    ensures SlotSum(less) <= SlotSum(more)
    decreases more
  {
    if more - less == {} {
      forall h | h in more ensures h in less {
        assert h !in more - less;
      }
      assert less == more;
    } else {
      var h :| h in more - less;
      SlotSumLess(more, h);
      SlotSumGrows(less, more - {h});
    }
  }

  class TxLookup {
    var slots: int
    var locals: Index
    var remotes: Index

    ghost function Known(): set<Hash>
      reads this
    {
      locals.Keys + remotes.Keys
    }

    ghost predicate Valid()
      reads this
    {
      && Hashed(locals) && Hashed(remotes)
      && locals.Keys !! remotes.Keys
      && slots == SlotSum(Known())
    }

    constructor ()
      ensures Valid() && locals == map[] && remotes == map[] && slots == 0
    {
      slots, locals, remotes := 0, map[], map[];
    }

    function Get(hash: Hash): (r: Option<Tx>)
      requires Valid()
      reads this
      ensures r == if hash in Known() then Some(hash.preimage) else None
    {
      if hash in locals then Some(locals[hash])
      else if hash in remotes then Some(remotes[hash])
      else None
    }

    method Add(tx: Tx, local: bool)
      requires Valid() && tx.Hash() !in Known()
      modifies this
      ensures Valid() && slots == old(slots) + tx.Slots()
      ensures locals == if local then old(locals)[tx.Hash() := tx] else old(locals)
      ensures remotes == if local then old(remotes) else old(remotes)[tx.Hash() := tx]
      ensures Known() == old(Known()) + {tx.Hash()}
    {
      slots := slots + tx.Slots();
      SlotSumMore(Known(), tx.Hash());
      if local {
        locals := locals[tx.Hash() := tx];
      } else {
        remotes := remotes[tx.Hash() := tx];
      }
      assert Known() == old(Known()) + {tx.Hash()};
    }

    /** Forgets a transaction; an unknown hash is only logged. */
    method Remove(hash: Hash)
      requires Valid()
      modifies this
      ensures Valid() && locals == old(locals) - {hash} && remotes == old(remotes) - {hash}
      ensures Known() == old(Known()) - {hash}
      ensures slots == old(slots) - (if hash in old(Known()) then hash.preimage.Slots() else 0)
    {
      if hash !in locals && hash !in remotes {
        assert locals == locals - {hash} && remotes == remotes - {hash};
        assert Known() == Known() - {hash};
        return;
      }
      SlotSumLess(Known(), hash);
      slots := slots - hash.preimage.Slots();
      locals := locals - {hash};
      remotes := remotes - {hash};
      assert Known() == old(Known()) - {hash};
    }

    /** Moves the remote transactions of the given accounts to the locals and counts them. */
    method RemoteToLocals(accounts: set<Address>) returns (migrated: nat)
      requires Valid()
      modifies this
      ensures Valid() && Known() == old(Known()) && slots == old(slots)
      ensures remotes == OfOthers(old(remotes), accounts) && migrated == |old(remotes)| - |remotes|
    {
      locals, remotes, migrated := Migrate(locals, remotes, accounts);
      assert Known() == old(Known());
    }
  }

  /** A transaction takes the fewest slots of 32 kilobytes that hold it. */
  lemma SlotsHold(tx: Tx)
    ensures tx.size <= tx.Slots() * 32768 && (tx.size > 0 ==> (tx.Slots() - 1) * 32768 < tx.size)
  {
  }

  /** `accountSet.containsTx` */
  predicate SentBy(tx: Tx, accounts: set<Address>) {
    tx.signed && tx.sender in accounts
  }

  function OfOthers(m: Index, accounts: set<Address>): Index {
    map h | h in m && !SentBy(h.preimage, accounts) :: m[h]
  }

  method Migrate(locals0: Index, remotes0: Index, accounts: set<Address>)
    returns (locals: Index, remotes: Index, migrated: nat)
    requires Hashed(locals0) && Hashed(remotes0) && locals0.Keys !! remotes0.Keys
    ensures Hashed(locals) && Hashed(remotes) && locals.Keys !! remotes.Keys
    ensures locals.Keys + remotes.Keys == locals0.Keys + remotes0.Keys
    ensures remotes == OfOthers(remotes0, accounts) && migrated == |remotes0| - |remotes|
  {
    hide SentBy, Split;
    locals, remotes, migrated := locals0, remotes0, 0;
    var todo := remotes0.Keys;
    NothingMoved(locals0, remotes0);
    while todo != {}
      invariant Split(locals, remotes, locals0, remotes0) && todo <= remotes.Keys
      invariant forall h :: h in remotes0 && h !in todo ==> (h in remotes <==> !SentBy(h.preimage, accounts))
      invariant migrated == |remotes0| - |remotes|
      decreases |todo|
    {
      var h :| h in todo;
      todo := todo - {h};
      SplitOne(locals, remotes, locals0, remotes0, h);
      if SentBy(remotes[h], accounts) {
        locals, remotes := locals[h := remotes[h]], remotes - {h};
        migrated := migrated + 1;
      }
    }
    MovedAll(locals, remotes, locals0, remotes0, accounts);
  }

  /** Some of the remotes have been moved to the locals. */
  ghost predicate Split(locals: Index, remotes: Index, locals0: Index, remotes0: Index) {
    && Hashed(locals) && Hashed(remotes) && locals.Keys !! remotes.Keys && remotes.Keys <= remotes0.Keys
    && locals.Keys + remotes.Keys == locals0.Keys + remotes0.Keys && Hashed(remotes0)
  }

  lemma NothingMoved(locals: Index, remotes: Index)
    requires Hashed(locals) && Hashed(remotes) && locals.Keys !! remotes.Keys
    ensures Split(locals, remotes, locals, remotes)
  {
  }

  lemma SplitOne(locals: Index, remotes: Index, locals0: Index, remotes0: Index, h: Hash)
    requires Split(locals, remotes, locals0, remotes0) && h in remotes
    ensures Split(locals[h := remotes[h]], remotes - {h}, locals0, remotes0)
    ensures remotes[h] == h.preimage && |remotes - {h}| == |remotes| - 1 && (remotes - {h}).Keys == remotes.Keys - {h}
  {
    Moved(locals, remotes, h);
  }

  lemma Moved(locals: Index, remotes: Index, h: Hash)
    requires Hashed(locals) && Hashed(remotes) && locals.Keys !! remotes.Keys && h in remotes
    ensures var l, r := locals[h := remotes[h]], remotes - {h};
      && Hashed(l) && Hashed(r) && l.Keys !! r.Keys && l.Keys + r.Keys == locals.Keys + remotes.Keys
      && r.Keys == remotes.Keys - {h} && |r| == |remotes| - 1
  {
    assert (remotes - {h}).Keys == remotes.Keys - {h};
  }

  lemma MovedAll(locals: Index, remotes: Index, locals0: Index, remotes0: Index, accounts: set<Address>)
    requires Split(locals, remotes, locals0, remotes0)
    requires forall h :: h in remotes0 ==> (h in remotes <==> !SentBy(h.preimage, accounts))
    ensures Hashed(locals) && Hashed(remotes) && locals.Keys !! remotes.Keys
    ensures locals.Keys + remotes.Keys == locals0.Keys + remotes0.Keys && remotes == OfOthers(remotes0, accounts)
  {
  }
}
