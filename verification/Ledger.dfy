/** The account balances of a `StateDB`, and the wei they hold together. */
module Ledger {

  datatype Address = Address(id: nat)

  type Balances = map<Address, int>

  function Balance(b: Balances, a: Address): int {
    if a in b then b[a] else 0
  }

  ghost function Total(b: Balances): int {
    if b == map[] then 0
    else
      var a :| a in b;
      b[a] + Total(b - {a})
  }

  lemma {:induction false} TotalWithout(b: Balances, a: Address)
    requires a in b
    ensures Total(b) == b[a] + Total(b - {a})
    decreases |b|
  {
    var k :| k in b && Total(b) == b[k] + Total(b - {k});
    if k != a {
      TotalWithout(b - {k}, a);
      TotalWithout(b - {a}, k);
      assert b - {k} - {a} == b - {a} - {k};
    }
  }

  lemma TotalSet(b: Balances, a: Address, v: int)
    ensures Total(b[a := v]) == Total(b) - Balance(b, a) + v
  {
    TotalWithout(b[a := v], a);
    if a in b {
      TotalWithout(b, a);
      assert b[a := v] - {a} == b - {a};
    } else {
      assert b[a := v] - {a} == b;
    }
  }

  /** Balances changed by an amount for each account. */
  function Moved(b: Balances, deltas: Balances): Balances {
    map a | a in b.Keys + deltas.Keys :: Balance(b, a) + Balance(deltas, a)
  }

  lemma {:induction false} TotalMoved(b: Balances, deltas: Balances)
    ensures Total(Moved(b, deltas)) == Total(b) + Total(deltas)
    decreases |deltas|
  {
    hide Total, Moved;
    if deltas == map[] {
      MovedNone(b);
    } else {
      var a :| a in deltas;
      TotalMoved(b, deltas - {a});
      TotalWithout(deltas, a);
      MovedOne(b, deltas, a);
      TotalSet(Moved(b, deltas - {a}), a, Balance(b, a) + deltas[a]);
    }
  }

  lemma MovedNone(b: Balances)
    ensures Moved(b, map[]) == b && Total(map[]) == 0
  {
  }

  lemma MovedOne(b: Balances, deltas: Balances, a: Address)
    requires a in deltas
    ensures Moved(b, deltas) == Moved(b, deltas - {a})[a := Balance(b, a) + deltas[a]]
    ensures Balance(Moved(b, deltas - {a}), a) == Balance(b, a)
  {
  }

  class StateDB {
    var balances: Balances
    var nonces: map<Address, nat>
    var contracts: set<Address>

    method AddBalance(a: Address, amount: int)
      modifies this`balances
      ensures balances == old(balances)[a := Balance(old(balances), a) + amount]
      ensures Total(balances) == old(Total(balances)) + amount
    {
      TotalSet(balances, a, Balance(balances, a) + amount);
      balances := balances[a := Balance(balances, a) + amount];
    }

    method SubBalance(a: Address, amount: int)
      modifies this`balances
      ensures balances == old(balances)[a := Balance(old(balances), a) - amount]
      ensures Total(balances) == old(Total(balances)) - amount
    {
      TotalSet(balances, a, Balance(balances, a) - amount);
      balances := balances[a := Balance(balances, a) - amount];
    }

    predicate CanTransfer(a: Address, amount: int)
      reads this`balances
    {
      Balance(balances, a) >= amount
    }

    /** `Transfer`, also to the sender itself: nothing is lost, and guarded by `CanTransfer` nobody overdraws. */
    method Transfer(sender: Address, recipient: Address, amount: nat)
      modifies this`balances
      ensures Total(balances) == old(Total(balances))
      ensures sender == recipient ==> Balance(balances, sender) == Balance(old(balances), sender)
      ensures sender != recipient ==>
        && Balance(balances, sender) == Balance(old(balances), sender) - amount
        && Balance(balances, recipient) == Balance(old(balances), recipient) + amount
      ensures forall a :: a != sender && a != recipient ==> Balance(balances, a) == Balance(old(balances), a)
      ensures old(CanTransfer(sender, amount)) && (forall a :: Balance(old(balances), a) >= 0) ==>
        forall a :: Balance(balances, a) >= 0
    {
      SubBalance(sender, amount);
      AddBalance(recipient, amount);
    }
  }
}
