/**
 The pool's validation against the state transition's: a transaction at its
 account's nonce is admitted exactly if a block could run it and it keeps the
 pool's own limits.
 */
module Executability {
  import opened Prelude
  import opened Transactions
  import opened Noncer
  import opened TxPools
  import IntrinsicGas
  import Ledger
  import StateTransitions

  function Account(a: Address): Ledger.Address {
    Ledger.Address(a)
  }

  /** The message a transaction becomes in a block, at the price the block's base fee leads to. */
  function AsMessage(tx: Tx, to: Ledger.Address, baseFee: nat): StateTransitions.Message
    requires tx.value >= 0
  {
    StateTransitions.Message(
      Account(tx.sender), if tx.payload.creation then None else Some(to), Min(tx.tipCap + baseFee, tx.feeCap),
      Some(tx.feeCap), tx.tipCap, tx.gas, tx.value, tx.nonce, false, tx.payload)
  }

  /** The accounts of a state, as the state transition sees them. */
  ghost predicate SameState(world: World, b: Ledger.Balances, nonces: map<Ledger.Address, nat>, a: Address) {
    && Ledger.Balance(b, Account(a)) == world.Balance(a)
    && StateTransitions.NonceOf(nonces, Account(a)) == world.Nonce(a)
  }

  /** A block under the same rules with enough gas left, whose base fee the transaction can pay. */
  ghost predicate Welcome(tx: Tx, rules: Rules, to: Ledger.Address, env: StateTransitions.Env,
                          contracts: set<Ledger.Address>, gas: nat) {
    && env.homestead && env.london && !env.noBaseFee && env.istanbul == rules.forks.istanbul
    && env.baseFee <= tx.feeCap && tx.gas <= gas && Account(tx.sender) !in contracts
    && !(env.nano && (Account(tx.sender) in env.blackList || to in env.blackList))
  }

  /** What the pool asks of a transaction beyond what makes it run. */
  predicate Acceptable(rules: Rules, tx: Tx, local: bool) {
    && tx.signed && tx.size <= MAX_TX_SIZE && tx.gas <= rules.maxGas && (local || tx.tipCap >= rules.gasPrice)
    && (tx.kind == Legacy || (rules.forks.eip2718 && (tx.kind == DynamicFee ==> rules.forks.eip1559)))
  }

  /** At its account's nonce, a transaction passes the pool's validation if and only if a block could run it. */
  lemma AdmittedIffRuns(rules: Rules, tx: Tx, local: bool, to: Ledger.Address, env: StateTransitions.Env,
                        b: Ledger.Balances, nonces: map<Ledger.Address, nat>, contracts: set<Ledger.Address>, gas: nat)
    requires tx.value >= 0 && tx.nonce == rules.world.Nonce(tx.sender) < MAX_U64
    requires SameState(rules.world, b, nonces, tx.sender) && Welcome(tx, rules, to, env, contracts, gas)
    ensures Verdict(rules, tx, local).None? <==>
      && Acceptable(rules, tx, local)
      && StateTransitions.Runs(AsMessage(tx, to, env.baseFee), env, b, nonces, contracts, gas)
  {
    hide IntrinsicGas.Charge;
    var m := AsMessage(tx, to, env.baseFee);
    assert m.payload.(creation := m.to.None?) == tx.payload;
    Affordable(tx.gas, m.gasPrice, tx.feeCap, tx.value, rules.world.Balance(tx.sender));
  }

  /** The cost covers the gas at any price up to the fee cap, and the value beside it. */
  lemma Affordable(gas: nat, price: nat, cap: nat, value: nat, balance: int)
    requires price <= cap
    ensures StateTransitions.Wei(gas, cap) == cap * gas
    ensures balance >= cap * gas + value ==> balance - StateTransitions.Wei(gas, price) >= value
  {
    StateTransitions.CheaperCosts(gas, price, cap);
  }

  /** The rule a refusal names. */
  predicate Breaks(rules: Rules, tx: Tx, local: bool, e: PoolError) {
    match e
    case TypeNotSupported =>
      (tx.kind != Legacy && !rules.forks.eip2718) || (tx.kind == DynamicFee && !rules.forks.eip1559)
    case OversizedData => tx.size > 131072
    case NegativeValue => tx.value < 0
    case GasLimitExceeded => tx.gas > rules.maxGas
    case FeeCapVeryHigh => tx.feeCap >= TWO_256
    case TipVeryHigh => tx.tipCap >= TWO_256
    case TipAboveFeeCap => tx.tipCap > tx.feeCap
    case InvalidSender => !tx.signed
    case UnderpricedTx => !local && tx.tipCap < rules.gasPrice
    case NonceTooLow => tx.nonce < rules.world.Nonce(tx.sender)
    case InsufficientFunds => tx.Cost() > rules.world.Balance(tx.sender)
    case GasOverflow => IntrinsicGas.DataGas(tx.payload, true, rules.forks.istanbul) > MAX_U64
    case TooLittleGas =>
      var charge := IntrinsicGas.Charge(tx.payload, true, rules.forks.istanbul);
      charge.Some? && tx.gas < charge.value
    case _ => false
  }

  /** A refusal names a rule that is broken, and whoever breaks one is refused. */
  lemma RefusedForReason(rules: Rules, tx: Tx, local: bool)
    ensures Verdict(rules, tx, local).Some? ==> Breaks(rules, tx, local, Verdict(rules, tx, local).value)
    ensures Verdict(rules, tx, local).None? ==> forall e :: !Breaks(rules, tx, local, e)
  {
  }

  /** Later nonces are admitted just like that, for when their turn comes. */
  lemma LaterIsAdmitted(rules: Rules, tx: Tx, local: bool)
    ensures Verdict(rules, tx, local).None? <==>
      && tx.nonce >= rules.world.Nonce(tx.sender)
      && Verdict(rules.(world := rules.world.(nonces := rules.world.nonces[tx.sender := tx.nonce])), tx, local).None?
  {
  }
}
