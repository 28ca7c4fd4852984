/**
 `core/state_transition.go`, `core/gaspool.go` and the transaction loop of
 `core/state_processor.go`: gas is bought, spent, refunded and paid for, on a
 ledger of balances and a block-wide pool of gas.  The EVM is any step that
 moves balances without changing their total and returns no more gas than it
 was given.
 */
module StateTransitions {
  import opened Prelude
  import opened Ledger
  import opened IntrinsicGas
  import Transactions

  const REFUND_QUOTIENT: nat := 2
  const REFUND_QUOTIENT_EIP3529: nat := 5
  const SYSTEM_ADDRESS: Address := Address(0xfffffffffffffffffffffffffffffffffffffffe)

  datatype Message = Message(
    sender: Address, to: Option<Address>, gasPrice: nat, feeCap: Option<nat>, tipCap: nat, gas: u64, value: nat,
    nonce: u64, fake: bool, payload: Transactions.Payload)

  /** What the rules and the block say. */
  datatype Env = Env(
    homestead: bool, istanbul: bool, london: bool, nano: bool, parlia: bool, noBaseFee: bool,
    baseFee: nat, coinbase: Address, blackList: set<Address>)

  /** What the EVM does: deltas that cancel out, nonces it sets, gas it would leave, its refund counter. */
  datatype Execution = Execution(deltas: Balances, nonces: map<Address, nat>, leaves: nat, refund: nat, failed: bool)

  ghost predicate Conserves(x: Execution) {
    Total(x.deltas) == 0
  }

  function GasLeft(x: Execution, given: nat): (r: nat)
    ensures r <= given
  {
    if x.leaves <= given then x.leaves else given
  }

  datatype Failure =
    | NonceTooHigh | NonceTooLow | NonceMax | SenderNoEOA
    | FeeCapVeryHigh | TipVeryHigh | TipAboveFeeCap | FeeCapTooLow
    | InsufficientFunds | GasLimitReached
    | BlackListed | GasOverflow | IntrinsicGasTooLow | InsufficientFundsForTransfer

  class GasPool {
    var gas: u64

    constructor ()
      ensures gas == 0
    {
      gas := 0;
    }

    /** Panics when the pool would leave 64 bits. */
    method AddGas(amount: u64)
      requires gas + amount <= MAX_U64
      modifies this
      ensures gas == old(gas) + amount
    {
      gas := gas + amount;
    }

    method SubGas(amount: u64) returns (ok: bool)
      modifies this
      ensures ok <==> amount <= old(gas)
      ensures gas == if ok then old(gas) - amount else old(gas)
    {
      if gas < amount {
        return false;
      }
      gas := gas - amount;
      ok := true;
    }
  }

  // ---------------------------------------------------------------- what a message must meet

  /** The sender's nonce is the message's, can still grow, and the sender has no code. */
  ghost predicate SenderMayPay(m: Message, nonces: map<Address, nat>, contracts: set<Address>) {
    m.fake || (NonceOf(nonces, m.sender) == m.nonce && m.nonce < MAX_U64 && m.sender !in contracts)
  }

  function NonceOf(nonces: map<Address, nat>, a: Address): nat {
    if a in nonces then nonces[a] else 0
  }

  /** Section "Specification" of EIP-1559: the fee cap covers the tip and the base fee. */
  ghost predicate FeesAreFair(m: Message, env: Env)
    requires env.london ==> m.feeCap.Some?
  {
    env.london && !(env.noBaseFee && m.feeCap.value == 0 && m.tipCap == 0) ==>
      m.feeCap.value < TWO_256 && m.tipCap <= m.feeCap.value && env.baseFee <= m.feeCap.value
  }

  /** What an amount of gas costs. */
  function Wei(gas: int, price: int): int {
    gas * price
  }

  function Upfront(m: Message): int {
    if m.feeCap.Some? then Wei(m.gas, m.feeCap.value) + m.value else Wei(m.gas, m.gasPrice)
  }

  /** The part of the price that reaches the miner. */
  function EffectiveTip(m: Message, env: Env): int
    requires env.london ==> m.feeCap.Some?
  {
    if env.london then Min(m.tipCap, m.feeCap.value - env.baseFee) else m.gasPrice
  }

  /** Wei per gas that nobody gets. */
  function BurnPrice(m: Message, env: Env): int
    requires env.london ==> m.feeCap.Some?
  {
    if env.parlia then 0 else m.gasPrice - EffectiveTip(m, env)
  }

  /** With the price EIP-1559 derives from the caps, the base fee is what is burnt. */
  lemma BurnsBaseFee(m: Message, env: Env)
    requires env.london && m.feeCap.Some? && m.gasPrice == Min(m.tipCap + env.baseFee, m.feeCap.value)
    ensures BurnPrice(m, env) == if env.parlia then 0 else env.baseFee
  {
  }

  /** Before London, and always under Parlia, nothing is burnt. */
  lemma BurnsNothing(m: Message, env: Env)
    requires env.london ==> m.feeCap.Some?
    requires env.parlia || !env.london
    ensures BurnPrice(m, env) == 0
  {
  }

  // ---------------------------------------------------------------- what a transition amounts to

  datatype Result = Rejected(failure: Failure) | Done(usedGas: nat, failed: bool)

  predicate BeforePurchase(f: Failure) {
    f !in {BlackListed, GasOverflow, IntrinsicGasTooLow, InsufficientFundsForTransfer}
  }

  predicate Listed(m: Message, env: Env) {
    env.nano && (m.sender in env.blackList || (m.to.Some? && m.to.value in env.blackList))
  }

  function Intrinsic(m: Message, env: Env): Option<u64> {
    Charge(m.payload.(creation := m.to.None?), env.homestead, env.istanbul)
  }

  /** A message whose gas is bought runs if the gas covers its data and the rest of the balance its value. */
  predicate MayRun(m: Message, env: Env, balance: int) {
    && !Listed(m, env) && Intrinsic(m, env).Some? && Intrinsic(m, env).value <= m.gas
    && (m.value > 0 ==> balance >= m.value)
  }

  /** EIP-3529: a refund is at most a fifth of the gas used, a half before London. */
  function Quotient(env: Env): (q: nat)
    ensures q > 0
  {
    if env.london then REFUND_QUOTIENT_EIP3529 else REFUND_QUOTIENT
  }

  /** The part of the gas used that a refund may reach. */
  function Share(used: nat, quotient: nat): (share: nat)
    requires quotient > 0
    ensures share <= used && share * quotient <= used < (share + 1) * quotient
  {
    CappedShare(used, quotient);
    used / quotient
  }

  function LeftOver(m: Message, env: Env, x: Execution): (left: nat)
    requires Intrinsic(m, env).Some? && Intrinsic(m, env).value <= m.gas
    ensures left <= m.gas
  {
    var unspent := GasLeft(x, m.gas - Intrinsic(m, env).value);
    unspent + Min(x.refund, Share(m.gas - unspent, Quotient(env)))
  }

  /** A message that runs, with the accounts and the gas of the block as they are. */
  ghost predicate Runs(m: Message, env: Env, b: Balances, nonces: map<Address, nat>, contracts: set<Address>, gas: nat)
    requires env.london ==> m.feeCap.Some?
  {
    && SenderMayPay(m, nonces, contracts) && FeesAreFair(m, env)
    && Balance(b, m.sender) >= Upfront(m) && m.gas <= gas
    && MayRun(m, env, Balance(b, m.sender) - Wei(m.gas, m.gasPrice))
  }

  /** What each refusal says; of several reasons the one that is checked first. */
  ghost predicate Reason(f: Failure, m: Message, env: Env, b: Balances, nonces: map<Address, nat>,
                         contracts: set<Address>, gas: nat)
    requires env.london ==> m.feeCap.Some?
  {
    var nonce := NonceOf(nonces, m.sender);
    var capped := SenderMayPay(m, nonces, contracts) && env.london;
    var fair := SenderMayPay(m, nonces, contracts) && FeesAreFair(m, env);
    var bought := fair && Balance(b, m.sender) >= Upfront(m) && m.gas <= gas;
    match f
    case NonceTooHigh => !m.fake && m.nonce > nonce
    case NonceTooLow => !m.fake && m.nonce < nonce
    case NonceMax => !m.fake && m.nonce == nonce == MAX_U64
    case SenderNoEOA => !m.fake && m.nonce == nonce < MAX_U64 && m.sender in contracts
    case FeeCapVeryHigh => capped && m.feeCap.value >= TWO_256
    case TipVeryHigh => capped && m.feeCap.value < TWO_256 <= m.tipCap
    case TipAboveFeeCap => capped && m.feeCap.value < m.tipCap < TWO_256
    case FeeCapTooLow =>
      && capped && m.tipCap <= m.feeCap.value < env.baseFee && m.feeCap.value < TWO_256
      && !(env.noBaseFee && m.feeCap.value == 0 && m.tipCap == 0)
    case InsufficientFunds => fair && Balance(b, m.sender) < Upfront(m)
    case GasLimitReached => fair && Balance(b, m.sender) >= Upfront(m) && m.gas > gas
    case BlackListed => bought && Listed(m, env)
    case GasOverflow => bought && !Listed(m, env) && Intrinsic(m, env).None?
    case IntrinsicGasTooLow => bought && !Listed(m, env) && Intrinsic(m, env).Some? && Intrinsic(m, env).value > m.gas
    case InsufficientFundsForTransfer =>
      && bought && !Listed(m, env) && Intrinsic(m, env).Some? && Intrinsic(m, env).value <= m.gas
      && m.value > 0 && Balance(b, m.sender) - Wei(m.gas, m.gasPrice) < m.value
  }

  /** A message runs or there is a reason why not, and only one. */
  lemma OneReason(f: Failure, g: Failure, m: Message, env: Env, b: Balances, nonces: map<Address, nat>,
                  contracts: set<Address>, gas: nat)
    requires env.london ==> m.feeCap.Some?
    requires Reason(f, m, env, b, nonces, contracts, gas)
    ensures !Runs(m, env, b, nonces, contracts, gas)
    ensures Reason(g, m, env, b, nonces, contracts, gas) ==> f == g
  {
    hide Intrinsic, Wei, Upfront;
  }

  /** A call raises the sender's nonce before the EVM sets any; a creation leaves that to the EVM. */
  function Nonced(nonces: map<Address, nat>, m: Message, x: Execution): map<Address, nat> {
    (if m.to.Some? then nonces[m.sender := (NonceOf(nonces, m.sender) + 1) % TWO_64] else nonces) + x.nonces
  }

  /** Each account's nonce after a run: what the EVM set, or one more for the sender of a call. */
  lemma NoncesAre(nonces: map<Address, nat>, m: Message, x: Execution, a: Address)
    ensures NonceOf(Nonced(nonces, m, x), a)
      == if a in x.nonces then x.nonces[a]
         else if a == m.sender && m.to.Some? then (NonceOf(nonces, a) + 1) % TWO_64
         else NonceOf(nonces, a)
  {
  }

  function Bought(b: Balances, m: Message): Balances {
    b[m.sender := Balance(b, m.sender) - Wei(m.gas, m.gasPrice)]
  }

  function Payee(env: Env): Address {
    if env.parlia then SYSTEM_ADDRESS else env.coinbase
  }

  function PaidPrice(m: Message, env: Env): int
    requires env.london ==> m.feeCap.Some?
  {
    if env.parlia then m.gasPrice else EffectiveTip(m, env)
  }

  function Credited(b: Balances, a: Address, amount: int): Balances {
    b[a := Balance(b, a) + amount]
  }

  /** Gas bought, the EVM's moves made, the gas left over returned and the gas used paid. */
  function Settled(b: Balances, m: Message, env: Env, x: Execution): Balances
    requires Intrinsic(m, env).Some? && Intrinsic(m, env).value <= m.gas && (env.london ==> m.feeCap.Some?)
  {
    var left := LeftOver(m, env, x);
    var returned := Credited(Moved(Bought(b, m), x.deltas), m.sender, Wei(left, m.gasPrice));
    Credited(returned, Payee(env), Wei(m.gas - left, PaidPrice(m, env)))
  }

  /**
   Each account's balance after a settlement.  The sender is short of the price
   of the gas used, and under Parlia the system address has it; otherwise the
   coinbase has the tip EIP-1559 leaves of it.
   */
  lemma BalancesAre(b: Balances, m: Message, env: Env, x: Execution, a: Address)
    requires Intrinsic(m, env).Some? && Intrinsic(m, env).value <= m.gas && (env.london ==> m.feeCap.Some?)
    ensures var used := m.gas - LeftOver(m, env, x);
      var price := if env.parlia || !env.london then m.gasPrice else Min(m.tipCap, m.feeCap.value - env.baseFee);
      var payee := if env.parlia then Address(0xfffffffffffffffffffffffffffffffffffffffe) else env.coinbase;
      Balance(Settled(b, m, env, x), a)
        == Balance(b, a) + Balance(x.deltas, a)
           - (if a == m.sender then used * m.gasPrice else 0) + (if a == payee then used * price else 0)
  {
    hide LeftOver, Intrinsic, Wei;
    var left := LeftOver(m, env, x);
    var used := m.gas - left;
    PaidInFull(left, used, m.gasPrice, 0);
    WeiIs(used, m.gasPrice);
    WeiIs(used, 0);
    WeiIs(used, PaidPrice(m, env));
  }

  lemma WeiIs(gas: int, price: int)
    ensures Wei(gas, price) == gas * price
  {
  }

  /** The gas used: what the run spends, less the refund counter up to a fifth of that, or a half before London. */
  lemma GasUsedIs(m: Message, env: Env, x: Execution)
    requires Intrinsic(m, env).Some? && Intrinsic(m, env).value <= m.gas
    ensures var spent := m.gas - Min(x.leaves, m.gas - Intrinsic(m, env).value);
      m.gas - LeftOver(m, env, x) == spent - Min(x.refund, if env.london then spent / 5 else spent / 2)
  {
    hide Intrinsic;
  }

  /** A settlement changes the total by nothing but the burnt share of the gas used. */
  lemma SettlesTotal(b: Balances, m: Message, env: Env, x: Execution)
    requires Intrinsic(m, env).Some? && Intrinsic(m, env).value <= m.gas && (env.london ==> m.feeCap.Some?)
    requires Conserves(x)
    ensures Total(Settled(b, m, env, x)) == Total(b) - Wei(m.gas - LeftOver(m, env, x), BurnPrice(m, env))
  {
    hide Total, Moved, Intrinsic, LeftOver, EffectiveTip, Wei;
    var left := LeftOver(m, env, x);
    var used := m.gas - left;
    TotalSet(b, m.sender, Balance(b, m.sender) - Wei(m.gas, m.gasPrice));
    var ran := Moved(Bought(b, m), x.deltas);
    TotalMoved(Bought(b, m), x.deltas);
    TotalSet(ran, m.sender, Balance(ran, m.sender) + Wei(left, m.gasPrice));
    var returned := Credited(ran, m.sender, Wei(left, m.gasPrice));
    TotalSet(returned, Payee(env), Balance(returned, Payee(env)) + Wei(used, PaidPrice(m, env)));
    PaidInFull(left, used, m.gasPrice, PaidPrice(m, env));
  }

  lemma PaidInFull(left: nat, used: nat, price: int, paid: int)
    ensures Wei(left + used, price) - Wei(left, price) - Wei(used, paid) == Wei(used, price - paid)
  {
  }

  /** The refund never brings the gas used below the unrefunded share. */
  lemma RefundIsCapped(m: Message, env: Env, x: Execution)
    requires Intrinsic(m, env).Some? && Intrinsic(m, env).value <= m.gas
    ensures var spent := m.gas - GasLeft(x, m.gas - Intrinsic(m, env).value);
      (spent - (m.gas - LeftOver(m, env, x))) * Quotient(env) <= spent
  {
    var spent := m.gas - GasLeft(x, m.gas - Intrinsic(m, env).value);
    if x.refund < Share(spent, Quotient(env)) {
      ShareShrinks(x.refund, Share(spent, Quotient(env)), Quotient(env));
    }
  }

  // ---------------------------------------------------------------- the transition

  class StateTransition {
    const gp: GasPool
    const state: StateDB
    const msg: Message
    const env: Env
    var gas: nat
    var initialGas: nat

    ghost predicate Fresh()
      reads this
    {
      gas == 0 && initialGas == 0 && (env.london ==> msg.feeCap.Some?)
    }

    constructor (gp: GasPool, state: StateDB, msg: Message, env: Env)
      requires env.london ==> msg.feeCap.Some?
      ensures Fresh() && this.gp == gp && this.state == state && this.msg == msg && this.env == env
    {
      this.gp, this.state, this.msg, this.env := gp, state, msg, env;
      gas, initialGas := 0, 0;
    }

    function GasUsed(): int
      reads this
    {
      initialGas - gas
    }

    /** `buyGas`.  A sender whose price is within the cap does not go below zero. */
    method BuyGas() returns (failure: Option<Failure>)
      requires Fresh()
      modifies this, gp, state`balances
      ensures failure.None? <==> Balance(old(state.balances), msg.sender) >= Upfront(msg) && msg.gas <= old(gp.gas)
      ensures failure.Some? ==>
        gp.gas == old(gp.gas) && state.balances == old(state.balances) && BeforePurchase(failure.value)
      ensures failure.Some? ==>
        failure.value
          == if Balance(state.balances, msg.sender) < Upfront(msg) then InsufficientFunds else GasLimitReached
      ensures failure.None? ==>
        && gas == initialGas == msg.gas && gp.gas == old(gp.gas) - msg.gas
        && state.balances == Bought(old(state.balances), msg)
      ensures failure.None? && (msg.feeCap.Some? ==> msg.gasPrice <= msg.feeCap.value) ==>
        Balance(state.balances, msg.sender) >= 0
    {
      var mgval := Wei(msg.gas, msg.gasPrice);
      var balanceCheck := mgval;
      if msg.feeCap.Some? {
        balanceCheck := Wei(msg.gas, msg.feeCap.value);
        balanceCheck := balanceCheck + msg.value;
        CheaperCosts(msg.gas, msg.gasPrice, msg.feeCap.value);
      }
      if Balance(state.balances, msg.sender) < balanceCheck {
        return Some(InsufficientFunds);
      }
      var ok := gp.SubGas(msg.gas);
      if !ok {
        return Some(GasLimitReached);
      }
      gas := gas + msg.gas;
      initialGas := msg.gas;
      state.SubBalance(msg.sender, mgval);
      failure := None;
    }

    /** `preCheck`: passes exactly the messages that may be run, and buys their gas. */
    method PreCheck() returns (failure: Option<Failure>)
      requires Fresh()
      modifies this, gp, state`balances
      ensures failure.None? <==>
        && SenderMayPay(msg, state.nonces, state.contracts) && FeesAreFair(msg, env)
        && Balance(old(state.balances), msg.sender) >= Upfront(msg) && msg.gas <= old(gp.gas)
      ensures failure.Some? ==>
        gp.gas == old(gp.gas) && state.balances == old(state.balances) && BeforePurchase(failure.value)
      ensures failure.Some? ==>
        Reason(failure.value, msg, env, old(state.balances), state.nonces, state.contracts, old(gp.gas))
      ensures failure.None? ==>
        && gas == initialGas == msg.gas && gp.gas == old(gp.gas) - msg.gas
        && state.balances == Bought(old(state.balances), msg)
    {
      hide Intrinsic, Wei, Upfront;
      if !msg.fake {
        var nonce := NonceOf(state.nonces, msg.sender);
        if nonce < msg.nonce {
          return Some(NonceTooHigh);
        } else if nonce > msg.nonce {
          return Some(NonceTooLow);
        } else if nonce == MAX_U64 {
          return Some(NonceMax);
        }
        if msg.sender in state.contracts {
          return Some(SenderNoEOA);
        }
      }
      if env.london {
        var cap := msg.feeCap.value;
        if !env.noBaseFee || cap > 0 || msg.tipCap > 0 {
          if cap >= TWO_256 {
            return Some(FeeCapVeryHigh);
          }
          if msg.tipCap >= TWO_256 {
            return Some(TipVeryHigh);
          }
          if cap < msg.tipCap {
            return Some(TipAboveFeeCap);
          }
          if cap < env.baseFee {
            return Some(FeeCapTooLow);
          }
        }
      }
      failure := BuyGas();
    }

    /** `refundGas`: the refund is capped, and the gas never exceeds what was bought. */
    method RefundGas(quotient: nat, refundCounter: nat)
      requires quotient > 0 && gas <= initialGas && gp.gas + initialGas <= MAX_U64
      modifies this`gas, gp, state`balances
      ensures gas == old(gas) + Min(refundCounter, Share(initialGas - old(gas), quotient)) <= initialGas
      ensures gp.gas == old(gp.gas) + gas
      ensures state.balances == Credited(old(state.balances), msg.sender, Wei(gas, msg.gasPrice))
    {
      hide Share, Wei;
      var refund := Share(GasUsed(), quotient);
      if refund > refundCounter {
        refund := refundCounter;
      }
      gas := gas + refund;
      state.AddBalance(msg.sender, Wei(gas, msg.gasPrice));
      gp.AddGas(gas);
    }

    /**
     `TransitionDb`.  Done, the sender has paid for the gas used and nothing else
     has changed the total but the burnt share; the pool is short of exactly the
     gas used.  Rejected after the gas was bought, the purchase stands.
     */
    method TransitionDb(x: Execution) returns (result: Result)
      requires Fresh() && Conserves(x)
      modifies this, gp, state`balances, state`nonces
      ensures result.Done? <==> Runs(msg, env, old(state.balances), old(state.nonces), state.contracts, old(gp.gas))
      ensures state.nonces == if result.Done? then Nonced(old(state.nonces), msg, x) else old(state.nonces)
      ensures result.Done? && msg.to.Some? && msg.sender !in x.nonces ==>
        NonceOf(state.nonces, msg.sender) == (NonceOf(old(state.nonces), msg.sender) + 1) % TWO_64
      ensures forall a :: a !in x.nonces && a != msg.sender ==>
        NonceOf(state.nonces, a) == NonceOf(old(state.nonces), a)
      ensures result.Rejected? ==>
        Reason(result.failure, msg, env, old(state.balances), old(state.nonces), state.contracts, old(gp.gas))
      ensures result.Done? ==>
        && result.usedGas == msg.gas - LeftOver(msg, env, x) && result.failed == x.failed
        && gp.gas == old(gp.gas) - result.usedGas
        && state.balances == Settled(old(state.balances), msg, env, x)
        && Total(state.balances) == old(Total(state.balances)) - Wei(result.usedGas, BurnPrice(msg, env))
      ensures result.Rejected? && BeforePurchase(result.failure) ==>
        gp.gas == old(gp.gas) && state.balances == old(state.balances)
      ensures result.Rejected? && !BeforePurchase(result.failure) ==>
        gp.gas == old(gp.gas) - msg.gas && state.balances == Bought(old(state.balances), msg)
    {
      hide Total, BurnPrice, FeesAreFair, SenderMayPay, Upfront, Intrinsic, LeftOver, Settled, Wei, Nonced;
      var failure := PreCheck();
      if failure.Some? {
        return Rejected(failure.value);
      }
      if Listed(msg, env) {
        return Rejected(BlackListed);
      }
      var charge := Intrinsic(msg, env);
      if charge.None? {
        return Rejected(GasOverflow);
      }
      if gas < charge.value {
        return Rejected(IntrinsicGasTooLow);
      }
      gas := gas - charge.value;
      if msg.value > 0 && !state.CanTransfer(msg.sender, msg.value) {
        return Rejected(InsufficientFundsForTransfer);
      }
      Settle(x, old(state.balances));
      forall a ensures NonceOf(state.nonces, a)
        == if a in x.nonces then x.nonces[a]
           else if a == msg.sender && msg.to.Some? then (NonceOf(old(state.nonces), a) + 1) % TWO_64
           else NonceOf(old(state.nonces), a)
      {
        NoncesAre(old(state.nonces), msg, x, a);
      }
      result := Done(GasUsed(), x.failed);
    }

    /** A call raises the sender's nonce, and then the EVM sets those it sets. */
    method SetNonces(x: Execution)
      modifies state`nonces
      ensures state.nonces == Nonced(old(state.nonces), msg, x)
    {
      if msg.to.Some? {
        state.nonces := state.nonces[msg.sender := (NonceOf(state.nonces, msg.sender) + 1) % TWO_64];
      }
      state.nonces := state.nonces + x.nonces;
    }

    /** From the run on: the EVM's step, the refund and the fee. */
    method Settle(x: Execution, ghost was: Balances)
      requires Conserves(x) && (env.london ==> msg.feeCap.Some?) && Intrinsic(msg, env).Some?
      requires Intrinsic(msg, env).value <= msg.gas
      requires initialGas == msg.gas && gas == msg.gas - Intrinsic(msg, env).value && gp.gas + msg.gas <= MAX_U64
      requires state.balances == Bought(was, msg)
      modifies this`gas, gp, state`nonces, state`balances
      ensures GasUsed() == msg.gas - LeftOver(msg, env, x) && gp.gas == old(gp.gas) + LeftOver(msg, env, x)
      ensures state.balances == Settled(was, msg, env, x)
      ensures Total(state.balances) == Total(was) - Wei(GasUsed(), BurnPrice(msg, env))
      ensures state.nonces == Nonced(old(state.nonces), msg, x)
    {
      hide Total, BurnPrice, Intrinsic, Moved, Share, GasLeft, Quotient, Payee, PaidPrice, Conserves, Wei, Nonced;
      SetNonces(x);
      state.balances := Moved(state.balances, x.deltas);
      gas := GasLeft(x, gas);
      RefundGas(Quotient(env), x.refund);
      state.AddBalance(Payee(env), Wei(GasUsed(), PaidPrice(msg, env)));
      SettlesTotal(was, msg, env, x);
    }
  }

  lemma CheaperCosts(gas: nat, price: nat, cap: nat)
    ensures price <= cap ==> Wei(gas, price) <= Wei(gas, cap)
    ensures Wei(gas, price) >= 0
  {
  }

  lemma CappedShare(used: nat, quotient: nat)
    requires quotient > 0
    ensures used / quotient <= used && used / quotient * quotient <= used < (used / quotient + 1) * quotient
  {
    var r := used / quotient;
    assert used == r * quotient + used % quotient;
    assert (r + 1) * quotient == r * quotient + quotient;
    MulGrows(r, quotient);
  }

  lemma MulGrows(r: nat, quotient: nat)
    requires quotient > 0
    ensures r <= r * quotient
  {
    assert r * quotient == r * (quotient - 1) + r;
  }

  lemma ShareShrinks(a: nat, b: nat, quotient: nat)
    requires a <= b
    ensures a * quotient <= b * quotient
  {
  }
}
