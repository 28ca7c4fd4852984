/** The transaction loop of `StateProcessor.Process`: gas and receipts of a block. */
module StateProcessors {
  import opened Prelude
  import opened Ledger
  import opened StateTransitions

  datatype SystemCheck = IsSystem | IsPlain | CheckFails

  /** A transaction of the block: what the consensus engine calls it, the message it stands for, and its run. */
  datatype TxInput = TxInput(check: SystemCheck, message: Option<Message>, run: Execution)

  datatype Receipt = Receipt(cumulativeGasUsed: nat, gasUsed: nat, failed: bool)

  function GasOf(receipts: seq<Receipt>): nat {
    if receipts == [] then 0 else GasOf(receipts[..|receipts| - 1]) + receipts[|receipts| - 1].gasUsed
  }

  /** Every receipt holds the sum of the gas used up to and including its own transaction. */
  ghost predicate PrefixSums(receipts: seq<Receipt>) {
    forall i :: 0 <= i < |receipts| ==> receipts[i].cumulativeGasUsed == GasOf(receipts[..i + 1])
  }

  lemma SumsPush(receipts: seq<Receipt>, r: Receipt)
    requires PrefixSums(receipts) && r.cumulativeGasUsed == GasOf(receipts) + r.gasUsed
    ensures PrefixSums(receipts + [r]) && GasOf(receipts + [r]) == r.cumulativeGasUsed
  {
    var s := receipts + [r];
    assert s[..|s| - 1] == receipts && s[..|s|] == s;
    forall i | 0 <= i < |receipts| ensures s[i].cumulativeGasUsed == GasOf(s[..i + 1]) {
      assert s[..i + 1] == receipts[..i + 1];
    }
  }

  /** The price EIP-1559 gives a message in a block with a base fee. */
  ghost predicate Priced(m: Message, env: Env) {
    m.feeCap.Some? && m.gasPrice == Min(m.tipCap + env.baseFee, m.feeCap.value)
  }

  ghost predicate WellFormed(env: Env, tx: TxInput) {
    Conserves(tx.run) && (env.london && tx.message.Some? ==> tx.message.value.feeCap.Some?)
  }

  /** The wei per gas that leaves the ledger, when it is the same for every message. */
  ghost predicate BurnsAt(env: Env, tx: TxInput, price: int) {
    WellFormed(env, tx) && (tx.message.Some? ==> BurnPrice(tx.message.value, env) == price)
  }

  lemma BurnRate(env: Env, tx: TxInput)
    requires WellFormed(env, tx)
    ensures env.parlia || !env.london ==> BurnsAt(env, tx, 0)
    ensures env.london && !env.parlia && (tx.message.Some? ==> Priced(tx.message.value, env)) ==>
      BurnsAt(env, tx, env.baseFee)
  {
    if tx.message.Some? {
      if env.parlia || !env.london {
        BurnsNothing(tx.message.value, env);
      } else if Priced(tx.message.value, env) {
        BurnsBaseFee(tx.message.value, env);
      }
    }
  }

  /** The state between two transactions of a block. */
  datatype Running = Running(balances: Balances, nonces: map<Address, nat>, gas: nat, receipts: seq<Receipt>)

  /** What a message does to the state, with the receipt it leaves; nothing if it cannot run. */
  ghost function Step(env: Env, contracts: set<Address>, s: Running, m: Message, x: Execution): Option<Running>
    requires env.london ==> m.feeCap.Some?
  {
    if !Runs(m, env, s.balances, s.nonces, contracts, s.gas) then None
    else
      var used := m.gas - LeftOver(m, env, x);
      Some(Running(Settled(s.balances, m, env, x), Nonced(s.nonces, m, x), s.gas - used,
                   s.receipts + [Receipt(GasOf(s.receipts) + used, used, x.failed)]))
  }

  /**
   The next transaction of a block.  Under Parlia the engine's own ones are left
   to its finalization, and one it cannot tell fails the block, as does one
   whose sender is unknown or that cannot run.
   */
  ghost function Next(env: Env, contracts: set<Address>, isPoSA: bool, s: Running, tx: TxInput): Option<Running>
    requires WellFormed(env, tx)
  {
    if isPoSA && tx.check == CheckFails then None
    else if isPoSA && tx.check == IsSystem then Some(s)
    else if tx.message == None then None
    else Step(env, contracts, s, tx.message.value, tx.run)
  }

  /** The block run one transaction after the other. */
  ghost function RunAll(env: Env, contracts: set<Address>, isPoSA: bool, s: Running, txs: seq<TxInput>): Option<Running>
    requires forall tx :: tx in txs ==> WellFormed(env, tx)
  {
    if txs == [] then Some(s)
    else
      var before := RunAll(env, contracts, isPoSA, s, txs[..|txs| - 1]);
      if before == None then None else Next(env, contracts, isPoSA, before.value, txs[|txs| - 1])
  }

  lemma {:induction false} StaysFailed(env: Env, contracts: set<Address>, isPoSA: bool, s: Running, txs: seq<TxInput>,
                                       i: nat)
    requires (forall tx :: tx in txs ==> WellFormed(env, tx)) && i <= |txs|
    requires RunAll(env, contracts, isPoSA, s, txs[..i]) == None
    ensures RunAll(env, contracts, isPoSA, s, txs) == None
  {
    if i == |txs| {
      assert txs[..i] == txs;
    } else {
      assert txs[..|txs| - 1][..i] == txs[..i];
      StaysFailed(env, contracts, isPoSA, s, txs[..|txs| - 1], i);
    }
  }

  /** A message of a block that is run, and not left to the engine. */
  predicate Plain(isPoSA: bool, tx: TxInput) {
    tx.message.Some? && !(isPoSA && tx.check == IsSystem)
  }

  /** A transaction run on behalf of an account. */
  predicate SentBy(isPoSA: bool, tx: TxInput, a: Address) {
    Plain(isPoSA, tx) && tx.message.value.sender == a
  }

  function Sent(isPoSA: bool, txs: seq<TxInput>, a: Address): nat {
    if txs == [] then 0
    else Sent(isPoSA, txs[..|txs| - 1], a) + if SentBy(isPoSA, txs[|txs| - 1], a) then 1 else 0
  }

  /**
   An account without code: its messages are no calls for show, and the EVM sets
   its nonce only where it creates a contract, to one more than the message's.
   */
  ghost predicate OwnNonce(isPoSA: bool, tx: TxInput, a: Address) {
    && (SentBy(isPoSA, tx, a) ==> !tx.message.value.fake)
    && (a in tx.run.nonces <==> SentBy(isPoSA, tx, a) && tx.message.value.to.None?)
    && (a in tx.run.nonces ==> tx.run.nonces[a] == tx.message.value.nonce + 1)
  }

  lemma CountsOne(env: Env, contracts: set<Address>, isPoSA: bool, s: Running, tx: TxInput, a: Address)
    requires WellFormed(env, tx) && OwnNonce(isPoSA, tx, a) && Next(env, contracts, isPoSA, s, tx).Some?
    ensures NonceOf(Next(env, contracts, isPoSA, s, tx).value.nonces, a)
      == NonceOf(s.nonces, a) + if SentBy(isPoSA, tx, a) then 1 else 0
    ensures SentBy(isPoSA, tx, a) ==> tx.message.value.nonce == NonceOf(s.nonces, a)
  {
    hide Settled, LeftOver, FeesAreFair, MayRun, Upfront, Wei, GasOf, Nonced;
    if Plain(isPoSA, tx) {
      NoncesAre(s.nonces, tx.message.value, tx.run, a);
    }
  }

  /** Over a block an account's nonce grows by one for each of its transactions. */
  lemma {:induction false} NonceCounts(env: Env, contracts: set<Address>, isPoSA: bool, s: Running, txs: seq<TxInput>,
                                       a: Address)
    requires forall tx :: tx in txs ==> WellFormed(env, tx) && OwnNonce(isPoSA, tx, a)
    requires RunAll(env, contracts, isPoSA, s, txs).Some?
    ensures NonceOf(RunAll(env, contracts, isPoSA, s, txs).value.nonces, a)
      == NonceOf(s.nonces, a) + Sent(isPoSA, txs, a)
  {
    hide Next, OwnNonce;
    if txs != [] {
      var front := txs[..|txs| - 1];
      NonceCounts(env, contracts, isPoSA, s, front, a);
      CountsOne(env, contracts, isPoSA, RunAll(env, contracts, isPoSA, s, front).value, txs[|txs| - 1], a);
    }
  }

  /** The messages an account sends in a block have consecutive nonces, from its own on. */
  lemma SentInOrder(env: Env, contracts: set<Address>, isPoSA: bool, s: Running, txs: seq<TxInput>, a: Address, i: nat)
    requires forall tx :: tx in txs ==> WellFormed(env, tx) && OwnNonce(isPoSA, tx, a)
    requires RunAll(env, contracts, isPoSA, s, txs).Some? && i < |txs| && SentBy(isPoSA, txs[i], a)
    ensures txs[i].message.value.nonce == NonceOf(s.nonces, a) + Sent(isPoSA, txs[..i], a)
  {
    hide Next, OwnNonce;
    if RunAll(env, contracts, isPoSA, s, txs[..i + 1]) == None {
      StaysFailed(env, contracts, isPoSA, s, txs, i + 1);
    }
    assert txs[..i + 1][..i] == txs[..i];
    NonceCounts(env, contracts, isPoSA, s, txs[..i], a);
    CountsOne(env, contracts, isPoSA, RunAll(env, contracts, isPoSA, s, txs[..i]).value, txs[i], a);
  }

  lemma {:induction false} SentGrows(isPoSA: bool, txs: seq<TxInput>, a: Address, i: nat, j: nat)
    requires i < j <= |txs| && SentBy(isPoSA, txs[i], a)
    ensures Sent(isPoSA, txs[..i], a) < Sent(isPoSA, txs[..j], a)
  {
    assert txs[..j][..j - 1] == txs[..j - 1];
    if i < j - 1 {
      SentGrows(isPoSA, txs, a, i, j - 1);
    }
  }

  /** No message runs twice in a block. */
  lemma NothingRunsTwice(env: Env, contracts: set<Address>, isPoSA: bool, s: Running, txs: seq<TxInput>, a: Address,
                         i: nat, j: nat)
    requires forall tx :: tx in txs ==> WellFormed(env, tx) && OwnNonce(isPoSA, tx, a)
    requires RunAll(env, contracts, isPoSA, s, txs).Some? && i < j < |txs|
    requires SentBy(isPoSA, txs[i], a) && SentBy(isPoSA, txs[j], a)
    ensures txs[i].message.value.nonce < txs[j].message.value.nonce
  {
    hide RunAll, OwnNonce;
    SentInOrder(env, contracts, isPoSA, s, txs, a, i);
    SentInOrder(env, contracts, isPoSA, s, txs, a, j);
    SentGrows(isPoSA, txs, a, i, j);
  }

  /** A call that ran cannot run again next, whatever the EVM would do, unless the run itself set the nonce. */
  lemma CallRunsOnce(env: Env, contracts: set<Address>, s: Running, m: Message, x: Execution, y: Execution)
    requires (env.london ==> m.feeCap.Some?) && !m.fake && m.to.Some? && m.sender !in x.nonces
    requires Step(env, contracts, s, m, x).Some?
    ensures Step(env, contracts, Step(env, contracts, s, m, x).value, m, y) == None
  {
    hide Settled, LeftOver, FeesAreFair, MayRun, Upfront, Wei, GasOf, Nonced;
    NoncesAre(s.nonces, m, x, m.sender);
  }

  /** `applyTransaction`: the receipt of a message that runs. */
  method ApplyTransaction(msg: Message, env: Env, gp: GasPool, state: StateDB, usedGas: nat, x: Execution)
    returns (receipt: Option<Receipt>)
    requires Conserves(x) && (env.london ==> msg.feeCap.Some?)
    modifies gp, state`balances, state`nonces
    ensures receipt.Some? <==> Runs(msg, env, old(state.balances), old(state.nonces), state.contracts, old(gp.gas))
    ensures receipt.Some? ==>
      && receipt.value.gasUsed == msg.gas - LeftOver(msg, env, x)
      && receipt.value.cumulativeGasUsed == usedGas + receipt.value.gasUsed && receipt.value.failed == x.failed
      && gp.gas == old(gp.gas) - receipt.value.gasUsed
      && state.balances == Settled(old(state.balances), msg, env, x)
      && state.nonces == Nonced(old(state.nonces), msg, x)
      && (msg.to.Some? && msg.sender !in x.nonces ==>
            NonceOf(state.nonces, msg.sender) == (NonceOf(old(state.nonces), msg.sender) + 1) % TWO_64)
      && Total(state.balances) == old(Total(state.balances)) - Wei(receipt.value.gasUsed, BurnPrice(msg, env))
  {
    hide Total, BurnPrice, Settled, LeftOver, Wei, FeesAreFair, MayRun, Upfront, SenderMayPay, Nonced, Reason;
    var st := new StateTransition(gp, state, msg, env);
    var result := st.TransitionDb(x);
    match result {
      case Rejected(_) => receipt := None;
      case Done(used, failed) => receipt := Some(Receipt(usedGas + used, used, failed));
    }
  }

  /**
   `Process`, up to the consensus engine's finalization.  It ends exactly as the
   transactions one after the other do.  Pool and used gas make up the gas
   limit, receipts hold prefix sums, and the total balance changes by the burnt
   price of the gas used.
   */
  method Process(gasLimit: u64, isPoSA: bool, txs: seq<TxInput>, env: Env, state: StateDB, ghost burnt: int)
    returns (ok: bool, receipts: seq<Receipt>, usedGas: nat, gp: GasPool)
    requires forall tx :: tx in txs ==> WellFormed(env, tx)
    modifies state`balances, state`nonces
    ensures fresh(gp)
    ensures var all := RunAll(env, state.contracts, isPoSA,
                              Running(old(state.balances), old(state.nonces), gasLimit, []), txs);
      && (ok <==> all.Some?)
      && (ok ==> all.value == Running(state.balances, state.nonces, gp.gas, receipts))
    ensures ok ==> gp.gas + usedGas == gasLimit && usedGas == GasOf(receipts) && PrefixSums(receipts)
    ensures ok && (forall tx :: tx in txs ==> BurnsAt(env, tx, burnt)) ==>
      Total(state.balances) == old(Total(state.balances)) - Wei(usedGas, burnt)
    ensures !ok ==> receipts == [] && usedGas == 0
  {
    hide Total, BurnPrice, GasOf, PrefixSums, Runs, LeftOver, Settled, Nonced, Wei, Conserves;
    gp := new GasPool();
    gp.AddGas(gasLimit);
    receipts, usedGas := [], 0;
    NoSums(burnt);
    ghost var even := forall tx :: tx in txs ==> BurnsAt(env, tx, burnt);
    ghost var start := Running(state.balances, state.nonces, gasLimit, []);
    for i := 0 to |txs|
      invariant gp.gas + usedGas == gasLimit && usedGas == GasOf(receipts) && PrefixSums(receipts) && fresh(gp)
      invariant RunAll(env, state.contracts, isPoSA, start, txs[..i])
        == Some(Running(state.balances, state.nonces, gp.gas, receipts))
      invariant even ==> Total(state.balances) == old(Total(state.balances)) - Wei(usedGas, burnt)
    {
      assert txs[..i + 1][..i] == txs[..i];
      var tx := txs[i];
      assert WellFormed(env, tx) && (even ==> BurnsAt(env, tx, burnt));
      if isPoSA && tx.check == CheckFails {
        StaysFailed(env, state.contracts, isPoSA, start, txs, i + 1);
        return false, [], 0, gp;
      }
      if !(isPoSA && tx.check == IsSystem) {
        if tx.message == None {
          StaysFailed(env, state.contracts, isPoSA, start, txs, i + 1);
          return false, [], 0, gp;
        }
        var receipt := ApplyTransaction(tx.message.value, env, gp, state, usedGas, tx.run);
        if receipt == None {
          StaysFailed(env, state.contracts, isPoSA, start, txs, i + 1);
          return false, [], 0, gp;
        }
        SumsPush(receipts, receipt.value);
        BurnsMore(usedGas, receipt.value.gasUsed, burnt);
        receipts := receipts + [receipt.value];
        usedGas := receipt.value.cumulativeGasUsed;
      }
    }
    assert txs[..|txs|] == txs;
    ok := true;
  }

  lemma NoSums(price: int)
    ensures GasOf([]) == 0 && PrefixSums([]) && Wei(0, price) == 0
  {
  }

  lemma BurnsMore(a: nat, b: nat, price: int)
    ensures Wei(a + b, price) == Wei(a, price) + Wei(b, price)
  {
  }
}
