/**
 What the pool's checks (l2geth/core/tx_pool.go, validateTx) mean: which cause each refusal has, and that
 an accepted transaction is fit for the pool's lists and starts in a block.
 */
module Admission {
  import opened Wrappers
  import opened Transactions
  import opened TxLists
  import opened PoolState
  import opened Promotion
  import Gas
  import Execution = StateTransition

  /** The nonce is used up or, under the OVM, not the account's next. */
  predicate WrongNonce(tx: Tx, chain: ChainState, usingOVM: bool) {
    tx.nonce < chain.Nonce(tx.from) || (usingOVM && tx.nonce > chain.Nonce(tx.from))
  }

  /** The reason an error stands for, by itself. */
  predicate Cause(e: Error, tx: Tx, local: bool, chain: ChainState, gasPrice: int, usingOVM: bool) {
    var charge := Gas.ExactIntrinsic(tx.data, tx.to == None, true, chain.istanbul);
    match e
    case OversizedData => tx.size > 65536
    case NegativeValue => tx.value < 0
    case GasLimit => tx.gas > chain.gasLimit
    case Underpriced => !local && tx.price < gasPrice
    case NonceTooLow => WrongNonce(tx, chain, usingOVM)
    case InsufficientFunds => !usingOVM && chain.Balance(tx.from) < tx.value + tx.gas * tx.price
    case OutOfGas => charge > Gas.MAX_UINT64
    case IntrinsicGas => tx.gas < charge <= Gas.MAX_UINT64
    case KnownTransaction => false
    case ReplaceUnderpriced => false
  }

  /** The order of the checks. */
  function Order(e: Error): nat {
    match e
    case OversizedData => 0
    case NegativeValue => 1
    case GasLimit => 2
    case Underpriced => 3
    case NonceTooLow => 4
    case InsufficientFunds => 5
    case OutOfGas => 6
    case IntrinsicGas => 7
    case KnownTransaction => 8
    case ReplaceUnderpriced => 9
  }

  /** A transaction is refused exactly for its first cause, and accepted exactly without one. */
  lemma FirstCause(tx: Tx, local: bool, chain: ChainState, gasPrice: int, usingOVM: bool)
    ensures forall e :: Check(tx, local, chain, gasPrice, usingOVM) == Some(e) <==>
              && Cause(e, tx, local, chain, gasPrice, usingOVM)
              && forall e' :: Cause(e', tx, local, chain, gasPrice, usingOVM) ==> Order(e) <= Order(e')
    ensures Check(tx, local, chain, gasPrice, usingOVM) == None <==>
            forall e :: !Cause(e, tx, local, chain, gasPrice, usingOVM)
  {
    hide Gas.ExactIntrinsic;
    assert tx.Cost() == tx.value + tx.gas * tx.price;
    var r := Check(tx, local, chain, gasPrice, usingOVM);
    if r.Some? {
      assert Cause(r.value, tx, local, chain, gasPrice, usingOVM);
    }
    forall e, e' | Order(e) == Order(e')
      ensures e == e'
    {
    }
  }

  /** Whether the chain state lets the account pay for a transaction. */
  predicate Payable(tx: Tx, chain: ChainState) {
    tx.value + tx.gas * tx.price <= chain.Balance(tx.from)
  }

  /** What acceptance guarantees: under the OVM the account's next nonce, otherwise fitness for the lists. */
  predicate Admissible(tx: Tx, chain: ChainState, usingOVM: bool) {
    if usingOVM then tx.nonce == chain.Nonce(tx.from) else !UnfitFor(chain, tx)
  }

  /**
   An accepted transaction is fit for the lists, except under the OVM, where the pool leaves it to others to
   see whether the account can pay.
   */
  lemma AcceptedIsFit(tx: Tx, local: bool, chain: ChainState, gasPrice: int, usingOVM: bool)
    requires Check(tx, local, chain, gasPrice, usingOVM) == None
    ensures UnfitFor(chain, tx) <==> usingOVM && !Payable(tx, chain)
    ensures tx.nonce >= chain.Nonce(tx.from) && (!usingOVM ==> Payable(tx, chain))
  {
    hide Gas.ExactIntrinsic;
    assert tx.Cost() == tx.value + tx.gas * tx.price;
  }

  lemma AcceptedIsAdmissible(tx: Tx, local: bool, chain: ChainState, gasPrice: int, usingOVM: bool)
    ensures Check(tx, local, chain, gasPrice, usingOVM) == None ==> Admissible(tx, chain, usingOVM)
  {
    if Check(tx, local, chain, gasPrice, usingOVM) == None {
      AcceptedIsFit(tx, local, chain, gasPrice, usingOVM);
    }
  }

  /** The message a transaction is executed as. */
  function AsMessage(tx: Tx): Execution.Message
    requires tx.value >= 0
  {
    Execution.Message(tx.from, tx.to, tx.price, tx.gas, tx.value, tx.nonce, true, tx.data, Execution.Sequencer)
  }

  /**
   An accepted transaction that is its account's next starts in an empty block on the state it was checked
   against: without the OVM always, and before the second fork too. After it, only the sender's BOBA balance
   or the gas for L1, which the pool does not look at, can keep it from starting.
   */
  lemma AcceptedStarts(tx: Tx, local: bool, chain: ChainState, gasPrice: int, rules: Execution.Rules,
                       quote: Execution.Quote, w: Execution.World)
    requires Check(tx, local, chain, gasPrice, rules.usingOVM) == None && tx.nonce == chain.Nonce(tx.from)
    requires rules.homestead && rules.istanbul == chain.istanbul && (rules.feeTokenUpdate ==> rules.usingOVM)
    requires w.nonces == chain.nonces && w.eth == chain.balances
    ensures var err := Execution.StartError(Execution.NewTerms(AsMessage(tx), rules, quote), w, chain.gasLimit);
            && (!rules.feeTokenUpdate ==> err == None)
            && (err == None || err == Some(Execution.InsufficientBoba) || err == Some(Execution.OutOfGas))
  {
    hide Gas.ExactIntrinsic;
    var t := Execution.NewTerms(AsMessage(tx), rules, quote);
    if !rules.usingOVM {
      assert tx.Cost() == tx.gas * tx.price + tx.value;
      assert Execution.Fee(t) == tx.gas * tx.price;
    }
  }
}
