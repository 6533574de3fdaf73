/**
 Fee and gas accounting of a message (l2geth/core/state_transition.go), the block gas pool
 (l2geth/core/gaspool.go) and the block loop (l2geth/core/state_processor.go).

 The EVM and the fee oracle are parameters: the EVM may change all balances, but returns no more
 gas than it was given.
 */
module StateTransition {
  import opened Wrappers
  import opened Transactions
  import opened Sums
  import Gas

  // ---------- balances ----------

  type Balances = map<Address, int>

  function Bal(m: Balances, a: Address): int {
    if a in m then m[a] else 0
  }

  function BalOf(m: Balances): Address -> int {
    (a: Address) => Bal(m, a)
  }

  ghost function Total(m: Balances): int {
    Sum(m.Keys, BalOf(m))
  }

  function Credit(m: Balances, a: Address, x: int): Balances {
    m[a := Bal(m, a) + x]
  }

  lemma TotalCredit(m: Balances, a: Address, x: int)
    ensures Total(Credit(m, a, x)) == Total(m) + x
  {
    var m' := Credit(m, a, x);
    if a in m {
      assert m'.Keys == m.Keys;
      SumChange(m.Keys, BalOf(m), BalOf(m'), a);
    } else {
      assert m'.Keys == m.Keys + {a};
      SumPut(m.Keys, BalOf(m'), a);
      SumSame(m.Keys, BalOf(m), BalOf(m'));
    }
  }

  datatype World = World(eth: Balances, boba: Balances, nonces: map<Address, Uint64>) {
    function Nonce(a: Address): Uint64 {
      if a in nonces then nonces[a] else 0
    }
  }

  // ---------- messages and their fee terms ----------

  datatype Origin = Sequencer | L1ToL2

  datatype Message = Message(from: Address, to: Option<Address>, price: nat, gas: Uint64, value: nat,
                             nonce: Uint64, checkNonce: bool, data: seq<Byte>, origin: Origin)

  /** Which rules are active in a block; `vault` is the coinbase, `bobaVault` collects BOBA fees. */
  datatype Rules = Rules(usingOVM: bool, gasUpdate: bool, feeTokenUpdate: bool, homestead: bool, istanbul: bool,
                         vault: Address, bobaVault: Address)

  /** What the fee oracle and the state say about a message before it runs. */
  datatype Quote = Quote(l1MsgFee: nat, l1GasFromState: nat, l2GasForL1: nat, feeTokenSelection: nat,
                         bobaPriceRatio: nat)

  /** The fee terms a message is executed under. */
  datatype Terms = Terms(msg: Message, rules: Rules, price: nat, l1Fee: nat, extraGas: nat, boba: bool, ratio: nat)

  function NewTerms(msg: Message, rules: Rules, quote: Quote): Terms {
    var charged := rules.usingOVM && msg.price > 0;
    var boba := rules.usingOVM && quote.feeTokenSelection == 1 && rules.feeTokenUpdate;
    Terms(msg, rules,
          if boba then 0 else msg.price,
          if charged && !rules.feeTokenUpdate then quote.l1MsgFee else 0,
          if !charged then 0 else if rules.feeTokenUpdate then quote.l1GasFromState else quote.l2GasForL1,
          boba,
          if boba then quote.bobaPriceRatio else 0)
  }

  /**
   What always holds of the terms: no OVM, no extras; the second fork moves the L1 fee into gas; BOBA
   payers pay no ETH.
   */
  ghost predicate Sound(t: Terms) {
    && (!t.rules.usingOVM || t.msg.price == 0 ==> t.l1Fee == 0 && t.extraGas == 0)
    && (t.rules.feeTokenUpdate ==> t.l1Fee == 0)
    && (t.boba ==> t.price == 0 && t.rules.feeTokenUpdate && t.rules.usingOVM)
    && (!t.boba ==> t.price == t.msg.price)
  }

  lemma NewTermsSound(msg: Message, rules: Rules, quote: Quote)
    ensures Sound(NewTerms(msg, rules, quote))
  {
  }

  /** Between the two forks, the only time when extra gas is billed on top of the message's gas. */
  predicate Between(rules: Rules) {
    rules.usingOVM && rules.gasUpdate && !rules.feeTokenUpdate
  }

  /** The ETH fee a message owes up front. */
  function Fee(t: Terms): nat {
    EthValue(t, t.msg.gas)
    + (if t.rules.usingOVM && t.msg.origin == Sequencer
       then (if t.rules.gasUpdate && !t.rules.feeTokenUpdate then EthValue(t, t.extraGas) else t.l1Fee)
       else 0)
  }

  /** An amount of gas in ETH, at the price the sender pays in ETH. */
  function EthValue(t: Terms, gas: nat): nat {
    gas * t.price
  }

  /** An amount of gas in BOBA: at the message's price, times the price ratio. */
  function BobaValue(t: Terms, gas: nat): nat {
    gas * t.msg.price * t.ratio
  }

  function BobaFee(t: Terms): nat {
    if t.boba then BobaValue(t, t.msg.gas) else 0
  }

  /** The part of the fee that a too small balance leaves unpaid. */
  function Shortfall(t: Terms, w: World): nat {
    if Bal(w.eth, t.msg.from) < Fee(t) then Fee(t) - Bal(w.eth, t.msg.from) else 0
  }

  /** What the vault is credited for although messages from L1 are not charged for it. */
  function Unbilled(t: Terms): nat {
    if t.msg.origin == Sequencer then 0
    else if t.rules.gasUpdate then (if Between(t.rules) then EthValue(t, t.extraGas) else 0)
    else t.l1Fee
  }

  datatype VmError = InsufficientBalance | OtherError

  datatype EvmResult = EvmResult(world: World, gasLeft: Uint64, refund: Uint64, error: Option<VmError>)

  type Evm = (World, Message, Uint64) -> EvmResult

  ghost predicate WellBehaved(evm: Evm) {
    forall w, m, g :: evm(w, m, g).gasLeft <= g
  }

  /** `PoolOverflow` stands for the panic of a gas pool that is pushed above 64 bits. */
  datatype Error =
    | NonceTooHigh | NonceTooLow | InsufficientEth | InsufficientBoba
    | GasLimitReached | OutOfGas | TransferFailed | PoolOverflow

  class GasPool {
    var gas: Uint64

    constructor (limit: Uint64)
      ensures gas == limit
    {
      gas := limit;
    }

    /** Returns gas to the block; the source panics instead when the pool would exceed 64 bits. */
    method AddGas(amount: Uint64) returns (ok: bool)
      modifies this
      ensures ok == (old(gas) + amount <= Gas.MAX_UINT64)
      ensures gas == if ok then old(gas) + amount else old(gas)
    {
      if gas > Gas.MAX_UINT64 - amount {
        return false;
      }
      gas := gas + amount;
      return true;
    }

    method SubGas(amount: Uint64) returns (ok: bool)
      modifies this
      ensures ok == (old(gas) >= amount)
      ensures gas == if ok then old(gas) - amount else old(gas)
    {
      if gas < amount {
        return false;
      }
      gas := gas - amount;
      return true;
    }
  }

  /** The world after the fee was taken. */
  function Prepaid(t: Terms, w: World): World {
    w.(boba := if t.boba then Credit(w.boba, t.msg.from, 0 - BobaFee(t)) else w.boba,
       eth := Credit(w.eth, t.msg.from, Shortfall(t, w) - Fee(t)))
  }

  /** The extra gas as the source uses it in gas arithmetic: its low 64 bits. */
  function ExtraGas(t: Terms): Uint64 {
    Wrap(t.extraGas)
  }

  function Intrinsic(t: Terms): Option<Uint64> {
    Gas.Intrinsic(t.msg.data, t.msg.to == None, t.rules.homestead, t.rules.istanbul)
  }

  /** The gas a message needs before the EVM starts: intrinsic, plus the L1 share after the second fork. */
  function Upfront(t: Terms): Option<Uint64> {
    match Intrinsic(t)
    case None => None
    case Some(g) => Some(if t.rules.feeTokenUpdate then Wrap(g + ExtraGas(t)) else g)
  }

  /** Whether the gas of a message covers what it needs before the EVM. */
  predicate Runs(t: Terms) {
    Upfront(t).Some? && Upfront(t).value <= t.msg.gas
  }

  /** The run of the EVM on a prepaid world. */
  function Execution(t: Terms, w: World, evm: Evm): EvmResult
    requires Upfront(t).Some? && Upfront(t).value <= t.msg.gas
  {
    evm(Started(t, w), t.msg, t.msg.gas - Upfront(t).value)
  }

  /** The prepaid world the EVM sees: a call also bumps the sender's nonce. */
  function Started(t: Terms, w: World): World {
    var w' := Prepaid(t, w);
    if t.msg.to == None then w' else w'.(nonces := w'.nonces[t.msg.from := Wrap(w'.Nonce(t.msg.from) + 1)])
  }

  lemma WrapNear(x: int)
    ensures 0 <= x <= Gas.MAX_UINT64 ==> Wrap(x) == x
    ensures -Gas.MAX_UINT64 <= x < 0 ==> Wrap(x) == x + Gas.MAX_UINT64 + 1
    ensures Gas.MAX_UINT64 < x <= 2 * Gas.MAX_UINT64 ==> Wrap(x) == x - Gas.MAX_UINT64 - 1
  {
  }

  /** Whether the refund rule leaves the L1 share out of what it halves. */
  predicate ShareLeftOut(rules: Rules) {
    rules.gasUpdate && rules.feeTokenUpdate
  }

  /** The refund counter, capped at half the gas spent on execution. */
  function Refund(t: Terms, spent: Uint64, counter: Uint64): (r: Uint64)
    ensures r <= counter
    ensures !ShareLeftOut(t.rules) ==> 2 * r <= spent && (r == counter || 2 * r >= spent - 1)
    ensures ShareLeftOut(t.rules) && ExtraGas(t) <= spent ==>
              2 * r <= spent - ExtraGas(t) && (r == counter || 2 * r >= spent - ExtraGas(t) - 1)
  {
    var cap := Wrap(spent - if ShareLeftOut(t.rules) then ExtraGas(t) else 0) / 2;
    if cap > counter then counter else cap
  }

  /** The gas of a message that pays for L1, once that is part of the message's gas. */
  function L1Share(t: Terms): Uint64 {
    if t.rules.feeTokenUpdate then ExtraGas(t) else 0
  }

  /**
   The refund of some run of the message exceeds half the gas spent without the L1 share: because that
   share wraps around, or because the second fork is active without the first, so that the share is not
   left out. Then only a share of one is harmless, if the message can spend but one amount and that is odd.
   */
  predicate Overcaps(t: Terms)
    requires Runs(t)
  {
    && t.rules.feeTokenUpdate
    && if t.rules.gasUpdate then Intrinsic(t).value + ExtraGas(t) > Gas.MAX_UINT64
       else ExtraGas(t) > 1 || (ExtraGas(t) == 1 && !(Upfront(t).value == t.msg.gas && t.msg.gas % 2 == 1))
  }

  /** No run of a message is refunded more than half the gas it spent without the L1 share, exactly if not Overcaps. */
  lemma RefundCap(t: Terms)
    requires Runs(t)
    ensures (forall spent: Uint64, counter: Uint64 :: Upfront(t).value <= spent <= t.msg.gas ==>
               2 * Refund(t, spent, counter) <= spent - L1Share(t))
            <==> !Overcaps(t)
  {
    hide Wrap, Gas.Intrinsic;
    var u, e: int := Upfront(t).value, ExtraGas(t);
    WrapNear(Intrinsic(t).value + e);
    if Overcaps(t) {
      var spent := if e == 1 && u % 2 == 1 && !t.rules.gasUpdate then u + 1 else u;
      WrapNear(spent);
      assert 2 * Refund(t, spent, Gas.MAX_UINT64) > spent - L1Share(t);
    } else {
      forall spent: Uint64, counter: Uint64 | u <= spent <= t.msg.gas
        ensures 2 * Refund(t, spent, counter) <= spent - L1Share(t)
      {
        WrapNear(spent);
      }
    }
  }

  /**
   The intrinsic gas and the L1 share exceed 64 bits, by little enough for the refund rule to exceed the
   gas spent.
   */
  predicate Overrefunds(t: Terms)
    requires Intrinsic(t).Some?
  {
    && ShareLeftOut(t.rules)
    && Intrinsic(t).value + ExtraGas(t) > Gas.MAX_UINT64
    && 2 * (Gas.MAX_UINT64 + 1 - ExtraGas(t)) > Intrinsic(t).value + 1
  }

  /** No run of a message is refunded more gas than it spent, exactly if the L1 share does not wrap around like that. */
  lemma RefundWithinSpent(t: Terms)
    requires Runs(t)
    ensures (forall spent: Uint64, counter: Uint64 :: Upfront(t).value <= spent <= t.msg.gas ==>
               Refund(t, spent, counter) <= spent)
            <==> !Overrefunds(t)
  {
    hide Wrap, Gas.Intrinsic;
    if Overrefunds(t) {
      var g: int, e: int := Intrinsic(t).value, ExtraGas(t);
      WrapNear(g + e);
      WrapNear(Upfront(t).value - e);
      assert Refund(t, Upfront(t).value, Gas.MAX_UINT64) == g / 2;
    } else {
      forall spent: Uint64, counter: Uint64 | Upfront(t).value <= spent <= t.msg.gas
        ensures Refund(t, spent, counter) <= spent
      {
        RefundOfSpent(t, spent, counter);
      }
    }
  }

  lemma RefundOfSpent(t: Terms, spent: Uint64, counter: Uint64)
    requires Intrinsic(t).Some? && Upfront(t).value <= spent && !Overrefunds(t)
    ensures Refund(t, spent, counter) <= spent
  {
    hide Wrap, Gas.Intrinsic;
    WrapNear(spent);
    WrapNear(spent - ExtraGas(t));
    WrapNear(Intrinsic(t).value + ExtraGas(t));
  }

  /** Taking the extra gas off the used gas leaves what the refund rule halves. */
  lemma CapOfUsed(t: Terms, spent: Uint64)
    requires Sound(t)
    ensures var used := Wrap(spent + if Between(t.rules) then ExtraGas(t) else 0);
            Wrap(if t.rules.gasUpdate then used - ExtraGas(t) else used) ==
            Wrap(spent - if ShareLeftOut(t.rules) then ExtraGas(t) else 0)
    ensures !t.rules.gasUpdate ==> Wrap(spent) == spent
  {
    hide Wrap;
    WrapAdd(spent + ExtraGas(t), 0 - ExtraGas(t));
    WrapNear(spent);
    WrapNear(t.extraGas);
  }

  /** The gas left for the sender after the refund. */
  function GasLeft(t: Terms, run: EvmResult): Uint64 {
    Wrap(run.gasLeft + Refund(t, Wrap(t.msg.gas - run.gasLeft), run.refund))
  }

  /** The sums of extra gas that the source computes in 64 bits fit there. */
  predicate TermsFit(t: Terms) {
    && (Between(t.rules) ==> t.extraGas + t.msg.gas <= Gas.MAX_UINT64)
    && (t.rules.feeTokenUpdate && Intrinsic(t).Some? ==> Intrinsic(t).value + t.extraGas <= Gas.MAX_UINT64)
  }

  /** The extra gas that is billed on top of the message's gas. */
  function OnTop(t: Terms): nat {
    if Between(t.rules) then t.extraGas else 0
  }

  /** The gas a message used, in 64 bits as the source reports and charges it. */
  function Used(t: Terms, left: Uint64): Uint64 {
    Wrap(t.msg.gas - left + if Between(t.rules) then ExtraGas(t) else 0)
  }

  /** Used gas that is lost to wrap-around. */
  function Lost(t: Terms, left: Uint64): int {
    t.msg.gas - left + OnTop(t) - Used(t, left)
  }

  /** Nothing is lost exactly if the gas used fits in 64 bits, as it does on terms that fit. */
  lemma NothingLost(t: Terms, left: Uint64)
    ensures Lost(t, left) == 0 <==> 0 <= t.msg.gas - left + OnTop(t) <= Gas.MAX_UINT64
    ensures Used(t, left) == Wrap(t.msg.gas - left + OnTop(t))
    ensures TermsFit(t) && left <= t.msg.gas ==> Lost(t, left) == 0
  {
    hide Wrap;
    WrapAdd(t.extraGas, t.msg.gas - left);
    WrapExact(t.msg.gas - left + OnTop(t));
  }

  lemma WrapExact(x: int)
    ensures Wrap(x) == x <==> 0 <= x <= Gas.MAX_UINT64
  {
  }

  /** On terms that fit the pool never overflows. */
  lemma FitNeverOverflows(t: Terms, w: World, pool: Uint64, evm: Evm)
    requires WellBehaved(evm) && TermsFit(t)
    ensures MessageError(t, w, pool, evm) != Some(PoolOverflow)
  {
    hide Wrap, Intrinsic, Started, TermsFit, Upfront, GasLeft;
    if StartError(t, w, pool) == None {
      FitsLeft(t, Execution(t, w, evm));
    }
  }

  lemma FitsLeft(t: Terms, run: EvmResult)
    requires TermsFit(t) && Runs(t) && run.gasLeft <= t.msg.gas - Upfront(t).value
    ensures GasLeft(t, run) == run.gasLeft + Refund(t, t.msg.gas - run.gasLeft, run.refund) <= t.msg.gas
    ensures Lost(t, GasLeft(t, run)) == 0
  {
    hide Wrap, Gas.Intrinsic, Refund, Lost;
    WrapNear(t.extraGas);
    var spent := t.msg.gas - run.gasLeft;
    RefundOfSpent(t, spent, run.refund);
    WrapNear(spent);
    WrapNear(run.gasLeft + Refund(t, spent, run.refund));
    NothingLost(t, GasLeft(t, run));
  }

  lemma WrapAdd(a: int, b: int)
    ensures Wrap(Wrap(a) + b) == Wrap(a + b)
  {
  }

  /** Why the gas of a message cannot be bought, with `pool` gas left in the block. */
  function BuyError(t: Terms, w: World, pool: Uint64): Option<Error> {
    if !t.rules.usingOVM && Bal(w.eth, t.msg.from) < Fee(t) then Some(InsufficientEth)
    else if t.boba && Bal(w.boba, t.msg.from) < BobaFee(t) then Some(InsufficientBoba)
    else if pool < t.msg.gas then Some(GasLimitReached)
    else None
  }

  /** Why the nonce of a message is refused; messages from L1 are exempt. */
  function NonceError(t: Terms, w: World): Option<Error> {
    if !t.msg.checkNonce || (t.rules.usingOVM && t.msg.origin == L1ToL2) || w.Nonce(t.msg.from) == t.msg.nonce then None
    else if w.Nonce(t.msg.from) < t.msg.nonce then Some(NonceTooHigh)
    else Some(NonceTooLow)
  }

  /** Why a message does not reach the EVM. */
  function StartError(t: Terms, w: World, pool: Uint64): Option<Error> {
    if NonceError(t, w).Some? then NonceError(t, w)
    else if BuyError(t, w, pool).Some? then BuyError(t, w, pool)
    else if Runs(t) then None
    else Some(OutOfGas)
  }

  /**
   Why a message is not part of a block: it does not start, or it cannot make its first transfer, or the
   pool overflows.
   */
  function MessageError(t: Terms, w: World, pool: Uint64, evm: Evm): Option<Error> {
    if StartError(t, w, pool).Some? then StartError(t, w, pool)
    else if Execution(t, w, evm).error == Some(InsufficientBalance) then Some(TransferFailed)
    else if pool - t.msg.gas + GasLeft(t, Execution(t, w, evm)) > Gas.MAX_UINT64 then Some(PoolOverflow)
    else None
  }

  /** What the vault receives in ETH for a message that used `used` gas. */
  function VaultCredit(t: Terms, used: Uint64): nat {
    EthValue(t, used) + (if t.rules.gasUpdate then 0 else t.l1Fee)
  }

  /** The world after the sender got its unused gas back and the vaults their fees. */
  function Settlement(t: Terms, run: World, left: Uint64): World {
    var refunded := if t.boba then run.eth else Credit(run.eth, t.msg.from, EthValue(t, left));
    World(Credit(refunded, t.rules.vault, VaultCredit(t, Used(t, left))),
          if t.boba
          then Credit(Credit(run.boba, t.msg.from, BobaValue(t, left)), t.rules.bobaVault, BobaValue(t, Used(t, left)))
          else run.boba,
          run.nonces)
  }

  /** What wrapped-around gas takes from the ETH and from the BOBA total. */
  function LostEth(t: Terms, left: Uint64): int {
    Lost(t, left) * t.price
  }

  function LostBoba(t: Terms, left: Uint64): int {
    if t.boba then Lost(t, left) * t.msg.price * t.ratio else 0
  }

  lemma NoMoneyLost(t: Terms, left: Uint64)
    requires Lost(t, left) == 0
    ensures LostEth(t, left) == 0 && LostBoba(t, left) == 0
  {
    assert 0 * t.price == 0 && 0 * t.msg.price * t.ratio == 0;
  }

  /**
   Conservation: a message changes the ETH total only by what the EVM did, by a clamped fee, by
   what L1 messages are not charged and by used gas lost to wrap-around; the BOBA total only by what
   the EVM did and by such lost gas.
   */
  lemma Conservation(t: Terms, w: World, run: World, left: Uint64)
    requires Sound(t)
    ensures Total(Settlement(t, run, left).eth) - Total(w.eth) ==
            (Total(run.eth) - Total(Prepaid(t, w).eth)) + Shortfall(t, w) + Unbilled(t) - LostEth(t, left)
    ensures Total(Settlement(t, run, left).boba) - Total(w.boba) ==
            (Total(run.boba) - Total(Prepaid(t, w).boba)) - LostBoba(t, left)
  {
    hide Total, EthValue, BobaValue, Used, LostEth;
    TotalCredit(w.eth, t.msg.from, Shortfall(t, w) - Fee(t));
    TotalCredit(w.boba, t.msg.from, 0 - BobaFee(t));
    var refunded := if t.boba then run.eth else Credit(run.eth, t.msg.from, EthValue(t, left));
    TotalCredit(run.eth, t.msg.from, EthValue(t, left));
    TotalCredit(refunded, t.rules.vault, VaultCredit(t, Used(t, left)));
    TotalCredit(run.boba, t.msg.from, BobaValue(t, left));
    TotalCredit(Credit(run.boba, t.msg.from, BobaValue(t, left)), t.rules.bobaVault, BobaValue(t, Used(t, left)));
    EthAdds(t, left);
    if t.boba {
      BobaAdds(t, left);
    }
  }

  /** Refund and vault credit add up to the fee, plus what was never billed, but for lost gas. */
  lemma EthAdds(t: Terms, left: Uint64)
    requires Sound(t)
    ensures (if t.boba then 0 else EthValue(t, left)) + VaultCredit(t, Used(t, left)) ==
            Fee(t) + Unbilled(t) - LostEth(t, left)
  {
    hide Used;
    var used, lost := Used(t, left), Lost(t, left);
    assert used == t.msg.gas - left + OnTop(t) - lost;
    Distribute(t.msg.gas, left, OnTop(t), lost, t.price);
  }

  lemma BobaAdds(t: Terms, left: Uint64)
    requires Sound(t) && t.boba
    ensures BobaValue(t, left) + BobaValue(t, Used(t, left)) == BobaFee(t) - LostBoba(t, left)
  {
    hide Used;
    Distribute(t.msg.gas, left, OnTop(t), Lost(t, left), t.msg.price);
    Distribute(t.msg.gas * t.msg.price, left * t.msg.price, OnTop(t) * t.msg.price, Lost(t, left) * t.msg.price,
               t.ratio);
  }

  lemma Distribute(gas: int, left: int, extra: int, lost: int, price: int)
    ensures (gas - left + extra - lost) * price == gas * price - left * price + extra * price - lost * price
  {
  }

  /** Sequencer messages and free messages are never credited without being charged. */
  lemma UnbilledOnlyFromL1(t: Terms)
    requires Sound(t)
    ensures t.msg.origin == Sequencer || t.msg.price == 0 ==> Unbilled(t) == 0
    ensures t.rules.feeTokenUpdate ==> Unbilled(t) == 0
    ensures Unbilled(t) > 0 <==> t.msg.origin == L1ToL2 && t.rules.usingOVM && !t.rules.feeTokenUpdate &&
                                 (if t.rules.gasUpdate then t.extraGas * t.price > 0 else t.l1Fee > 0)
  {
  }

  /**
   A message from L1 with a price above zero leaves a part unbilled while extra gas is billed on top; a
   free one does not.
   */
  lemma UnbilledOccurs(data: seq<Byte>)
    ensures var rules := Rules(true, true, false, true, true, 1, 2);
            var free := Message(0, Some(3), 0, 100000, 0, 0, false, data, L1ToL2);
            && Unbilled(NewTerms(free.(price := 1), rules, Quote(7, 0, 7, 0, 0))) == 7
            && Unbilled(NewTerms(free, rules, Quote(7, 0, 7, 0, 0))) == 0
  {
  }

  /** A BOBA payer moves no ETH besides what the EVM does. */
  lemma BobaPayerMovesNoEth(t: Terms, w: World, run: World, left: Uint64, a: Address)
    requires Sound(t) && t.boba && Bal(w.eth, t.msg.from) >= 0
    ensures Bal(Prepaid(t, w).eth, a) == Bal(w.eth, a) && Bal(Settlement(t, run, left).eth, a) == Bal(run.eth, a)
  {
    NoPrice(t);
  }

  lemma NoPrice(t: Terms)
    requires Sound(t) && t.boba
    ensures Fee(t) == 0 && forall used: Uint64 :: VaultCredit(t, used) == 0
  {
    forall used: Uint64
      ensures EthValue(t, used) == 0
    {
    }
  }

  // ---------- who pays what, from the message and the quote alone ----------

  predicate PaysBoba(rules: Rules, quote: Quote) {
    rules.usingOVM && rules.feeTokenUpdate && quote.feeTokenSelection == 1
  }

  /**
   A BOBA payer pays for its gas at the message's price times the ratio, gets back what it did not use at
   the same rate, and the BOBA vault receives the rest.
   */
  lemma BobaBill(msg: Message, rules: Rules, quote: Quote, w: World, run: World, left: Uint64, a: Address)
    requires PaysBoba(rules, quote) && left <= msg.gas
    ensures var t := NewTerms(msg, rules, quote);
            && Bal(Prepaid(t, w).boba, a) ==
               Bal(w.boba, a) - (if a == msg.from then msg.gas * msg.price * quote.bobaPriceRatio else 0)
            && Bal(Settlement(t, run, left).boba, a) ==
               Bal(run.boba, a) + (if a == msg.from then left * msg.price * quote.bobaPriceRatio else 0)
               + (if a == rules.bobaVault then (msg.gas - left) * msg.price * quote.bobaPriceRatio else 0)
  {
    WrapNear(msg.gas - left);
    hide Wrap;
  }

  /** What a message costs on top of its own gas, for L1: first a fee, then gas, later part of its own gas. */
  function L1Charge(msg: Message, rules: Rules, quote: Quote): nat {
    if !rules.usingOVM || msg.price == 0 || rules.feeTokenUpdate then 0
    else if rules.gasUpdate then quote.l2GasForL1 * msg.price
    else quote.l1MsgFee
  }

  /** The extra gas of a message fits on top of its own in 64 bits. */
  predicate ExtraFits(msg: Message, rules: Rules, quote: Quote) {
    L1Charge(msg, rules, quote) > 0 && rules.gasUpdate ==> msg.gas + quote.l2GasForL1 <= Gas.MAX_UINT64
  }

  /**
   Any other sender owes its gas at the message's price and, if the message is from the sequencer, the charge
   for L1, but never more than it has. Unused gas is paid back; the vault receives the rest and the charge.
   */
  lemma EthBill(msg: Message, rules: Rules, quote: Quote, w: World, run: World, left: Uint64, a: Address)
    requires !PaysBoba(rules, quote) && left <= msg.gas && ExtraFits(msg, rules, quote)
    ensures var t := NewTerms(msg, rules, quote);
            var owed := msg.gas * msg.price + if msg.origin == Sequencer then L1Charge(msg, rules, quote) else 0;
            && Bal(Prepaid(t, w).eth, a) ==
               (if a != msg.from then Bal(w.eth, a) else if Bal(w.eth, a) < owed then 0 else Bal(w.eth, a) - owed)
            && Prepaid(t, w).boba == w.boba
    ensures var t := NewTerms(msg, rules, quote);
            && Bal(Settlement(t, run, left).eth, a) ==
               Bal(run.eth, a) + (if a == msg.from then left * msg.price else 0)
               + (if a == rules.vault then (msg.gas - left) * msg.price + L1Charge(msg, rules, quote) else 0)
            && Settlement(t, run, left).boba == run.boba
  {
    var t := NewTerms(msg, rules, quote);
    EthOwed(msg, rules, quote);
    EthCredited(msg, rules, quote, left);
    hide Wrap, Fee, VaultCredit, L1Charge, Used;
  }

  lemma EthOwed(msg: Message, rules: Rules, quote: Quote)
    requires !PaysBoba(rules, quote)
    ensures Fee(NewTerms(msg, rules, quote)) ==
            msg.gas * msg.price + if msg.origin == Sequencer then L1Charge(msg, rules, quote) else 0
  {
  }

  lemma EthCredited(msg: Message, rules: Rules, quote: Quote, left: Uint64)
    requires !PaysBoba(rules, quote) && left <= msg.gas && ExtraFits(msg, rules, quote)
    ensures var t := NewTerms(msg, rules, quote);
            VaultCredit(t, Used(t, left)) == (msg.gas - left) * msg.price + L1Charge(msg, rules, quote)
  {
    var t := NewTerms(msg, rules, quote);
    NothingLost(t, left);
    WrapExact(msg.gas - left + OnTop(t));
    hide Wrap;
    Distribute(msg.gas, left, OnTop(t), 0, msg.price);
    Distribute(msg.gas, left, 0, 0, msg.price);
  }

  /** The gas a message has to pay for L1 out of its own, after the second fork. */
  function L1Gas(msg: Message, rules: Rules, quote: Quote): nat {
    if rules.usingOVM && rules.feeTokenUpdate && msg.price > 0 then quote.l1GasFromState else 0
  }

  /** The EVM gets what the intrinsic gas and the gas for L1 leave of the message's gas, or does not start. */
  lemma GasForEvm(msg: Message, rules: Rules, quote: Quote, w: World, evm: Evm)
    requires Gas.ExactIntrinsic(msg.data, msg.to == None, rules.homestead, rules.istanbul) + L1Gas(msg, rules, quote)
             <= Gas.MAX_UINT64
    ensures var t := NewTerms(msg, rules, quote);
            var needed := Gas.ExactIntrinsic(msg.data, msg.to == None, rules.homestead, rules.istanbul)
                          + L1Gas(msg, rules, quote);
            && (Runs(t) <==> needed <= msg.gas)
            && (Runs(t) ==> Execution(t, w, evm) == evm(Started(t, w), msg, msg.gas - needed))
  {
    hide Gas.ExactIntrinsic, Wrap;
    WrapNear(L1Gas(msg, rules, quote));
    WrapNear(Gas.ExactIntrinsic(msg.data, msg.to == None, rules.homestead, rules.istanbul) + L1Gas(msg, rules, quote));
    WrapNear(0);
  }

  /** Buying gas overdraws nobody, and is refused for want of money exactly if it would. */
  lemma NoOverdraft(t: Terms, w: World, pool: Uint64)
    requires Sound(t) && Bal(w.eth, t.msg.from) >= 0 && Bal(w.boba, t.msg.from) >= 0
    ensures BuyError(t, w, pool) == None ==>
              Bal(Prepaid(t, w).eth, t.msg.from) >= 0 && Bal(Prepaid(t, w).boba, t.msg.from) >= 0
    ensures BuyError(t, w, pool) == Some(InsufficientEth) <==>
              !t.rules.usingOVM && Bal(w.eth, t.msg.from) - Fee(t) < 0
    ensures BuyError(t, w, pool) == Some(InsufficientBoba) <==> Bal(Prepaid(t, w).boba, t.msg.from) < 0
    ensures BuyError(t, w, pool) == Some(GasLimitReached) ==> pool < t.msg.gas
  {
  }

  /** The message of `t` with another nonce. */
  function Renumbered(t: Terms, nonce: Uint64): Terms {
    t.(msg := t.msg.(nonce := nonce))
  }

  /**
   The nonces of an account's messages count up: once one can run, an earlier one is too low and a later
   one too high; after a call exactly the next one can, so the call cannot be repeated.
   */
  lemma NonceOrder(t: Terms, w: World, nonce: Uint64)
    requires t.msg.checkNonce && !(t.rules.usingOVM && t.msg.origin == L1ToL2) && NonceError(t, w) == None
    ensures NonceError(Renumbered(t, nonce), w) ==
            if nonce < t.msg.nonce then Some(NonceTooLow) else if nonce > t.msg.nonce then Some(NonceTooHigh) else None
    ensures t.msg.to != None && t.msg.nonce < Gas.MAX_UINT64 ==>
              && (NonceError(Renumbered(t, nonce), Started(t, w)) == None <==> nonce == t.msg.nonce + 1)
              && NonceError(t, Started(t, w)) == Some(NonceTooLow)
  {
    WrapNear(t.msg.nonce + 1);
  }

  /** Messages from L1, and those that ask for it, are never refused for their nonce. */
  lemma NonceExempt(t: Terms, w: World)
    requires !t.msg.checkNonce || (t.rules.usingOVM && t.msg.origin == L1ToL2)
    ensures NonceError(t, w) == None
  {
  }

  /** On terms that fit, a message is part of the block exactly if it starts and can make its first transfer. */
  lemma Included(t: Terms, w: World, pool: Uint64, evm: Evm)
    requires WellBehaved(evm) && TermsFit(t)
    ensures MessageError(t, w, pool, evm) == None <==>
            StartError(t, w, pool) == None && Execution(t, w, evm).error != Some(InsufficientBalance)
  {
    hide Execution, Upfront, TermsFit, GasLeft, BuyError, NonceError;
    FitNeverOverflows(t, w, pool, evm);
  }

  // ---------- the block loop ----------

  type Oracle = (World, Message) -> Quote

  /** The world after a message that runs. */
  ghost function AfterTx(t: Terms, w: World, evm: Evm): World {
    if Runs(t) then Settlement(t, Execution(t, w, evm).world, GasLeft(t, Execution(t, w, evm))) else w
  }

  /** What one message adds to the ETH total: the EVM's own effect, the clamp, what was never billed, and lost gas. */
  ghost function EthDrift(t: Terms, w: World, evm: Evm): int {
    if Runs(t)
    then Total(Execution(t, w, evm).world.eth) - Total(Prepaid(t, w).eth) + Shortfall(t, w) + Unbilled(t)
         - LostEth(t, GasLeft(t, Execution(t, w, evm)))
    else 0
  }

  ghost function BobaDrift(t: Terms, w: World, evm: Evm): int {
    if Runs(t)
    then Total(Execution(t, w, evm).world.boba) - Total(Prepaid(t, w).boba)
         - LostBoba(t, GasLeft(t, Execution(t, w, evm)))
    else 0
  }

  /** On terms that fit no gas is lost, so only the EVM, the clamp and the unbilled part remain. */
  lemma DriftOfFit(t: Terms, w: World, evm: Evm)
    requires WellBehaved(evm) && TermsFit(t) && Runs(t)
    ensures EthDrift(t, w, evm) ==
            Total(Execution(t, w, evm).world.eth) - Total(Prepaid(t, w).eth) + Shortfall(t, w) + Unbilled(t)
    ensures BobaDrift(t, w, evm) == Total(Execution(t, w, evm).world.boba) - Total(Prepaid(t, w).boba)
  {
    var run := Execution(t, w, evm);
    FitsLeft(t, run);
    NoMoneyLost(t, GasLeft(t, run));
  }

  /**
   The running totals of a block: world, gas left in the pool, extra gas billed on top, drifts, whether all
   terms fit, and the error of the first message that failed.
   */
  datatype Tally = Tally(world: World, pool: int, extra: nat, eth: int, boba: int, fit: bool, err: Option<Error>)

  /** The gas a message takes from the pool, or gives to it if more is refunded than it has. */
  ghost function GasTaken(t: Terms, w: World, evm: Evm): int {
    if Runs(t) then t.msg.gas - GasLeft(t, Execution(t, w, evm)) else 0
  }

  /** The error of a message on a pool; the pool of a block that got this far is a 64-bit number. */
  ghost function FailsOn(t: Terms, w: World, pool: int, evm: Evm): Option<Error> {
    if 0 <= pool <= Gas.MAX_UINT64 then MessageError(t, w, pool, evm) else None
  }

  ghost function TallyOf(limit: Uint64, msgs: seq<Message>, rules: Rules, oracle: Oracle, evm: Evm, w: World): Tally {
    if msgs == [] then Tally(w, limit, 0, 0, 0, true, None)
    else
      var before := TallyOf(limit, msgs[..|msgs| - 1], rules, oracle, evm, w);
      var m := msgs[|msgs| - 1];
      var t := NewTerms(m, rules, oracle(before.world, m));
      Tally(AfterTx(t, before.world, evm),
            before.pool - GasTaken(t, before.world, evm),
            before.extra + OnTop(t),
            before.eth + EthDrift(t, before.world, evm),
            before.boba + BobaDrift(t, before.world, evm),
            before.fit && TermsFit(t),
            if before.err.Some? then before.err else FailsOn(t, before.world, before.pool, evm))
  }

  lemma WrapSum(x: Uint64, a: int, y: Uint64, b: int)
    requires x == Wrap(a) && y == Wrap(b)
    ensures Wrap(x + y) == Wrap(a + b)
  {
    WrapAdd(a, y);
    WrapAdd(b, a);
  }

  lemma TallyStart(limit: Uint64, rules: Rules, oracle: Oracle, evm: Evm, w: World)
    ensures TallyOf(limit, [], rules, oracle, evm, w) == Tally(w, limit, 0, 0, 0, true, None)
  {
  }

  lemma Tallied(limit: Uint64, msgs: seq<Message>, i: nat, rules: Rules, oracle: Oracle, evm: Evm, w: World)
    requires i < |msgs|
    ensures var before := TallyOf(limit, msgs[..i], rules, oracle, evm, w);
            var after := TallyOf(limit, msgs[..i + 1], rules, oracle, evm, w);
            var t := NewTerms(msgs[i], rules, oracle(before.world, msgs[i]));
            && Sound(t)
            && after.world == AfterTx(t, before.world, evm)
            && after.pool == before.pool - GasTaken(t, before.world, evm)
            && after.extra == before.extra + OnTop(t) && after.fit == (before.fit && TermsFit(t))
            && after.err == (if before.err.Some? then before.err else FailsOn(t, before.world, before.pool, evm))
            && Total(after.world.eth) - after.eth == Total(before.world.eth) - before.eth
            && Total(after.world.boba) - after.boba == Total(before.world.boba) - before.boba
  {
    assert msgs[..i + 1][..i] == msgs[..i];
    hide Settlement, Execution, GasLeft, Prepaid, Total, Shortfall, Unbilled, Upfront, MessageError, LostEth,
      LostBoba;
    var before := TallyOf(limit, msgs[..i], rules, oracle, evm, w);
    var t := NewTerms(msgs[i], rules, oracle(before.world, msgs[i]));
    NewTermsSound(msgs[i], rules, oracle(before.world, msgs[i]));
    if Runs(t) {
      var run := Execution(t, before.world, evm);
      Conservation(t, before.world, run.world, GasLeft(t, run));
    }
  }

  /**
   Messages run one after the other: a block is its first part and then the rest, on the world and with the
   gas that the first part left.
   */
  lemma {:induction false} InSequence(limit: Uint64, a: seq<Message>, b: seq<Message>, rules: Rules, oracle: Oracle,
                                      evm: Evm, w: World)
    requires TallyOf(limit, a, rules, oracle, evm, w).err == None
    requires 0 <= TallyOf(limit, a, rules, oracle, evm, w).pool <= Gas.MAX_UINT64
    ensures var x := TallyOf(limit, a, rules, oracle, evm, w);
            var y := TallyOf(x.pool, b, rules, oracle, evm, x.world);
            TallyOf(limit, a + b, rules, oracle, evm, w) ==
            Tally(y.world, y.pool, x.extra + y.extra, x.eth + y.eth, x.boba + y.boba, x.fit && y.fit, y.err)
    decreases |b|
  {
    hide AfterTx, GasTaken, EthDrift, BobaDrift, FailsOn, TermsFit, NewTerms, OnTop;
    if b == [] {
      assert a + b == a;
    } else {
      var front := b[..|b| - 1];
      InSequence(limit, a, front, rules, oracle, evm, w);
      assert (a + b)[..|a + b| - 1] == a + front && (a + b)[|a + b| - 1] == b[|b| - 1];
    }
  }

  /** A block that failed has failed for good. */
  lemma {:induction false} ErrorStays(limit: Uint64, msgs: seq<Message>, i: nat, rules: Rules, oracle: Oracle, evm: Evm,
                                      w: World)
    requires i <= |msgs| && TallyOf(limit, msgs[..i], rules, oracle, evm, w).err.Some?
    ensures TallyOf(limit, msgs, rules, oracle, evm, w).err == TallyOf(limit, msgs[..i], rules, oracle, evm, w).err
    decreases |msgs| - i
  {
    if i == |msgs| {
      assert msgs[..i] == msgs;
    } else {
      hide TallyOf, AfterTx, Total;
      Tallied(limit, msgs, i, rules, oracle, evm, w);
      ErrorStays(limit, msgs, i + 1, rules, oracle, evm, w);
    }
  }

  class StateTransition {
    const t: Terms
    const gp: GasPool
    var gas: Uint64
    var initialGas: Uint64
    var world: World

    constructor (t: Terms, gp: GasPool, world: World)
      ensures this.t == t && this.gp == gp && this.world == world && gas == 0 && initialGas == 0
    {
      this.t, this.gp, this.world, gas, initialGas := t, gp, world, 0, 0;
    }

    function GasUsed(): Uint64
      reads this
    {
      Wrap(initialGas - gas + if Between(t.rules) then ExtraGas(t) else 0)
    }

    /** Takes the gas from the block and the fee from the sender; on an error nothing changes. */
    method BuyGas() returns (err: Option<Error>)
      requires gas == 0
      modifies this, gp
      ensures err == BuyError(t, old(world), old(gp.gas))
      ensures err == None ==> gas == initialGas == t.msg.gas && gp.gas == old(gp.gas) - t.msg.gas
      ensures err == None ==> world == Prepaid(t, old(world))
      ensures err != None ==> world == old(world) && gp.gas == old(gp.gas) && gas == 0
    {
      hide EthValue, BobaValue;
      var mgval: int := EthValue(t, t.msg.gas);
      var bobaval: int := 0;
      if t.rules.usingOVM {
        if t.msg.origin == Sequencer {
          if t.rules.gasUpdate && !t.rules.feeTokenUpdate {
            mgval := mgval + EthValue(t, t.extraGas);
          } else {
            mgval := mgval + t.l1Fee;
          }
        }
      }
      assert mgval == Fee(t);
      if Bal(world.eth, t.msg.from) < mgval {
        if t.rules.usingOVM {
          mgval := Bal(world.eth, t.msg.from);
        } else {
          return Some(InsufficientEth);
        }
      }
      if t.boba {
        bobaval := BobaValue(t, t.msg.gas);
        if Bal(world.boba, t.msg.from) < bobaval {
          return Some(InsufficientBoba);
        }
      }
      var ok := gp.SubGas(t.msg.gas);
      if !ok {
        return Some(GasLimitReached);
      }
      gas := gas + t.msg.gas;
      initialGas := t.msg.gas;
      if t.boba {
        world := world.(boba := Credit(world.boba, t.msg.from, 0 - bobaval));
      }
      world := world.(eth := Credit(world.eth, t.msg.from, 0 - mgval));
      return None;
    }

    /** Adds the capped refund, pays the sender back for unused gas and returns it to the block. */
    method RefundGas(counter: Uint64) returns (ok: bool, ghost refund: Uint64)
      requires Sound(t) && gas <= initialGas
      modifies this, gp
      ensures refund == Refund(t, old(initialGas) - old(gas), counter) && gas == Wrap(old(gas) + refund)
      ensures initialGas == old(initialGas)
      ensures ok == (old(gp.gas) + gas <= Gas.MAX_UINT64) && gp.gas == if ok then old(gp.gas) + gas else old(gp.gas)
      ensures t.boba ==> world == old(world).(boba := Credit(old(world).boba, t.msg.from, BobaValue(t, gas)))
      ensures !t.boba ==> world == old(world).(eth := Credit(old(world).eth, t.msg.from, EthValue(t, gas)))
    {
      hide EthValue, BobaValue, Wrap;
      CapOfUsed(t, initialGas - gas);
      var cap: Uint64;
      if t.rules.gasUpdate {
        cap := Wrap(GasUsed() - ExtraGas(t)) / 2;
      } else {
        cap := GasUsed() / 2;
      }
      if cap > counter {
        cap := counter;
      }
      gas := Wrap(gas + cap);
      refund := cap;
      if t.boba {
        world := world.(boba := Credit(world.boba, t.msg.from, BobaValue(t, gas)));
      } else {
        world := world.(eth := Credit(world.eth, t.msg.from, EthValue(t, gas)));
      }
      ok := gp.AddGas(gas);
    }

    method PreCheck() returns (err: Option<Error>)
      requires gas == 0
      modifies this, gp
      ensures err == if NonceError(t, old(world)).Some? then NonceError(t, old(world))
                     else BuyError(t, old(world), old(gp.gas))
      ensures err == None ==>
                gas == initialGas == t.msg.gas && gp.gas == old(gp.gas) - t.msg.gas && world == Prepaid(t, old(world))
      ensures err == None ==> t.rules.usingOVM || Shortfall(t, old(world)) == 0
      ensures err != None ==> world == old(world) && gp.gas == old(gp.gas)
    {
      if t.msg.checkNonce && !(t.rules.usingOVM && t.msg.origin == L1ToL2) {
        var nonce := world.Nonce(t.msg.from);
        if nonce < t.msg.nonce {
          return Some(NonceTooHigh);
        } else if nonce > t.msg.nonce {
          return Some(NonceTooLow);
        }
      }
      err := BuyGas();
    }

    /** Everything before the EVM: checks, the fee, the intrinsic gas and the nonce. */
    method Start() returns (err: Option<Error>)
      requires gas == 0
      modifies this, gp
      ensures err == StartError(t, old(world), old(gp.gas))
      ensures err == None ==> Runs(t) && t.msg.gas <= old(gp.gas)
      ensures err == None ==>
                gas == t.msg.gas - Upfront(t).value && initialGas == t.msg.gas && gp.gas == old(gp.gas) - t.msg.gas
      ensures err == None ==> world == Started(t, old(world)) && (t.rules.usingOVM || Shortfall(t, old(world)) == 0)
    {
      hide Prepaid, Shortfall, Gas.Intrinsic, NonceError, BuyError;
      err := PreCheck();
      if err.Some? {
        return;
      }
      var intrinsic := Gas.IntrinsicGas(t.msg.data, t.msg.to == None, t.rules.homestead, t.rules.istanbul);
      if intrinsic == None {
        return Some(OutOfGas);
      }
      var needed := intrinsic.value;
      if t.rules.feeTokenUpdate {
        needed := Wrap(needed + ExtraGas(t));
      }
      if gas < needed {
        return Some(OutOfGas);
      }
      gas := gas - needed;
      if t.msg.to != None {
        world := world.(nonces := world.nonces[t.msg.from := Wrap(world.Nonce(t.msg.from) + 1)]);
      }
    }

    /** Everything after the EVM: refund the sender, then credit the vaults for the gas used. */
    method Settle(counter: Uint64) returns (ok: bool)
      requires Sound(t) && gas <= initialGas == t.msg.gas
      modifies this, gp
      ensures initialGas == old(initialGas) && gas == Wrap(old(gas) + Refund(t, t.msg.gas - old(gas), counter))
      ensures ok == (old(gp.gas) + gas <= Gas.MAX_UINT64) && gp.gas == if ok then old(gp.gas) + gas else old(gp.gas)
      ensures ok ==> world == Settlement(t, old(world), gas)
    {
      hide EthValue, BobaValue, Upfront, Refund;
      ghost var refund;
      ok, refund := RefundGas(counter);
      if !ok {
        return;
      }
      if t.boba {
        world := world.(boba := Credit(world.boba, t.rules.bobaVault, BobaValue(t, GasUsed())));
      }
      if t.rules.gasUpdate {
        world := world.(eth := Credit(world.eth, t.rules.vault, EthValue(t, GasUsed())));
      } else {
        world := world.(eth := Credit(world.eth, t.rules.vault, t.l1Fee + EthValue(t, GasUsed())));
      }
    }

    /** Runs the message: fee, intrinsic gas, EVM, refund, and the credit of the vaults. */
    method TransitionDb(evm: Evm) returns (err: Option<Error>, usedGas: Uint64, failed: bool)
      requires Sound(t) && WellBehaved(evm) && gas == 0
      modifies this, gp
      ensures err == MessageError(t, old(world), old(gp.gas), evm)
      ensures err == None ==> Runs(t) && t.msg.gas <= old(gp.gas)
      ensures err == None ==>
                var run := Execution(t, old(world), evm); var left := GasLeft(t, run);
                && world == Settlement(t, run.world, left)
                && usedGas == Used(t, left)
                && gp.gas == old(gp.gas) - t.msg.gas + left
                && failed == (run.error != None) && run.error != Some(InsufficientBalance)
                && (TermsFit(t) ==> left <= t.msg.gas && Lost(t, left) == 0)
      ensures err == None && !t.rules.usingOVM ==> Shortfall(t, old(world)) == 0
    {
      hide Settlement, Started, Shortfall, Refund, Upfront, NonceError, BuyError, TermsFit, Wrap, Lost;
      usedGas, failed := 0, false;
      err := Start();
      if err.Some? {
        return;
      }
      var run := evm(world, t.msg, gas);
      WrapNear(t.msg.gas - run.gasLeft);
      if TermsFit(t) {
        FitsLeft(t, run);
      }
      world, gas := run.world, run.gasLeft;
      if run.error == Some(InsufficientBalance) {
        return Some(TransferFailed), 0, false;
      }
      var ok := Settle(run.refund);
      if !ok {
        return Some(PoolOverflow), 0, false;
      }
      return None, GasUsed(), run.error != None;
    }
  }

  /** One message of a block: the gas it used left the pool, apart from extra gas billed on top. */
  method ApplyMessage(gp: GasPool, t: Terms, start: World, evm: Evm)
    returns (err: Option<Error>, used: Uint64, world: World)
    requires Sound(t) && WellBehaved(evm)
    modifies gp
    ensures err == MessageError(t, start, old(gp.gas), evm)
    ensures err == None ==> world == AfterTx(t, start, evm) && gp.gas == old(gp.gas) - GasTaken(t, start, evm)
    ensures err == None ==> used == Wrap(old(gp.gas) - gp.gas + OnTop(t))
    ensures err == None && TermsFit(t) ==> gp.gas <= old(gp.gas) && used == old(gp.gas) - gp.gas + OnTop(t)
  {
    hide Settlement, Execution, GasLeft, StartError, Used, TermsFit;
    var st := new StateTransition(t, gp, start);
    var failed;
    err, used, failed := st.TransitionDb(evm);
    world := st.world;
    if err == None {
      NothingLost(t, GasLeft(t, Execution(t, start, evm)));
    }
  }

  /**
   Processes the messages of a block, which fails exactly with the error of its first failing message.
   Gas: what is left in the pool and what was used add up to the block limit, plus the extra gas where it
   is billed on top. Money: the totals change by the per-message drifts only.
   */
  method Process(limit: Uint64, msgs: seq<Message>, rules: Rules, oracle: Oracle, evm: Evm, start: World)
    returns (err: Option<Error>, usedGas: Uint64, world: World, gp: GasPool)
    requires WellBehaved(evm)
    ensures err == TallyOf(limit, msgs, rules, oracle, evm, start).err
    ensures err == None ==>
              var tally := TallyOf(limit, msgs, rules, oracle, evm, start);
              && world == tally.world && gp.gas == tally.pool
              && usedGas == Wrap(limit - gp.gas + tally.extra)
              && (tally.fit ==> gp.gas <= limit)
              && (tally.fit && !Between(rules) ==> gp.gas + usedGas == limit)
              && Total(world.eth) == Total(start.eth) + tally.eth
              && Total(world.boba) == Total(start.boba) + tally.boba
  {
    hide TallyOf, AfterTx, Total, WellBehaved, TermsFit, MessageError, GasTaken;
    gp := new GasPool(limit);
    world, usedGas, err := start, 0, None;
    TallyStart(limit, rules, oracle, evm, start);
    assert msgs[..0] == [];
    for i := 0 to |msgs|
      invariant fresh(gp) && gp.gas == TallyOf(limit, msgs[..i], rules, oracle, evm, start).pool
      invariant err == None == TallyOf(limit, msgs[..i], rules, oracle, evm, start).err
      invariant TallyOf(limit, msgs[..i], rules, oracle, evm, start).fit ==> gp.gas <= limit
      invariant world == TallyOf(limit, msgs[..i], rules, oracle, evm, start).world
      invariant usedGas == Wrap(limit - gp.gas + TallyOf(limit, msgs[..i], rules, oracle, evm, start).extra)
      invariant !Between(rules) ==> TallyOf(limit, msgs[..i], rules, oracle, evm, start).extra == 0
      invariant Total(world.eth) == Total(start.eth) + TallyOf(limit, msgs[..i], rules, oracle, evm, start).eth
      invariant Total(world.boba) == Total(start.boba) + TallyOf(limit, msgs[..i], rules, oracle, evm, start).boba
    {
      Tallied(limit, msgs, i, rules, oracle, evm, start);
      var gas;
      ghost var before := gp.gas;
      var t := NewTerms(msgs[i], rules, oracle(world, msgs[i]));
      err, gas, world := ApplyMessage(gp, t, world, evm);
      if err.Some? {
        ErrorStays(limit, msgs, i + 1, rules, oracle, evm, start);
        return;
      }
      WrapSum(usedGas, limit - before + TallyOf(limit, msgs[..i], rules, oracle, evm, start).extra,
              gas, before - gp.gas + OnTop(t));
      usedGas := Wrap(usedGas + gas);
    }
    assert msgs[..|msgs|] == msgs;
  }
}
