/**
 Executing one message, and a block of transactions: buying gas, running the virtual machine,
 refunding and paying the fee.

 The virtual machine is a parameter of which only its contract is used: it returns no more gas than
 it got, creates no value and says how much it destroyed, never lowers a nonce, changes that of an
 external account only for a creation it sent, and lets no account destroy itself that is external and
 has sent a message.
 */
module StateTransition {
  import opened Options
  import opened Balances
  import opened Gas

  datatype Message = Message(
    from: Address, to: Option<Address>, nonce: nat, value: nat, gasLimit: uint64,
    gasPrice: nat, gasFeeCap: nat, gasTipCap: nat, data: seq<byte>, accessList: seq<AccessTuple>,
    skipAccountChecks: bool)

  datatype World = World(balances: Balances, nonces: map<Address, nat>, contracts: set<Address>)

  function Nonce(w: World, a: Address): nat { if a in w.nonces then w.nonces[a] else 0 }

  /** No nonce is lower than before. */
  ghost predicate NoncesGrow(w: World, w': World) {
    forall a: Address :: Nonce(w, a) <= Nonce(w', a)
  }

  /** The block's rules.  A base fee is present exactly from London on, which header validation checks. */
  datatype Env = Env(
    baseFee: Option<nat>, homestead: bool, istanbul: bool, shanghai: bool, noBaseFee: bool, coinbase: Address)
  {
    predicate London() { baseFee.Some? }
  }

  /** An account without code that has sent a message.  No contract can be created at its address. */
  predicate External(w: World, a: Address) { a !in w.contracts && Nonce(w, a) > 0 }

  /** The result of a run.  `destroyed` is value that vanished, as when a contract names itself the heir
      on destroying itself; accounts in `suicides` are removed when the transaction is finalised. */
  datatype Outcome = Outcome(
    world: World, gasLeft: nat, refund: nat, failed: bool, destroyed: nat, suicides: set<Address>)

  type Evm = (World, Message, nat) -> Outcome

  /** What is relied upon for one run of the machine. */
  ghost predicate RunOk(w: World, m: Message, gas: nat, out: Outcome) {
    && out.gasLeft <= gas
    && out.refund <= MAX_UINT64
    && Total(out.world.balances) + out.destroyed == Total(w.balances)
    && (NonNegative(w.balances) ==> NonNegative(out.world.balances))
    && NoncesGrow(w, out.world)
    && (forall a: Address :: External(w, a) ==> StaysPut(w, m, out, a))
    && (Creates(w, m) ==>
          && Nonce(w, m.from) < Nonce(out.world, m.from)
          && (m.from !in w.contracts ==>
                Nonce(out.world, m.from) == Nonce(w, m.from) + 1 && External(out.world, m.from) && m.from !in out.suicides))
  }

  /** The message creates a contract, and the sender can pay for it and has a nonce left. */
  predicate Creates(w: World, m: Message) {
    m.to.None? && Balance(w.balances, m.from) >= m.value && Nonce(w, m.from) < MAX_UINT64
  }

  /** An external account stays external, because the collision check refuses to create a contract over it,
      and does not destroy itself, being without code; its nonce changes only if it creates a contract. */
  ghost predicate StaysPut(w: World, m: Message, out: Outcome, a: Address) {
    && External(out.world, a) && a !in out.suicides
    && (Nonce(out.world, a) == Nonce(w, a) || (a == m.from && Creates(w, m)))
  }

  ghost predicate EvmOk(evm: Evm) {
    forall w: World, m: Message, gas: nat {:trigger RunOk(w, m, gas, evm(w, m, gas))} :: RunOk(w, m, gas, evm(w, m, gas))
  }

  /** A machine that only transfers value: the contract can be met. */
  function TransferOnly(w: World, m: Message, gas: nat): Outcome {
    var covered := Balance(w.balances, m.from) >= m.value;
    if m.to.Some? && covered
    then Outcome(w.(balances := Transfer(w.balances, m.from, m.to.value, m.value)), gas, 0, false, 0, {})
    else if m.to.None? && covered && Nonce(w, m.from) < MAX_UINT64
    then Outcome(w.(nonces := w.nonces[m.from := Nonce(w, m.from) + 1]), 0, 0, true, 0, {})
    else Outcome(w, gas, 0, true, 0, {})
  }

  lemma TransferOnlyOk()
    ensures EvmOk(TransferOnly)
  {
    forall w: World, m: Message, gas: nat ensures RunOk(w, m, gas, TransferOnly(w, m, gas)) {
      if m.to.Some? && Balance(w.balances, m.from) >= m.value {
        TransferConserves(w.balances, m.from, m.to.value, m.value);
      }
    }
  }

  datatype Error =
    | NonceTooHigh | NonceTooLow | NonceMax | SenderNoEOA
    | FeeCapVeryHigh | TipVeryHigh | TipAboveFeeCap | FeeCapTooLow
    | InsufficientFunds | GasLimitReached | GasUintOverflow | IntrinsicGasTooLow
    | InsufficientFundsForTransfer | MaxInitCodeSizeExceeded | BadSignature

  const MAX_INIT_CODE_SIZE: nat := 49152
  const REFUND_QUOTIENT: nat := 2
  const REFUND_QUOTIENT_EIP3529: nat := 5
  /** The first number of more than 256 bits. */
  const TWO_256: nat := 0x1_0000000000000000_0000000000000000_0000000000000000_0000000000000000

  lemma Bounds()
    ensures TWO_256 == (MAX_UINT64 + 1) * (MAX_UINT64 + 1) * (MAX_UINT64 + 1) * (MAX_UINT64 + 1)
    ensures MAX_UINT64 + 1 == 0x1_0000_0000 * 0x1_0000_0000
  {
  }

  function Min(a: int, b: int): int { if a <= b then a else b }

  // ----- messages from transactions -----

  datatype Fees = Legacy(gasPrice: nat) | Dynamic(tipCap: nat, feeCap: nat)

  /** A transaction; `sender` is what signature recovery yields. */
  datatype Tx = Tx(
    sender: Option<Address>, to: Option<Address>, nonce: nat, value: nat, gas: uint64, fees: Fees,
    data: seq<byte>, accessList: seq<AccessTuple>)

  function TransactionToMessage(tx: Tx, env: Env): Result<Message, Error> {
    var (price, feeCap, tipCap) := match tx.fees
      case Legacy(p) => (p, p, p)
      case Dynamic(tip, cap) => (cap, cap, tip);
    var gasPrice := if env.baseFee.Some? then Min(tipCap + env.baseFee.value, feeCap) else price;
    if tx.sender.None? then Fail(BadSignature)
    else Ok(Message(tx.sender.value, tx.to, tx.nonce, tx.value, tx.gas, gasPrice, feeCap, tipCap,
                    tx.data, tx.accessList, false))
  }

  /** The prices of a message built from a transaction. */
  ghost predicate Priced(msg: Message, env: Env) {
    && msg.gasPrice <= msg.gasFeeCap
    && (env.London() ==> msg.gasPrice == Min(msg.gasTipCap + env.baseFee.value, msg.gasFeeCap))
  }

  /** The message of a transaction is its transaction: sender, recipient, nonce, value, gas, data, list and
      both caps; a legacy price is both caps.  It is checked like any other. */
  ghost predicate Carries(m: Message, tx: Tx) {
    && tx.sender == Some(m.from) && m.to == tx.to && m.nonce == tx.nonce && m.value == tx.value
    && m.gasLimit == tx.gas && m.data == tx.data && m.accessList == tx.accessList && !m.skipAccountChecks
    && match tx.fees
       case Legacy(p) => m.gasFeeCap == p && m.gasTipCap == p
       case Dynamic(tip, cap) => m.gasFeeCap == cap && m.gasTipCap == tip
  }

  lemma MessagesArePriced(tx: Tx, env: Env)
    ensures var r := TransactionToMessage(tx, env);
      && (r.Ok? <==> tx.sender.Some?)
      && (r.Ok? ==>
            && Carries(r.value, tx) && Priced(r.value, env)
            && (env.baseFee.None? ==> r.value.gasPrice == match tx.fees case Legacy(p) => p case Dynamic(_, cap) => cap))
  {
  }

  /** No fee is paid for a free call with the base fee switched off. */
  predicate FreeCall(msg: Message, env: Env) {
    env.noBaseFee && msg.gasFeeCap == 0 && msg.gasTipCap == 0
  }

  /** What a message that used `used` gas destroys. */
  function Burnt(msg: Message, env: Env, used: int): int {
    if env.London() && !FreeCall(msg, env) then used * env.baseFee.value else 0
  }

  function RefundQuotient(env: Env): nat {
    if env.London() then REFUND_QUOTIENT_EIP3529 else REFUND_QUOTIENT
  }

  /** The nonce is the account's next one and the account has no code. */
  ghost predicate SenderOk(msg: Message, w: World) {
    msg.skipAccountChecks || (Nonce(w, msg.from) == msg.nonce < MAX_UINT64 && msg.from !in w.contracts)
  }

  ghost predicate FeesOk(msg: Message, env: Env) {
    env.London() && !FreeCall(msg, env) ==>
      && msg.gasFeeCap < TWO_256 && msg.gasTipCap < TWO_256
      && msg.gasTipCap <= msg.gasFeeCap && env.baseFee.value <= msg.gasFeeCap
  }

  ghost predicate FundsOk(msg: Message, w: World) {
    Balance(w.balances, msg.from) >= msg.gasLimit as int * msg.gasFeeCap + msg.value
  }

  /** The checks a message must pass before anything is charged. */
  ghost predicate Acceptable(msg: Message, env: Env, w: World, pool: int) {
    SenderOk(msg, w) && FeesOk(msg, env) && msg.gasLimit as int <= pool && FundsOk(msg, w)
  }

  /** When each error is reported: the conditions exclude each other. */
  ghost predicate Objects(msg: Message, env: Env, w: World, pool: int, e: Error) {
    match e
    case NonceTooHigh => !msg.skipAccountChecks && Nonce(w, msg.from) < msg.nonce
    case NonceTooLow => !msg.skipAccountChecks && Nonce(w, msg.from) > msg.nonce
    case NonceMax => !msg.skipAccountChecks && Nonce(w, msg.from) == msg.nonce >= MAX_UINT64
    case SenderNoEOA => !msg.skipAccountChecks && Nonce(w, msg.from) == msg.nonce < MAX_UINT64 && msg.from in w.contracts
    case FeeCapVeryHigh => SenderOk(msg, w) && !FeesOk(msg, env) && msg.gasFeeCap >= TWO_256
    case TipVeryHigh => SenderOk(msg, w) && !FeesOk(msg, env) && msg.gasFeeCap < TWO_256 <= msg.gasTipCap
    case TipAboveFeeCap => SenderOk(msg, w) && !FeesOk(msg, env) && msg.gasFeeCap < msg.gasTipCap < TWO_256
    case FeeCapTooLow =>
      SenderOk(msg, w) && !FeesOk(msg, env) && msg.gasTipCap <= msg.gasFeeCap < TWO_256 && env.baseFee.value > msg.gasFeeCap
    case InsufficientFunds => SenderOk(msg, w) && FeesOk(msg, env) && !FundsOk(msg, w)
    case GasLimitReached => SenderOk(msg, w) && FeesOk(msg, env) && FundsOk(msg, w) && pool < msg.gasLimit as int
    case GasUintOverflow => Acceptable(msg, env, w, pool) && DataCost(msg.data, RulesFor(msg, env)) > MAX_UINT64
    case IntrinsicGasTooLow =>
      && Acceptable(msg, env, w, pool) && DataCost(msg.data, RulesFor(msg, env)) <= MAX_UINT64
      && Intrinsic(msg, env) > msg.gasLimit as int
    case MaxInitCodeSizeExceeded =>
      && Acceptable(msg, env, w, pool) && DataCost(msg.data, RulesFor(msg, env)) <= MAX_UINT64
      && Intrinsic(msg, env) <= msg.gasLimit as int
      && env.shanghai && msg.to.None? && |msg.data| > 49152
    case _ => false
  }

  function RulesFor(msg: Message, env: Env): IntrinsicRules {
    IntrinsicRules(msg.to.None?, env.homestead, env.istanbul, env.shanghai)
  }

  /** Which prices belong to which fork, byte by byte. */
  lemma IntrinsicByFork(msg: Message, env: Env, b: byte)
    ensures DataCost([], RulesFor(msg, env)) == if msg.to.None? && env.homestead then 53000 else 21000
    ensures DataCost(msg.data + [b], RulesFor(msg, env)) == DataCost(msg.data, RulesFor(msg, env))
      + (if b == 0 then 4 else if env.istanbul then 16 else 68)
      + (if msg.to.None? && env.shanghai && |msg.data| % 32 == 0 then 2 else 0)
  {
    ByteCosts(msg.data, b, RulesFor(msg, env));
  }

  /** The gas charged before execution, with the wrap-around of the access-list part. */
  ghost function Intrinsic(msg: Message, env: Env): int {
    (DataCost(msg.data, RulesFor(msg, env)) + ListCost(msg.accessList)) % (MAX_UINT64 + 1)
  }

  /** The message is executed: acceptable, with enough gas for its intrinsic cost, and not too long. */
  ghost predicate Executes(msg: Message, env: Env, w: World, pool: int) {
    && Acceptable(msg, env, w, pool)
    && DataCost(msg.data, RulesFor(msg, env)) <= MAX_UINT64
    && Intrinsic(msg, env) <= msg.gasLimit as int
    && !(env.shanghai && msg.to.None? && |msg.data| > 49152)
  }

  /** The world after gas was bought. */
  function Bought(w: World, msg: Message): World {
    w.(balances := Credit(w.balances, msg.from, -(msg.gasLimit as int * msg.gasPrice)))
  }

  /** The world handed to the machine: a plain call has advanced the sender's nonce. */
  function Prepared(w: World, msg: Message): World {
    if msg.to.Some? then w.(nonces := w.nonces[msg.from := (Nonce(w, msg.from) + 1) % (MAX_UINT64 + 1)]) else w
  }

  /** The gas charged in the end: what was used, less the capped refund. */
  function Charged(msg: Message, env: Env, out: Outcome): int {
    var peak := msg.gasLimit as int - out.gasLeft;
    peak - Min(peak / RefundQuotient(env), out.refund)
  }

  /** The world after refund and fee. */
  function Settled(w: World, msg: Message, env: Env, used: int): World {
    var refunded := Credit(w.balances, msg.from, (msg.gasLimit as int - used) * msg.gasPrice);
    w.(balances := if FreeCall(msg, env) then refunded else Credit(refunded, env.coinbase, Fee(msg, env, used)))
  }

  /** What the machine is given: the sender has paid for all the gas and, for a call, used up a nonce. */
  ghost predicate HandedOver(w: World, msg: Message, given: World) {
    && given.contracts == w.contracts
    && (forall a: Address :: Balance(given.balances, a)
          == Balance(w.balances, a) - if a == msg.from then msg.gasLimit as int * msg.gasPrice else 0)
    && (Nonce(w, msg.from) < MAX_UINT64 ==>
          forall a: Address :: Nonce(given, a) == Nonce(w, a) + if a == msg.from && msg.to.Some? then 1 else 0)
  }

  /** What comes after the machine: the sender gets the unused gas back and the beneficiary is paid the tip,
      or before London the whole price, for the used gas. */
  ghost predicate PaidOut(ran: World, msg: Message, env: Env, used: int, w: World) {
    && w.contracts == ran.contracts && w.nonces == ran.nonces
    && forall a: Address :: Balance(w.balances, a) == Balance(ran.balances, a)
         + (if a == msg.from then (msg.gasLimit as int - used) * msg.gasPrice else 0)
         + (if a == env.coinbase then Reward(msg, env, used) else 0)
  }

  function Reward(msg: Message, env: Env, used: int): int {
    if env.noBaseFee && msg.gasFeeCap == 0 && msg.gasTipCap == 0 then 0
    else if env.baseFee.None? then used * msg.gasPrice
    else if msg.gasTipCap <= msg.gasFeeCap - env.baseFee.value then used * msg.gasTipCap
    else used * (msg.gasFeeCap - env.baseFee.value)
  }

  /** The gas used before refunding, less the refund of at most one half, from London on one fifth. */
  function UsedGas(msg: Message, env: Env, out: Outcome): int {
    var peak := msg.gasLimit as int - out.gasLeft;
    var cap := if env.baseFee.Some? then peak / 5 else peak / 2;
    if out.refund <= cap then peak - out.refund else peak - cap
  }

  lemma RunIsFramed(w: World, msg: Message, env: Env, out: Outcome, used: int)
    ensures HandedOver(w, msg, Prepared(Bought(w, msg), msg))
    ensures Charged(msg, env, out) == UsedGas(msg, env, out)
    ensures PaidOut(out.world, msg, env, used, Settled(out.world, msg, env, used))
  {
  }

  datatype Execution = Execution(usedGas: uint64, failed: bool)

  // ----- one transition -----

  class StateTransition {
    const gp: GasPool
    const msg: Message
    const env: Env
    var gasRemaining: uint64
    var initialGas: uint64
    var world: World

    constructor (gp: GasPool, msg: Message, env: Env, world: World)
      ensures this.gp == gp && this.msg == msg && this.env == env && this.world == world
      ensures gasRemaining == 0 && initialGas == 0
    {
      this.gp, this.msg, this.env, this.world := gp, msg, env, world;
      gasRemaining, initialGas := 0, 0;
    }

    /** Reserves the gas in the block and charges the sender for all of it up front. */
    method BuyGas() returns (err: Option<Error>)
      requires gasRemaining == 0 && Priced(msg, env) && NonNegative(world.balances)
      modifies this`gasRemaining, this`initialGas, this`world, gp
      ensures err.None? <==> old(gp.gas) >= msg.gasLimit
                             && Balance(old(world).balances, msg.from) >= msg.gasLimit as int * msg.gasFeeCap + msg.value
      ensures err.Some? ==> unchanged(this) && gp.gas == old(gp.gas)
      ensures err.Some? ==> err.value == if FundsOk(msg, old(world)) then GasLimitReached else InsufficientFunds
      ensures err.None? ==>
        && gp.gas == old(gp.gas) - msg.gasLimit && gasRemaining == initialGas == msg.gasLimit
        && world == Bought(old(world), msg)
        && NonNegative(world.balances) && Balance(world.balances, msg.from) >= msg.value
    {
      var mgval := msg.gasLimit as int * msg.gasPrice;
      var balanceCheck := msg.gasLimit as int * msg.gasFeeCap + msg.value;
      PriceBound(msg.gasLimit as int, msg.gasPrice, msg.gasFeeCap);
      if Balance(world.balances, msg.from) < balanceCheck { return Some(InsufficientFunds); }
      var ok := gp.SubGas(msg.gasLimit);
      if !ok { return Some(GasLimitReached); }
      gasRemaining := gasRemaining + msg.gasLimit;
      initialGas := msg.gasLimit;
      world := world.(balances := Credit(world.balances, msg.from, -mgval));
      err := None;
    }

    /** The consensus checks, in order, then the purchase of gas. */
    method PreCheck() returns (err: Option<Error>)
      requires gasRemaining == 0 && Priced(msg, env) && NonNegative(world.balances)
      modifies this`gasRemaining, this`initialGas, this`world, gp
      ensures err.Some? ==> unchanged(this) && gp.gas == old(gp.gas)
      ensures err.None? ==>
        && old(gp.gas) >= msg.gasLimit && gp.gas == old(gp.gas) - msg.gasLimit
        && gasRemaining == initialGas == msg.gasLimit
        && world == Bought(old(world), msg)
        && NonNegative(world.balances) && Balance(world.balances, msg.from) >= msg.value
      ensures err.None? <==> Acceptable(msg, env, old(world), old(gp.gas) as int)
      ensures err.Some? ==> Objects(msg, env, old(world), old(gp.gas) as int, err.value)
    {
      if !msg.skipAccountChecks {
        var stNonce := Nonce(world, msg.from);
        if stNonce < msg.nonce { return Some(NonceTooHigh); }
        if stNonce > msg.nonce { return Some(NonceTooLow); }
        if stNonce >= MAX_UINT64 { return Some(NonceMax); }
        if msg.from in world.contracts { return Some(SenderNoEOA); }
      }
      if env.London() {
        if !env.noBaseFee || msg.gasFeeCap > 0 || msg.gasTipCap > 0 {
          if msg.gasFeeCap >= TWO_256 { return Some(FeeCapVeryHigh); }
          if msg.gasTipCap >= TWO_256 { return Some(TipVeryHigh); }
          if msg.gasFeeCap < msg.gasTipCap { return Some(TipAboveFeeCap); }
          if msg.gasFeeCap < env.baseFee.value { return Some(FeeCapTooLow); }
        }
      }
      err := BuyGas();
    }

    /** Returns unused gas plus the refund, capped by the quotient, to the sender and to the block. */
    method RefundGas(quotient: uint64, counter: nat)
      requires quotient > 0 && gasRemaining <= initialGas && counter <= MAX_UINT64
      requires gp.gas as int + initialGas as int <= MAX_UINT64
      modifies this`gasRemaining, this`world, gp
      ensures old(gasRemaining) <= gasRemaining <= initialGas
      ensures (gasRemaining - old(gasRemaining)) as int ==
                Min((initialGas - old(gasRemaining)) as int / quotient as int, counter)
      ensures world == old(world).(balances := Credit(old(world).balances, msg.from, gasRemaining as int * msg.gasPrice))
      ensures gp.gas as int == old(gp.gas) as int + gasRemaining as int
    {
      var refund := (initialGas - gasRemaining) / quotient;
      QuotientBound((initialGas - gasRemaining) as int, quotient as int);
      if refund as int > counter { refund := counter as uint64; }
      gasRemaining := gasRemaining + refund;
      world := world.(balances := Credit(world.balances, msg.from, gasRemaining as int * msg.gasPrice));
      gp.AddGas(gasRemaining);
    }

    /** All checks up to the execution, charging the intrinsic gas.  After the purchase the sender still
        holds the value to transfer, so the check of it is never the one that fails. */
    method Admit() returns (err: Option<Error>)
      requires gasRemaining == 0 && Priced(msg, env) && NonNegative(world.balances) && |msg.data| <= MAX_UINT64
      modifies this`gasRemaining, this`initialGas, this`world, gp
      ensures err.None? ==>
        && old(gp.gas) >= msg.gasLimit && gp.gas == old(gp.gas) - msg.gasLimit
        && gasRemaining as int == msg.gasLimit as int - Intrinsic(msg, env) && initialGas == msg.gasLimit
        && world == Bought(old(world), msg)
        && NonNegative(world.balances) && Balance(world.balances, msg.from) >= msg.value
      ensures err.None? <==> Executes(msg, env, old(world), old(gp.gas) as int)
      ensures err.Some? ==> Objects(msg, env, old(world), old(gp.gas) as int, err.value)
    {
      err := PreCheck();
      if err.Some? { return; }
      var gas := IntrinsicGas(msg.data, msg.accessList, RulesFor(msg, env));
      if gas.Fail? { return Some(GasUintOverflow); }
      if gasRemaining < gas.value { return Some(IntrinsicGasTooLow); }
      gasRemaining := gasRemaining - gas.value;
      if msg.value > 0 && Balance(world.balances, msg.from) < msg.value { return Some(InsufficientFundsForTransfer); }
      if env.shanghai && msg.to.None? && |msg.data| > MAX_INIT_CODE_SIZE { return Some(MaxInitCodeSizeExceeded); }
    }

    /** Runs the machine; a plain call advances the sender's nonce first, a creation does so itself. */
    method Execute(evm: Evm) returns (out: Outcome)
      requires EvmOk(evm)
      modifies this`world, this`gasRemaining
      ensures out == evm(Prepared(old(world), msg), msg, old(gasRemaining) as nat)
      ensures RunOk(Prepared(old(world), msg), msg, old(gasRemaining) as nat, out)
      ensures world == out.world && gasRemaining as int == out.gasLeft
    {
      world := Prepared(world, msg);
      ghost var w, g := world, gasRemaining as nat;
      out := evm(world, msg, gasRemaining as nat);
      assert RunOk(w, msg, g, out);
      world, gasRemaining := out.world, out.gasLeft as uint64;
    }

    /** Refunds the sender and the pool and pays the fee. */
    method PayBack(counter: nat) returns (used: uint64)
      requires gasRemaining <= initialGas == msg.gasLimit && counter <= MAX_UINT64
      requires gp.gas as int + initialGas as int <= MAX_UINT64
      modifies this`gasRemaining, this`world, gp
      ensures used <= initialGas - old(gasRemaining)
      ensures gp.gas as int == old(gp.gas) as int + initialGas as int - used as int
      ensures used as int == var peak := (initialGas - old(gasRemaining)) as int; peak - Min(peak / RefundQuotient(env), counter)
      ensures world == Settled(old(world), msg, env, used as int)
    {
      RefundGas(RefundQuotient(env) as uint64, counter);
      used := initialGas - gasRemaining;
      if !FreeCall(msg, env) {
        world := world.(balances := Credit(world.balances, env.coinbase, Fee(msg, env, used as int)));
      }
    }

    /** Applies the message.  It succeeds exactly for executable messages; the funds check before the
        call cannot fail.  On success the new state is the machine's, settled; the total of all balances
        has fallen by exactly the burnt base fee and what the machine destroyed, no account is negative,
        the pool has lost exactly the used gas, and the sender's nonce has moved on. */
    method TransitionDb(evm: Evm) returns (r: Result<Execution, Error>, out: Outcome, ghost given: World)
      requires EvmOk(evm) && gasRemaining == 0 && Priced(msg, env) && NonNegative(world.balances)
      requires |msg.data| <= MAX_UINT64
      modifies this, gp
      ensures r.Ok? <==> Executes(msg, env, old(world), old(gp.gas) as int)
      ensures r.Fail? ==> Objects(msg, env, old(world), old(gp.gas) as int, r.error)
      ensures r.Ok? ==>
        && out == evm(Prepared(Bought(old(world), msg), msg), msg, msg.gasLimit as int - Intrinsic(msg, env))
        && r.value == Execution(r.value.usedGas, out.failed)
        && r.value.usedGas as int == Charged(msg, env, out) <= msg.gasLimit as int
        && world == Settled(out.world, msg, env, r.value.usedGas as int)
      ensures r.Ok? ==>
        && gp.gas as int == old(gp.gas) as int - r.value.usedGas as int
        && Total(world.balances) == Total(old(world).balances) - Burnt(msg, env, r.value.usedGas as int) - out.destroyed
        && NonNegative(world.balances)
      ensures r.Ok? ==>
        && HandedOver(old(world), msg, given) && out == evm(given, msg, msg.gasLimit as int - Intrinsic(msg, env))
        && r.value.usedGas as int == UsedGas(msg, env, out) && PaidOut(out.world, msg, env, r.value.usedGas as int, world)
      ensures r.Ok? && !msg.skipAccountChecks ==>
        && Nonce(old(world), msg.from) == msg.nonce && Nonce(world, msg.from) == msg.nonce + 1
        && Sent(old(world), world, msg.from, out.suicides)
    {
      out, given := Outcome(world, 0, 0, false, 0, {}), world;
      var err := Admit();
      if err.Some? { return Fail(err.value), out, given; }
      var used;
      used, out := RunAndPayBack(evm);
      TransitionFacts(msg, env, old(world), old(gp.gas) as int, out);
      RunIsFramed(old(world), msg, env, out, used as int);
      given := Prepared(Bought(old(world), msg), msg);
      return Ok(Execution(used, out.failed)), out, given;
    }

    /** The run of an admitted message, and what follows it. */
    method RunAndPayBack(evm: Evm) returns (used: uint64, out: Outcome)
      requires EvmOk(evm) && gasRemaining <= initialGas == msg.gasLimit && gp.gas as int + initialGas as int <= MAX_UINT64
      modifies this`world, this`gasRemaining, gp
      ensures out == evm(Prepared(old(world), msg), msg, old(gasRemaining) as nat)
      ensures RunOk(Prepared(old(world), msg), msg, old(gasRemaining) as nat, out)
      ensures used as int == Charged(msg, env, out) <= msg.gasLimit as int
      ensures world == Settled(out.world, msg, env, used as int)
      ensures gp.gas as int == old(gp.gas) as int + msg.gasLimit as int - used as int
    {
      out := Execute(evm);
      used := PayBack(out.refund);
    }
  }

  // ----- lemmas -----

  /** The sender's nonce has moved on by one, those of other external accounts have not moved, and none
      has moved back; external accounts, now with the sender among them, are none of those to be removed. */
  ghost predicate Sent(w: World, w': World, from: Address, suicides: set<Address>) {
    && Nonce(w', from) == Nonce(w, from) + 1 && NoncesGrow(w, w')
    && External(w', from) && from !in suicides
    && forall a: Address :: External(w, a) ==> Unmoved(w, w', from, suicides, a)
  }

  ghost predicate Unmoved(w: World, w': World, from: Address, suicides: set<Address>, a: Address) {
    External(w', a) && a !in suicides && (a == from || Nonce(w', a) == Nonce(w, a))
  }

  lemma SenderMovesOn(w: World, msg: Message, gas: nat, out: Outcome)
    requires Nonce(w, msg.from) < MAX_UINT64 && msg.from !in w.contracts && Balance(w.balances, msg.from) >= msg.value
    requires RunOk(Prepared(w, msg), msg, gas, out)
    ensures Sent(w, out.world, msg.from, out.suicides)
  {
    var w1 := Prepared(w, msg);
    assert External(w1, msg.from) ==> StaysPut(w1, msg, out, msg.from);
    forall a: Address
      ensures Nonce(w, a) <= Nonce(out.world, a) && (External(w, a) ==> Unmoved(w, out.world, msg.from, out.suicides, a))
    {
      assert Nonce(w1, a) <= Nonce(out.world, a);
      assert External(w1, a) ==> StaysPut(w1, msg, out, a);
      assert External(w, a) ==> External(w1, a);
    }
  }

  /** After buying gas an acceptable sender still holds the value to transfer. */
  lemma BoughtCovers(msg: Message, env: Env, w: World, pool: int)
    requires Priced(msg, env) && NonNegative(w.balances) && Acceptable(msg, env, w, pool)
    ensures Balance(Bought(w, msg).balances, msg.from) >= msg.value && NonNegative(Bought(w, msg).balances)
  {
    PriceBound(msg.gasLimit as int, msg.gasPrice, msg.gasFeeCap);
  }

  /** What one run of the machine within its contract, settled, does to gas, balances and nonces. */
  lemma TransitionFacts(msg: Message, env: Env, w: World, pool: int, out: Outcome)
    requires Priced(msg, env) && NonNegative(w.balances) && Executes(msg, env, w, pool)
    requires RunOk(Prepared(Bought(w, msg), msg), msg, msg.gasLimit as int - Intrinsic(msg, env), out)
    ensures var used := Charged(msg, env, out);
      var w' := Settled(out.world, msg, env, used);
      && 0 <= used <= msg.gasLimit as int
      && Total(w'.balances) == Total(w.balances) - Burnt(msg, env, used) - out.destroyed && NonNegative(w'.balances)
      && (!msg.skipAccountChecks ==> Nonce(w, msg.from) == msg.nonce && Sent(w, w', msg.from, out.suicides))
  {
    RefundIsCapped(msg, env, out);
    BoughtCovers(msg, env, w, pool);
    BalancesSettle(msg, env, w, out);
    if !msg.skipAccountChecks {
      SenderMovesOn(Bought(w, msg), msg, msg.gasLimit as int - Intrinsic(msg, env), out);
      SentThrough(w, out.world, msg, env, Charged(msg, env, out), out.suicides);
    }
  }

  lemma BalancesSettle(msg: Message, env: Env, w: World, out: Outcome)
    requires Priced(msg, env) && NonNegative(out.world.balances) && 0 <= Charged(msg, env, out) <= msg.gasLimit as int
    requires env.London() && !FreeCall(msg, env) ==> msg.gasTipCap <= msg.gasFeeCap && env.baseFee.value <= msg.gasFeeCap
    requires Total(out.world.balances) + out.destroyed == Total(Bought(w, msg).balances)
    ensures var used := Charged(msg, env, out);
      var b := Settled(out.world, msg, env, used).balances;
      Total(b) == Total(w.balances) - Burnt(msg, env, used) - out.destroyed && NonNegative(b)
  {
    var used := Charged(msg, env, out);
    Settle(msg, env, w.balances, out.world.balances, out.destroyed, used, msg.gasLimit as int - used);
  }

  /** Buying gas and settling touch balances only. */
  lemma SentThrough(w: World, ran: World, msg: Message, env: Env, used: int, suicides: set<Address>)
    requires Sent(Bought(w, msg), ran, msg.from, suicides)
    ensures Sent(w, Settled(ran, msg, env, used), msg.from, suicides)
  {
    var w' := Settled(ran, msg, env, used);
    forall a: Address
      ensures Nonce(w, a) <= Nonce(w', a) && (External(w, a) ==> Unmoved(w, w', msg.from, suicides, a))
    {
      assert Nonce(Bought(w, msg), a) <= Nonce(ran, a);
      assert External(Bought(w, msg), a) ==> Unmoved(Bought(w, msg), ran, msg.from, suicides, a);
    }
  }

  lemma PriceBound(limit: int, price: int, cap: int)
    requires limit >= 0 && price <= cap
    ensures limit * price <= limit * cap
  {
    assert limit * (cap - price) >= 0;
  }

  lemma QuotientBound(n: int, q: int)
    requires n >= 0 && q > 0
    ensures 0 <= n / q <= n
  {
    var d := n / q;
    assert n == q * d + n % q;
    assert 0 <= n % q < q;
    assert d >= 0 by { if d <= -1 { Product(q, -1 - d); } }
    Product(q - 1, d);
  }

  /** Of the gas used before refunding, no more than the quotient's share is given back. */
  lemma RefundIsCapped(msg: Message, env: Env, out: Outcome)
    requires out.gasLeft <= msg.gasLimit as int
    ensures var peak := msg.gasLimit as int - out.gasLeft;
            0 <= peak - Charged(msg, env, out) <= peak / RefundQuotient(env) && 0 <= Charged(msg, env, out)
  {
    QuotientBound(msg.gasLimit as int - out.gasLeft, RefundQuotient(env));
  }

  lemma Product(a: int, b: int)
    requires a >= 0 && b >= 0
    ensures a * b >= 0
  {
  }

  /** What is paid to the beneficiary for `used` gas. */
  function Fee(msg: Message, env: Env, used: int): int {
    if FreeCall(msg, env) then 0
    else used * if env.London() then Min(msg.gasTipCap, msg.gasFeeCap - env.baseFee.value) else msg.gasPrice
  }

  /** The tip paid plus the base fee is the price charged, so buying, refunding and paying the fee
      balance up to the burnt base fee. */
  lemma Settle(msg: Message, env: Env, b0: Balances, ran: Balances, destroyed: nat, used: int, remaining: int)
    requires Priced(msg, env) && used >= 0 && remaining >= 0 && used + remaining == msg.gasLimit as int
    requires env.London() && !FreeCall(msg, env) ==> msg.gasTipCap <= msg.gasFeeCap && env.baseFee.value <= msg.gasFeeCap
    requires Total(ran) + destroyed == Total(Credit(b0, msg.from, -(msg.gasLimit as int * msg.gasPrice))) && NonNegative(ran)
    ensures var refunded := Credit(ran, msg.from, remaining * msg.gasPrice);
            var final := if FreeCall(msg, env) then refunded else Credit(refunded, env.coinbase, Fee(msg, env, used));
            Total(final) == Total(b0) - Burnt(msg, env, used) - destroyed && NonNegative(final)
  {
    var back, fee := remaining * msg.gasPrice, Fee(msg, env, used);
    Distribute(used, remaining, msg.gasPrice);
    Product(remaining, msg.gasPrice);
    PriceSplit(msg, env, used, fee);
    CreditTotal(b0, msg.from, -(msg.gasLimit as int * msg.gasPrice));
    CreditTotal(ran, msg.from, back);
    CreditTotal(Credit(ran, msg.from, back), env.coinbase, fee);
  }

  lemma Distribute(a: int, b: int, p: int)
    ensures (a + b) * p == a * p + b * p
  {
  }

  /** The fee paid to the block's beneficiary plus the burnt part is the price of the used gas. */
  lemma PriceSplit(msg: Message, env: Env, used: int, paid: int)
    requires Priced(msg, env) && used >= 0
    requires env.London() && !FreeCall(msg, env) ==> msg.gasTipCap <= msg.gasFeeCap && env.baseFee.value <= msg.gasFeeCap
    requires paid == Fee(msg, env, used)
    ensures paid >= 0 && used * msg.gasPrice == paid + Burnt(msg, env, used)
  {
    if FreeCall(msg, env) {
      assert msg.gasPrice == 0;
    } else if env.London() {
      var tip := Min(msg.gasTipCap, msg.gasFeeCap - env.baseFee.value);
      assert msg.gasPrice == tip + env.baseFee.value;
      Product(used, tip);
      DistributeLeft(used, tip, env.baseFee.value);
    } else {
      Product(used, msg.gasPrice);
    }
  }

  lemma DistributeLeft(u: int, a: int, b: int)
    ensures u * (a + b) == u * a + u * b
  {
  }
}
