/**
 Processing a block: every transaction in turn against one gas pool and one world.
 */
module StateProcessor {
  import opened Options
  import opened Balances
  import opened Gas
  import opened StateTransition

  datatype Receipt = Receipt(cumulativeGasUsed: int, gasUsed: int, failed: bool)

  /** The books after some transactions: receipts, world, gas left in the pool, and the value lost
      through contracts that destroyed themselves. */
  datatype Ledger = Ledger(receipts: seq<Receipt>, world: World, pool: int, lost: int)

  /** The end of a transaction: accounts that destroyed themselves are removed with all they hold. */
  function Finalised(w: World, suicides: set<Address>): World {
    World(w.balances - suicides, w.nonces - suicides, w.contracts - suicides)
  }

  ghost function SumUsed(receipts: seq<Receipt>): int {
    if receipts == [] then 0 else SumUsed(receipts[..|receipts| - 1]) + receipts[|receipts| - 1].gasUsed
  }

  /** Running the machine on a message that executes in world `w`. */
  ghost function Run(msg: Message, env: Env, w: World, evm: Evm): Outcome
    requires Intrinsic(msg, env) <= msg.gasLimit as int
  {
    evm(Prepared(Bought(w, msg), msg), msg, msg.gasLimit as int - Intrinsic(msg, env))
  }

  /** One transaction more; `None` if it is refused. */
  ghost function Step(l: Ledger, tx: Tx, env: Env, evm: Evm): Option<Ledger> {
    var m := TransactionToMessage(tx, env);
    if m.Fail? || !Executes(m.value, env, l.world, l.pool) then None
    else
      var out := Run(m.value, env, l.world, evm);
      var used := Charged(m.value, env, out);
      var settled := Settled(out.world, m.value, env, used);
      Some(Ledger(l.receipts + [Receipt(SumUsed(l.receipts) + used, used, out.failed)],
                  Finalised(settled, out.suicides), l.pool - used,
                  l.lost + out.destroyed + Held(settled.balances, out.suicides)))
  }

  /** Elements folded from the left by a step that may refuse. */
  ghost function FoldWith<S, T>(step: (S, T) -> Option<S>, s0: S, ts: seq<T>): Option<S> {
    if ts == [] then Some(s0)
    else match FoldWith(step, s0, ts[..|ts| - 1])
      case None => None
      case Some(s) => step(s, ts[|ts| - 1])
  }

  ghost function Stepper(env: Env, evm: Evm): (Ledger, Tx) -> Option<Ledger> {
    (l: Ledger, tx: Tx) => Step(l, tx, env, evm)
  }

  /** The specification of a block: the transactions folded over the books. */
  ghost function Fold(txs: seq<Tx>, gasLimit: int, env: Env, world: World, evm: Evm): Option<Ledger> {
    FoldWith(Stepper(env, evm), Ledger([], world, gasLimit, 0), txs)
  }

  // ----- the processor's own code -----

  /** Applies one message and accounts for its gas. */
  method ApplyTransaction(msg: Message, gp: GasPool, env: Env, world: World, usedGas: uint64, evm: Evm)
      returns (r: Result<(Receipt, uint64, World), Error>)
    requires EvmOk(evm) && Priced(msg, env) && NonNegative(world.balances) && |msg.data| <= MAX_UINT64
    requires gp.gas as int + usedGas as int <= MAX_UINT64
    modifies gp
    ensures r.Ok? <==> Executes(msg, env, world, old(gp.gas) as int)
    ensures r.Ok? ==>
      var (receipt, total, world') := r.value;
      var out := Run(msg, env, world, evm);
      && receipt == Receipt(total as int, Charged(msg, env, out), out.failed)
      && total as int == usedGas as int + receipt.gasUsed
      && gp.gas as int == old(gp.gas) as int - receipt.gasUsed
      && world' == Finalised(Settled(out.world, msg, env, receipt.gasUsed), out.suicides)
      && NonNegative(world'.balances)
  {
    var st := new StateTransition(gp, msg, env, world);
    var result, out, _ := st.TransitionDb(evm);
    if result.Fail? { return Fail(result.error); }
    var total := usedGas + result.value.usedGas;
    var receipt := Receipt(total as int, result.value.usedGas as int, result.value.failed);
    return Ok((receipt, total, Finalised(st.world, out.suicides)));
  }

  /** One turn of the loop over a block's transactions: exactly one step of the books. */
  method NextTransaction(tx: Tx, gp: GasPool, env: Env, receipts: seq<Receipt>, usedGas: uint64, world: World, evm: Evm,
                         ghost lost: int)
      returns (r: Result<(seq<Receipt>, uint64, World), Error>)
    requires EvmOk(evm) && NonNegative(world.balances) && |tx.data| <= MAX_UINT64
    requires gp.gas as int + usedGas as int <= MAX_UINT64 && usedGas as int == SumUsed(receipts)
    modifies gp
    ensures r.Fail? <==> Step(Ledger(receipts, world, old(gp.gas) as int, lost), tx, env, evm).None?
    ensures r.Ok? ==>
      && Holds(Step(Ledger(receipts, world, old(gp.gas) as int, lost), tx, env, evm), r.value.0, r.value.2, gp.gas as int)
      && r.value.1 as int == SumUsed(r.value.0) && NonNegative(r.value.2.balances)
      && gp.gas as int + r.value.1 as int == old(gp.gas) as int + usedGas as int
  {
    MessagesArePriced(tx, env);
    var msg := TransactionToMessage(tx, env);
    if msg.Fail? { return Fail(msg.error); }
    var a := ApplyTransaction(msg.value, gp, env, world, usedGas, evm);
    if a.Fail? { return Fail(a.error); }
    SumSnoc(receipts, a.value.0);
    return Ok((receipts + [a.value.0], a.value.1, a.value.2));
  }

  /** The books show these receipts, this world and this pool. */
  ghost predicate Holds(l: Option<Ledger>, receipts: seq<Receipt>, world: World, pool: int) {
    l.Some? && l.value.receipts == receipts && l.value.world == world && l.value.pool == pool
  }

  /** Processes a block exactly as its specification says; 64-bit arithmetic never wraps and the pool
      never overflows. */
  method Process(txs: seq<Tx>, gasLimit: uint64, env: Env, world0: World, evm: Evm)
      returns (r: Result<(seq<Receipt>, uint64, World), Error>)
    requires EvmOk(evm) && NonNegative(world0.balances)
    requires forall i :: 0 <= i < |txs| ==> |txs[i].data| <= MAX_UINT64
    ensures r.Fail? <==> Fold(txs, gasLimit as int, env, world0, evm).None?
    ensures r.Ok? ==>
      && r.value.1 as int == SumUsed(r.value.0)
      && Holds(Fold(txs, gasLimit as int, env, world0, evm), r.value.0, r.value.2, gasLimit as int - r.value.1 as int)
  {
    var receipts: seq<Receipt>, usedGas: uint64, world := [], 0, world0;
    var gp := new GasPool(gasLimit);
    assert txs[..0] == [];
    for i := 0 to |txs|
      invariant fresh(gp) && gp.gas as int + usedGas as int == gasLimit as int
      invariant usedGas as int == SumUsed(receipts) && NonNegative(world.balances)
      invariant Holds(Fold(txs[..i], gasLimit as int, env, world0, evm), receipts, world, gp.gas as int)
    {
      FoldNext(txs, i, gasLimit as int, env, world0, evm);
      ghost var lost := Fold(txs[..i], gasLimit as int, env, world0, evm).value.lost;
      var next := NextTransaction(txs[i], gp, env, receipts, usedGas, world, evm, lost);
      if next.Fail? { return Fail(next.error); }
      receipts, usedGas, world := next.value.0, next.value.1, next.value.2;
    }
    assert txs[..|txs|] == txs;
    return Ok((receipts, usedGas, world));
  }

  // ----- what an accepted block guarantees -----

  /** Every cumulative figure is the sum of the gas used so far. */
  ghost predicate CumulativeOk(receipts: seq<Receipt>) {
    forall i :: 0 <= i < |receipts| ==> CumulativeAt(receipts, i)
  }

  ghost predicate CumulativeAt(receipts: seq<Receipt>, i: nat)
    requires i < |receipts|
  {
    receipts[i].cumulativeGasUsed == SumUsed(receipts[..i + 1])
  }

  /** What the transactions of a block destroy together. */
  ghost function SumBurnt(txs: seq<Tx>, receipts: seq<Receipt>, env: Env): int
    requires |txs| == |receipts|
  {
    if txs == [] then 0
    else
      var n := |txs| - 1;
      var m := TransactionToMessage(txs[n], env);
      SumBurnt(txs[..n], receipts[..n], env) + if m.Ok? then Burnt(m.value, env, receipts[n].gasUsed) else 0
  }

  /** The messages of one sender carry strictly increasing nonces, so none is replayed. */
  ghost predicate NoncesIncrease(txs: seq<Tx>) {
    forall i, j :: 0 <= i < j < |txs| && txs[i].sender == txs[j].sender ==> txs[i].nonce < txs[j].nonce
  }

  /** How many of the transactions from `i` to `j - 1` a sender has sent. */
  ghost function SentBy(txs: seq<Tx>, sender: Option<Address>, i: nat, j: nat): nat
    requires i <= j <= |txs|
    decreases j
  {
    if i == j then 0 else SentBy(txs, sender, i, j - 1) + if txs[j - 1].sender == sender then 1 else 0
  }

  /** The messages of one sender carry consecutive nonces: from one to a later one the nonce grows by the
      number of the sender's messages in between, counting the first. */
  ghost predicate NoncesConsecutive(txs: seq<Tx>) {
    forall i, j :: 0 <= i < j < |txs| && txs[i].sender == txs[j].sender ==>
      txs[j].nonce == txs[i].nonce + SentBy(txs, txs[i].sender, i, j)
  }

  /** All senders so far are external accounts, whose nonces have moved on by one for each message. */
  ghost predicate NoncesPassed(txs: seq<Tx>, w: World) {
    forall j :: 0 <= j < |txs| ==> Passed(txs, j, w)
  }

  ghost predicate Passed(txs: seq<Tx>, j: nat, w: World)
    requires j < |txs|
  {
    && txs[j].sender.Some? && External(w, txs[j].sender.value)
    && Nonce(w, txs[j].sender.value) == txs[j].nonce + SentBy(txs, txs[j].sender, j, |txs|)
  }

  /** The books balance: pool and used gas make up the limit, the receipts carry running sums, the
      total of all balances has lost exactly the burnt fees and what went with destroyed contracts, no
      account is negative and no transaction of a sender is replayed. */
  ghost predicate BooksBalance(txs: seq<Tx>, gasLimit: int, env: Env, world: World, l: Ledger) {
    && |l.receipts| == |txs|
    && 0 <= l.pool && l.pool + SumUsed(l.receipts) == gasLimit
    && CumulativeOk(l.receipts)
    && Total(l.world.balances) == Total(world.balances) - SumBurnt(txs, l.receipts, env) - l.lost && l.lost >= 0
    && NonNegative(l.world.balances)
    && NoncesIncrease(txs) && NoncesConsecutive(txs) && NoncesPassed(txs, l.world)
  }

  /** The books balance after every accepted block. */
  lemma {:induction false} FoldBalances(txs: seq<Tx>, gasLimit: int, env: Env, world: World, evm: Evm)
    requires EvmOk(evm) && NonNegative(world.balances) && gasLimit >= 0
    requires Fold(txs, gasLimit, env, world, evm).Some?
    ensures BooksBalance(txs, gasLimit, env, world, Fold(txs, gasLimit, env, world, evm).value)
    decreases |txs|
  {
    if txs != [] {
      var n := |txs| - 1;
      FoldBalances(txs[..n], gasLimit, env, world, evm);
      StepBalances(txs, gasLimit, env, world, Fold(txs[..n], gasLimit, env, world, evm).value, evm);
    }
  }

  /** In an accepted block they balance after each transaction. */
  lemma EachTransactionBalances(txs: seq<Tx>, i: nat, gasLimit: int, env: Env, world: World, evm: Evm)
    requires EvmOk(evm) && NonNegative(world.balances) && gasLimit >= 0 && i <= |txs|
    requires Fold(txs, gasLimit, env, world, evm).Some?
    ensures Fold(txs[..i], gasLimit, env, world, evm).Some?
    ensures BooksBalance(txs[..i], gasLimit, env, world, Fold(txs[..i], gasLimit, env, world, evm).value)
  {
    if Fold(txs[..i], gasLimit, env, world, evm).None? { RefusedStays(txs, i, gasLimit, env, world, evm); }
    FoldBalances(txs[..i], gasLimit, env, world, evm);
  }

  lemma StepBalances(txs: seq<Tx>, gasLimit: int, env: Env, world: World, l: Ledger, evm: Evm)
    requires EvmOk(evm) && txs != [] && BooksBalance(txs[..|txs| - 1], gasLimit, env, world, l)
    requires Step(l, txs[|txs| - 1], env, evm).Some?
    ensures BooksBalance(txs, gasLimit, env, world, Step(l, txs[|txs| - 1], env, evm).value)
  {
    var n := |txs| - 1;
    var l' := Step(l, txs[n], env, evm).value;
    var receipt := l'.receipts[n];
    StepLedger(l, txs[n], env, evm);
    NextReceipt(l.receipts, receipt);
    NextBurnt(txs, l.receipts, receipt, env);
    NextNonce(txs, n, l.world, l'.world);
  }

  /** One accepted transaction: the balances lose its burnt fee, the pool its used gas, and the nonces
      move on. */
  lemma StepLedger(l: Ledger, tx: Tx, env: Env, evm: Evm)
    requires EvmOk(evm) && NonNegative(l.world.balances) && l.pool >= 0
    requires Step(l, tx, env, evm).Some?
    ensures tx.sender.Some?
    ensures var l' := Step(l, tx, env, evm).value;
      var used := l'.receipts[|l.receipts|].gasUsed;
      && 0 <= l'.pool == l.pool - used
      && Total(l'.world.balances)
         == Total(l.world.balances) - Burnt(TransactionToMessage(tx, env).value, env, used) - (l'.lost - l.lost)
      && NonNegative(l'.world.balances) && l.lost <= l'.lost
      && Nonce(l.world, tx.sender.value) == tx.nonce
      && Nonce(l'.world, tx.sender.value) == tx.nonce + 1 && External(l'.world, tx.sender.value)
      && forall a: Address :: External(l.world, a) ==> StaysExternal(l.world, l'.world, tx.sender.value, a)
  {
    MessagesArePriced(tx, env);
    var msg := TransactionToMessage(tx, env).value;
    var out := Run(msg, env, l.world, evm);
    assert RunOk(Prepared(Bought(l.world, msg), msg), msg, msg.gasLimit as int - Intrinsic(msg, env), out);
    TransitionFacts(msg, env, l.world, l.pool, out);
    var settled := Settled(out.world, msg, env, Charged(msg, env, out));
    RemoveTotal(settled.balances, out.suicides);
    forall a: Address | External(l.world, a)
      ensures StaysExternal(l.world, Finalised(settled, out.suicides), msg.from, a)
    {
      assert Unmoved(l.world, settled, msg.from, out.suicides, a);
    }
  }

  /** An external account stays one, and its nonce moves only if it is the sender. */
  ghost predicate StaysExternal(w: World, w': World, from: Address, a: Address) {
    External(w', a) && (a == from || Nonce(w', a) == Nonce(w, a))
  }

  /** With fees enforced, a block burns its used gas times the base fee, and nothing before London. */
  lemma {:induction false} BlockBurns(txs: seq<Tx>, receipts: seq<Receipt>, env: Env)
    requires |txs| == |receipts| && !env.noBaseFee
    requires forall i :: 0 <= i < |txs| ==> txs[i].sender.Some?
    ensures SumBurnt(txs, receipts, env) == if env.London() then SumUsed(receipts) * env.baseFee.value else 0
    decreases |txs|
  {
    if txs != [] {
      var n := |txs| - 1;
      BlockBurns(txs[..n], receipts[..n], env);
      if env.London() {
        Distribute(SumUsed(receipts[..n]), receipts[n].gasUsed, env.baseFee.value);
      }
    }
  }

  // ----- blocks of plain transfers -----

  /** What a transaction pays for a unit of gas. */
  function PricePaid(tx: Tx, env: Env): int {
    match tx.fees
    case Legacy(p) => p
    case Dynamic(tip, cap) =>
      if env.baseFee.Some? && tip + env.baseFee.value <= cap then tip + env.baseFee.value else cap
  }

  /** What the beneficiary gets of it. */
  function TipPaid(tx: Tx, env: Env): int {
    if env.baseFee.Some? then PricePaid(tx, env) - env.baseFee.value else PricePaid(tx, env)
  }

  /** An accepted call under a machine that only transfers value: the recipient gets the value, the sender
      pays it and the gas, the beneficiary gets the tip, and nobody else is touched. */
  lemma TransferStep(l: Ledger, tx: Tx, env: Env)
    requires NonNegative(l.world.balances) && l.pool >= 0 && tx.to.Some? && !env.noBaseFee
    requires Step(l, tx, env, TransferOnly).Some?
    ensures tx.sender.Some?
    ensures var l' := Step(l, tx, env, TransferOnly).value;
      var receipt := l'.receipts[|l.receipts|];
      && !receipt.failed && l'.lost == l.lost
      && receipt.gasUsed == (DataCost(tx.data, IntrinsicRules(false, env.homestead, env.istanbul, env.shanghai))
                             + ListCost(tx.accessList)) % (MAX_UINT64 + 1)
      && (forall a: Address :: Nonce(l'.world, a) == Nonce(l.world, a) + if a == tx.sender.value then 1 else 0)
      && (forall a: Address :: Balance(l'.world.balances, a) == Balance(l.world.balances, a)
            + (if Some(a) == tx.to then tx.value else 0)
            - (if a == tx.sender.value then tx.value + receipt.gasUsed * PricePaid(tx, env) else 0)
            + (if a == env.coinbase then receipt.gasUsed * TipPaid(tx, env) else 0))
  {
    MessagesArePriced(tx, env);
    var msg := TransactionToMessage(tx, env).value;
    var out := Run(msg, env, l.world, TransferOnly);
    BoughtCovers(msg, env, l.world, l.pool);
    QuotientBound(msg.gasLimit as int - out.gasLeft, RefundQuotient(env));
    var used := Charged(msg, env, out);
    assert used == Intrinsic(msg, env);
    var settled := Settled(out.world, msg, env, used);
    NothingRemoved(settled);
    forall a: Address
      ensures Nonce(settled, a) == Nonce(l.world, a) + if a == msg.from then 1 else 0
      ensures Balance(settled.balances, a) == Balance(l.world.balances, a)
        + (if Some(a) == tx.to then tx.value else 0)
        - (if a == msg.from then tx.value + used * PricePaid(tx, env) else 0)
        + (if a == env.coinbase then used * TipPaid(tx, env) else 0)
    {
      TransferAccount(l.world, tx, msg, env, out, used, a);
    }
  }

  /** What such a call does to one account. */
  lemma TransferAccount(w: World, tx: Tx, msg: Message, env: Env, out: Outcome, used: int, a: Address)
    requires TransactionToMessage(tx, env) == Ok(msg) && FeesOk(msg, env) && !env.noBaseFee
    requires msg.to.Some? && Nonce(w, msg.from) < MAX_UINT64
    requires out.world == var given := Prepared(Bought(w, msg), msg);
      given.(balances := Transfer(given.balances, msg.from, msg.to.value, msg.value))
    ensures var settled := Settled(out.world, msg, env, used);
      && Nonce(settled, a) == Nonce(w, a) + (if a == msg.from then 1 else 0)
      && Balance(settled.balances, a) == Balance(w.balances, a)
        + (if Some(a) == tx.to then tx.value else 0)
        - (if a == msg.from then tx.value + used * PricePaid(tx, env) else 0)
        + (if a == env.coinbase then used * TipPaid(tx, env) else 0)
  {
    MessagesArePriced(tx, env);
    PricesAgree(msg, tx, env);
    var given := Prepared(Bought(w, msg), msg);
    RunIsFramed(w, msg, env, out, used);
    TransferAt(given.balances, msg.from, tx.to.value, tx.value, a);
    Distribute(msg.gasLimit as int - used, used, msg.gasPrice);
    assert Nonce(given, a) == Nonce(w, a) + if a == msg.from then 1 else 0;
    assert Balance(given.balances, a) == Balance(w.balances, a) - if a == msg.from then msg.gasLimit as int * msg.gasPrice else 0;
  }

  lemma NothingRemoved(w: World)
    ensures Finalised(w, {}) == w && Held(w.balances, {}) == 0
  {
    assert Part(w.balances, {}) == map[];
    assert w.balances - {} == w.balances && w.nonces - {} == w.nonces;
  }

  lemma PricesAgree(msg: Message, tx: Tx, env: Env)
    requires TransactionToMessage(tx, env) == Ok(msg) && FeesOk(msg, env) && !env.noBaseFee
    ensures msg.gasPrice == PricePaid(tx, env)
    ensures forall used: int :: Reward(msg, env, used) == used * TipPaid(tx, env)
  {
    MessagesArePriced(tx, env);
  }

  /** What a block of transfers sends to an account. */
  ghost function Received(txs: seq<Tx>, a: Address): int {
    if txs == [] then 0
    else Received(txs[..|txs| - 1], a) + if txs[|txs| - 1].to == Some(a) then txs[|txs| - 1].value else 0
  }

  /** Over a whole accepted block of calls under such a machine, an account that sends nothing and is not
      the beneficiary gains exactly what is sent to it. */
  lemma {:induction false} TransfersArrive(txs: seq<Tx>, gasLimit: int, env: Env, world: World, a: Address)
    requires NonNegative(world.balances) && gasLimit >= 0 && !env.noBaseFee && a != env.coinbase
    requires forall i :: 0 <= i < |txs| ==> txs[i].to.Some? && txs[i].sender != Some(a)
    requires Fold(txs, gasLimit, env, world, TransferOnly).Some?
    ensures Balance(Fold(txs, gasLimit, env, world, TransferOnly).value.world.balances, a)
         == Balance(world.balances, a) + Received(txs, a)
    decreases |txs|
  {
    if txs != [] {
      var n := |txs| - 1;
      TransferOnlyOk();
      EachTransactionBalances(txs, n, gasLimit, env, world, TransferOnly);
      TransfersArrive(txs[..n], gasLimit, env, world, a);
      FoldNext(txs, n, gasLimit, env, world, TransferOnly);
      assert txs[..n + 1] == txs;
      TransferStep(Fold(txs[..n], gasLimit, env, world, TransferOnly).value, txs[n], env);
    }
  }

  // ----- what is lost with destroyed contracts -----

  /** The transaction's run destroys nothing, and the accounts removed at its end hold nothing. */
  ghost predicate LosesNothing(l: Ledger, tx: Tx, env: Env, evm: Evm)
    requires Step(l, tx, env, evm).Some?
  {
    var msg := TransactionToMessage(tx, env).value;
    var out := Run(msg, env, l.world, evm);
    var settled := Settled(out.world, msg, env, Charged(msg, env, out));
    out.destroyed == 0 && forall a :: a in out.suicides ==> Balance(settled.balances, a) == 0
  }

  /** A transaction takes exactly its burnt fee from the total if and only if it loses nothing. */
  lemma StepLosesIff(l: Ledger, tx: Tx, env: Env, evm: Evm)
    requires EvmOk(evm) && NonNegative(l.world.balances) && l.pool >= 0
    requires Step(l, tx, env, evm).Some?
    ensures var l' := Step(l, tx, env, evm).value;
      var used := l'.receipts[|l.receipts|].gasUsed;
      && (l'.lost == l.lost <==> LosesNothing(l, tx, env, evm))
      && (Total(l'.world.balances) == Total(l.world.balances) - Burnt(TransactionToMessage(tx, env).value, env, used)
          <==> LosesNothing(l, tx, env, evm))
  {
    StepLedger(l, tx, env, evm);
    MessagesArePriced(tx, env);
    var msg := TransactionToMessage(tx, env).value;
    var out := Run(msg, env, l.world, evm);
    assert RunOk(Prepared(Bought(l.world, msg), msg), msg, msg.gasLimit as int - Intrinsic(msg, env), out);
    TransitionFacts(msg, env, l.world, l.pool, out);
    var settled := Settled(out.world, msg, env, Charged(msg, env, out));
    RemoveTotal(settled.balances, out.suicides);
    HeldNothingIff(settled.balances, out.suicides);
  }

  /** No transaction of the block loses anything. */
  ghost predicate BlockLosesNothing(txs: seq<Tx>, gasLimit: int, env: Env, world: World, evm: Evm) {
    forall i :: 0 <= i < |txs| ==> LosesNothingAt(txs, i, gasLimit, env, world, evm)
  }

  ghost predicate LosesNothingAt(txs: seq<Tx>, i: nat, gasLimit: int, env: Env, world: World, evm: Evm)
    requires i < |txs|
  {
    var before := Fold(txs[..i], gasLimit, env, world, evm);
    before.Some? && Step(before.value, txs[i], env, evm).Some? && LosesNothing(before.value, txs[i], env, evm)
  }

  /** An accepted block takes exactly its burnt fees from the total if and only if none of its
      transactions loses anything. */
  lemma BlockLosesIff(txs: seq<Tx>, gasLimit: int, env: Env, world: World, evm: Evm)
    requires EvmOk(evm) && NonNegative(world.balances) && gasLimit >= 0
    requires Fold(txs, gasLimit, env, world, evm).Some?
    ensures var l := Fold(txs, gasLimit, env, world, evm).value;
      && |l.receipts| == |txs|
      && (Total(l.world.balances) == Total(world.balances) - SumBurnt(txs, l.receipts, env)
          <==> BlockLosesNothing(txs, gasLimit, env, world, evm))
  {
    FoldBalances(txs, gasLimit, env, world, evm);
    LostAltogether(txs, gasLimit, env, world, evm);
  }

  /** What the first `n` transactions lose. */
  ghost function LostBy(txs: seq<Tx>, n: nat, gasLimit: int, env: Env, world: World, evm: Evm): int {
    if n > |txs| then 0
    else match Fold(txs[..n], gasLimit, env, world, evm) case Some(l) => l.lost case None => 0
  }

  lemma {:induction false} LostStep(txs: seq<Tx>, n: nat, gasLimit: int, env: Env, world: World, evm: Evm)
    requires EvmOk(evm) && NonNegative(world.balances) && gasLimit >= 0 && n < |txs|
    requires Fold(txs, gasLimit, env, world, evm).Some?
    ensures Fold(txs[..n], gasLimit, env, world, evm).Some? && Fold(txs[..n + 1], gasLimit, env, world, evm).Some?
    ensures 0 <= LostBy(txs, n, gasLimit, env, world, evm) <= LostBy(txs, n + 1, gasLimit, env, world, evm)
    ensures LostBy(txs, n, gasLimit, env, world, evm) == LostBy(txs, n + 1, gasLimit, env, world, evm)
       <==> LosesNothingAt(txs, n, gasLimit, env, world, evm)
  {
    EachTransactionBalances(txs, n, gasLimit, env, world, evm);
    EachTransactionBalances(txs, n + 1, gasLimit, env, world, evm);
    FoldNext(txs, n, gasLimit, env, world, evm);
    var l := Fold(txs[..n], gasLimit, env, world, evm).value;
    StepLosesIff(l, txs[n], env, evm);
    StepLedger(l, txs[n], env, evm);
  }

  /** Losses that only add up are nothing exactly if each is. */
  lemma {:induction false} LossesAddUp(lost: nat -> int, quiet: nat -> bool, n: nat)
    requires lost(0) == 0
    requires forall i: nat :: i < n ==> 0 <= lost(i) <= lost(i + 1) && (lost(i) == lost(i + 1) <==> quiet(i))
    ensures lost(n) >= 0 && (lost(n) == 0 <==> forall i: nat :: i < n ==> quiet(i))
    decreases n
  {
    if n > 0 { LossesAddUp(lost, quiet, n - 1); }
  }

  lemma {:induction false} LostAltogether(txs: seq<Tx>, gasLimit: int, env: Env, world: World, evm: Evm)
    requires EvmOk(evm) && NonNegative(world.balances) && gasLimit >= 0
    requires Fold(txs, gasLimit, env, world, evm).Some?
    ensures Fold(txs, gasLimit, env, world, evm).value.lost == 0 <==> BlockLosesNothing(txs, gasLimit, env, world, evm)
  {
    var lost := (i: nat) => LostBy(txs, i, gasLimit, env, world, evm);
    var quiet := (i: nat) => i < |txs| && LosesNothingAt(txs, i, gasLimit, env, world, evm);
    LostFirst(txs, gasLimit, env, world, evm);
    forall i: nat | i < |txs|
      ensures 0 <= lost(i) <= lost(i + 1) && (lost(i) == lost(i + 1) <==> quiet(i))
    {
      LostStep(txs, i, gasLimit, env, world, evm);
    }
    LossesAddUp(lost, quiet, |txs|);
    forall i | 0 <= i < |txs| ensures quiet(i) <==> LosesNothingAt(txs, i, gasLimit, env, world, evm) { }
  }

  lemma {:induction false} LostFirst(txs: seq<Tx>, gasLimit: int, env: Env, world: World, evm: Evm)
    requires Fold(txs, gasLimit, env, world, evm).Some?
    ensures LostBy(txs, 0, gasLimit, env, world, evm) == 0
    ensures LostBy(txs, |txs|, gasLimit, env, world, evm) == Fold(txs, gasLimit, env, world, evm).value.lost
  {
    assert txs[..0] == [] && txs[..|txs|] == txs;
  }

  /** A machine in which no contract destroys itself. */
  ghost predicate Conserves(evm: Evm) {
    forall w: World, m: Message, gas: nat :: evm(w, m, gas).destroyed == 0 && evm(w, m, gas).suicides == {}
  }

  /** With such a machine and fees enforced, a block takes its used gas times the base fee from the total
      of all balances, and before London nothing at all. */
  lemma FeesAlone(txs: seq<Tx>, gasLimit: int, env: Env, world: World, evm: Evm)
    requires EvmOk(evm) && Conserves(evm) && NonNegative(world.balances) && gasLimit >= 0 && !env.noBaseFee
    requires Fold(txs, gasLimit, env, world, evm).Some?
    ensures var l := Fold(txs, gasLimit, env, world, evm).value;
      Total(l.world.balances) == Total(world.balances) - if env.London() then SumUsed(l.receipts) * env.baseFee.value else 0
  {
    var l := Fold(txs, gasLimit, env, world, evm).value;
    FoldBalances(txs, gasLimit, env, world, evm);
    forall i | 0 <= i < |txs| ensures LosesNothingAt(txs, i, gasLimit, env, world, evm) && txs[i].sender.Some? {
      EachTransactionBalances(txs, i, gasLimit, env, world, evm);
      EachTransactionBalances(txs, i + 1, gasLimit, env, world, evm);
      FoldNext(txs, i, gasLimit, env, world, evm);
      assert Passed(txs, i, l.world);
    }
    BlockLosesIff(txs, gasLimit, env, world, evm);
    BlockBurns(txs, l.receipts, env);
  }

  /** A machine in which every contract, when called, destroys itself and names itself the heir. */
  function Destroying(w: World, m: Message, gas: nat): Outcome {
    if m.to.Some? && m.to.value in w.contracts && Balance(w.balances, m.to.value) >= 0
    then Outcome(w.(balances := w.balances[m.to.value := 0]), gas, 0, false, Balance(w.balances, m.to.value), {m.to.value})
    else TransferOnly(w, m, gas)
  }

  lemma DestroyingOk()
    ensures EvmOk(Destroying)
  {
    TransferOnlyOk();
    forall w: World, m: Message, gas: nat ensures RunOk(w, m, gas, Destroying(w, m, gas)) {
      assert RunOk(w, m, gas, TransferOnly(w, m, gas));
      if m.to.Some? && m.to.value in w.contracts && Balance(w.balances, m.to.value) >= 0 {
        CreditTotal(w.balances, m.to.value, -Balance(w.balances, m.to.value));
      }
    }
  }

  /** A block of one transaction that calls such a contract, which also is the block's beneficiary: what
      the contract held and the fee paid to it are both lost. */
  lemma DestructionExample() returns (txs: seq<Tx>, env: Env, world: World)
    ensures EvmOk(Destroying) && NonNegative(world.balances) && !env.noBaseFee && env.London() && |txs| == 1
    ensures var r := Fold(txs, 30_000, env, world, Destroying);
      && r.Some? && r.value.lost == 5 + 21_000
      && Total(r.value.world.balances) < Total(world.balances) - SumUsed(r.value.receipts) * env.baseFee.value
  {
    DestroyingOk();
    env := Env(Some(1), true, true, true, false, 2);
    world := World(map[1 := 100_000, 2 := 5], map[], {2});
    var tx := Tx(Some(1), Some(2), 0, 0, 21_000, Dynamic(1, 2), [], []);
    txs := [tx];
    DestructionStep(tx, env, world);
    OneTransaction(tx, 30_000, env, world, Destroying);
    FoldBalances(txs, 30_000, env, world, Destroying);
    BlockBurns(txs, Fold(txs, 30_000, env, world, Destroying).value.receipts, env);
  }

  lemma {:induction false} OneTransaction(tx: Tx, gasLimit: int, env: Env, world: World, evm: Evm)
    ensures Fold([tx], gasLimit, env, world, evm) == Step(Ledger([], world, gasLimit, 0), tx, env, evm)
  {
    assert [tx][..0] == [] && [tx][..1] == [tx];
    FoldNext([tx], 0, gasLimit, env, world, evm);
  }

  // ----- lemmas -----

  lemma {:induction false} DestructionStep(tx: Tx, env: Env, world: World)
    requires env == Env(Some(1), true, true, true, false, 2) && world == World(map[1 := 100_000, 2 := 5], map[], {2})
    requires tx == Tx(Some(1), Some(2), 0, 0, 21_000, Dynamic(1, 2), [], [])
    ensures var r := Step(Ledger([], world, 30_000, 0), tx, env, Destroying); r.Some? && r.value.lost == 5 + 21_000
  {
    var msg := TransactionToMessage(tx, env).value;
    DestructionRun(tx, env, world, msg);
    var out := Run(msg, env, world, Destroying);
    RunIsFramed(world, msg, env, out, 21_000);
    HeldByOne(Settled(out.world, msg, env, 21_000).balances, 2);
  }

  lemma {:induction false} DestructionRun(tx: Tx, env: Env, world: World, msg: Message)
    requires env == Env(Some(1), true, true, true, false, 2) && world == World(map[1 := 100_000, 2 := 5], map[], {2})
    requires tx == Tx(Some(1), Some(2), 0, 0, 21_000, Dynamic(1, 2), [], [])
    requires TransactionToMessage(tx, env) == Ok(msg)
    ensures Executes(msg, env, world, 30_000) && Intrinsic(msg, env) == 21_000
    ensures var out := Run(msg, env, world, Destroying);
      && out.destroyed == 5 && out.suicides == {2} && Charged(msg, env, out) == 21_000
      && Balance(out.world.balances, 2) == 0
      && Reward(msg, env, 21_000) == 21_000
  {
    assert Intrinsic(msg, env) == 21_000;
  }

  /** Folding one element more is one more step, and a refusal is final. */
  lemma {:induction false} FoldWithNext<S, T>(step: (S, T) -> Option<S>, s0: S, ts: seq<T>, i: nat)
    requires i < |ts|
    ensures FoldWith(step, s0, ts[..i]).Some? ==>
      FoldWith(step, s0, ts[..i + 1]) == step(FoldWith(step, s0, ts[..i]).value, ts[i])
    ensures FoldWith(step, s0, ts[..i]).None? ==> FoldWith(step, s0, ts[..i + 1]).None?
  {
    assert ts[..i + 1][..i] == ts[..i];
  }

  lemma {:induction false} RefusedUpTo<S, T>(step: (S, T) -> Option<S>, s0: S, ts: seq<T>, i: nat, j: nat)
    requires i <= j <= |ts| && FoldWith(step, s0, ts[..i]).None?
    ensures FoldWith(step, s0, ts[..j]).None?
    decreases j
  {
    if i < j {
      RefusedUpTo(step, s0, ts, i, j - 1);
      FoldWithNext(step, s0, ts, j - 1);
    }
  }

  lemma {:induction false} FoldNext(txs: seq<Tx>, i: nat, gasLimit: int, env: Env, world: World, evm: Evm)
    requires i < |txs| && Fold(txs[..i], gasLimit, env, world, evm).Some?
    ensures Fold(txs[..i + 1], gasLimit, env, world, evm)
         == Step(Fold(txs[..i], gasLimit, env, world, evm).value, txs[i], env, evm)
    ensures Step(Fold(txs[..i], gasLimit, env, world, evm).value, txs[i], env, evm).None? ==>
      Fold(txs, gasLimit, env, world, evm).None?
  {
    FoldWithNext(Stepper(env, evm), Ledger([], world, gasLimit, 0), txs, i);
    if Fold(txs[..i + 1], gasLimit, env, world, evm).None? { RefusedStays(txs, i + 1, gasLimit, env, world, evm); }
  }

  /** A refused transaction refuses the block. */
  lemma {:induction false} RefusedStays(txs: seq<Tx>, i: nat, gasLimit: int, env: Env, world: World, evm: Evm)
    requires i <= |txs| && Fold(txs[..i], gasLimit, env, world, evm).None?
    ensures Fold(txs, gasLimit, env, world, evm).None?
  {
    RefusedUpTo(Stepper(env, evm), Ledger([], world, gasLimit, 0), txs, i, |txs|);
    assert txs[..|txs|] == txs;
  }

  lemma {:induction false} SumSnoc(receipts: seq<Receipt>, receipt: Receipt)
    ensures SumUsed(receipts + [receipt]) == SumUsed(receipts) + receipt.gasUsed
  {
    assert (receipts + [receipt])[..|receipts|] == receipts;
  }

  lemma {:induction false} NextReceipt(receipts: seq<Receipt>, receipt: Receipt)
    requires CumulativeOk(receipts) && receipt.cumulativeGasUsed == SumUsed(receipts) + receipt.gasUsed
    ensures SumUsed(receipts + [receipt]) == SumUsed(receipts) + receipt.gasUsed
    ensures CumulativeOk(receipts + [receipt])
  {
    var all := receipts + [receipt];
    SumSnoc(receipts, receipt);
    forall i | 0 <= i < |all| ensures CumulativeAt(all, i) {
      if i < |receipts| {
        assert CumulativeAt(receipts, i);
        assert all[..i + 1] == receipts[..i + 1];
      } else {
        assert all[..i + 1] == all;
      }
    }
  }

  lemma {:induction false} NextBurnt(txs: seq<Tx>, receipts: seq<Receipt>, receipt: Receipt, env: Env)
    requires |txs| == |receipts| + 1
    ensures var n := |receipts|; var m := TransactionToMessage(txs[n], env);
      SumBurnt(txs, receipts + [receipt], env)
      == SumBurnt(txs[..n], receipts, env) + if m.Ok? then Burnt(m.value, env, receipt.gasUsed) else 0
  {
    assert (receipts + [receipt])[..|receipts|] == receipts;
  }

  lemma {:induction false} SentByPrefix(txs: seq<Tx>, sender: Option<Address>, i: nat, j: nat, n: nat)
    requires i <= j <= n <= |txs|
    ensures SentBy(txs[..n], sender, i, j) == SentBy(txs, sender, i, j)
    decreases j
  {
    if i < j { SentByPrefix(txs, sender, i, j - 1, n); }
  }

  lemma {:induction false} SentByPositive(txs: seq<Tx>, i: nat, j: nat)
    requires i < j <= |txs|
    ensures SentBy(txs, txs[i].sender, i, j) > 0
    decreases j
  {
    if i < j - 1 { SentByPositive(txs, i, j - 1); }
  }

  /** The books of nonces after one transaction more. */
  lemma NextNonce(txs: seq<Tx>, n: nat, w: World, w': World)
    requires |txs| == n + 1 && NoncesConsecutive(txs[..n]) && NoncesPassed(txs[..n], w) && txs[n].sender.Some?
    requires Nonce(w, txs[n].sender.value) == txs[n].nonce
    requires Nonce(w', txs[n].sender.value) == txs[n].nonce + 1 && External(w', txs[n].sender.value)
    requires forall a: Address :: External(w, a) ==> StaysExternal(w, w', txs[n].sender.value, a)
    ensures NoncesIncrease(txs) && NoncesConsecutive(txs) && NoncesPassed(txs, w')
  {
    forall j | 0 <= j <= n ensures Passed(txs, j, w') {
      if j < n { EarlierNonce(txs, n, j, w, w'); }
    }
    forall i, j | 0 <= i < j < |txs| && txs[i].sender == txs[j].sender
      ensures txs[j].nonce == txs[i].nonce + SentBy(txs, txs[i].sender, i, j) && txs[i].nonce < txs[j].nonce
    {
      SentByPositive(txs, i, j);
      if j < n {
        assert txs[..n][i] == txs[i] && txs[..n][j] == txs[j];
        SentByPrefix(txs, txs[i].sender, i, j, n);
      } else {
        EarlierNonce(txs, n, i, w, w');
      }
    }
  }

  lemma EarlierNonce(txs: seq<Tx>, n: nat, j: nat, w: World, w': World)
    requires |txs| == n + 1 && j < n && NoncesPassed(txs[..n], w) && txs[n].sender.Some?
    requires Nonce(w, txs[n].sender.value) == txs[n].nonce
    requires Nonce(w', txs[n].sender.value) == txs[n].nonce + 1 && External(w', txs[n].sender.value)
    requires forall a: Address :: External(w, a) ==> StaysExternal(w, w', txs[n].sender.value, a)
    ensures Passed(txs, j, w')
    ensures txs[j].sender == txs[n].sender ==> txs[n].nonce == txs[j].nonce + SentBy(txs, txs[j].sender, j, n)
  {
    assert txs[..n][j] == txs[j] && Passed(txs[..n], j, w);
    SentByPrefix(txs, txs[j].sender, j, n, n);
    assert StaysExternal(w, w', txs[n].sender.value, txs[j].sender.value);
  }
}
