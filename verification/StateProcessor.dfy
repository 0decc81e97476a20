/** Processing the transactions of a block: cumulative gas, receipts and fees. */
module StateProcessors {
  import opened Wrappers
  import opened Transactions
  import opened StateTransitions
  import opened Intrinsic

  /** A transaction of a block; `signed` tells whether a sender could be recovered. */
  datatype BlockTx = BlockTx(hash: nat, signed: bool, msg: Message)

  datatype Receipt = Receipt(txHash: nat, failed: bool, cumulativeGasUsed: nat, gasUsed: nat)

  datatype ProcessError = BadSignature | Failed(why: TxError)

  /** What one transaction did: the balances the machine started from and ended with, and the fee. */
  datatype Applied = Applied(before: Balances, after: Balances, from: Address, fee: nat)

  /** What the transactions of a block work on: the accounts and what is left of the gas. */
  datatype Ledger = Ledger(balances: Balances, nonces: Nonces, pool: nat)

  /** How the machine would end for a transaction on this ledger. */
  ghost function RunOn(tx: BlockTx, l: Ledger, homestead: bool, run: Machine): Outcome
    requires ExactGas(tx.msg.data, tx.msg.create, homestead) <= tx.msg.gas
  {
    run(tx.msg, Pay(l.balances, tx.msg.from, -(tx.msg.gas * tx.msg.gasPrice)), Counted(tx.msg, l.nonces),
        tx.msg.gas - ExactGas(tx.msg.data, tx.msg.create, homestead))
  }

  /** Why a transaction stops the block, if it does. */
  ghost function Refusal(tx: BlockTx, l: Ledger, homestead: bool, run: Machine): Option<ProcessError> {
    if !tx.signed then Some(BadSignature)
    else
      var pre := PreError(tx.msg, l.balances, NonceAt(l.nonces, tx.msg.from), l.pool);
      if pre != None then Some(Failed(pre.value))
      else if ExactGas(tx.msg.data, tx.msg.create, homestead) > tx.msg.gas then Some(Failed(OutOfGas))
      else if RunOn(tx, l, homestead, run).tooPoor then Some(Failed(InsufficientBalance)) else None
  }

  /** The ledger after a transaction that is not refused. */
  ghost function AfterTx(tx: BlockTx, l: Ledger, coinbase: Address, homestead: bool, run: Machine): Ledger
    requires Refusal(tx, l, homestead, run) == None
  {
    var r := RunOn(tx, l, homestead, run);
    var used := RefundedUse(tx.msg.gas - r.left, r.refund);
    Ledger(Pay(Pay(r.balances, tx.msg.from, (tx.msg.gas - used) * tx.msg.gasPrice), coinbase, used * tx.msg.gasPrice),
           r.nonces,
           if l.pool - used >= 0 then l.pool - used else 0)
  }

  /** The ledger after the first i transactions, or the first refusal among them. */
  datatype Progress = Going(ledger: Ledger) | Halted(error: ProcessError)

  ghost function AfterTxs(txs: seq<BlockTx>, i: nat, l: Ledger, coinbase: Address, homestead: bool,
                          run: Machine): Progress
    requires i <= |txs|
  {
    if i == 0 then Going(l)
    else match AfterTxs(txs, i - 1, l, coinbase, homestead, run)
      case Halted(e) => Halted(e)
      case Going(m) =>
        var e := Refusal(txs[i - 1], m, homestead, run);
        if e != None then Halted(e.value) else Going(AfterTx(txs[i - 1], m, coinbase, homestead, run))
  }

  lemma {:induction false} StaysHalted(txs: seq<BlockTx>, i: nat, n: nat, l: Ledger, coinbase: Address, homestead: bool,
                                       run: Machine)
    requires i <= n <= |txs| && AfterTxs(txs, i, l, coinbase, homestead, run).Halted?
    ensures AfterTxs(txs, n, l, coinbase, homestead, run) == AfterTxs(txs, i, l, coinbase, homestead, run)
    decreases n
  {
    if i < n {
      StaysHalted(txs, i, n - 1, l, coinbase, homestead, run);
    }
  }

  ghost function SumGas(receipts: seq<Receipt>): nat {
    if receipts == [] then 0 else SumGas(receipts[..|receipts| - 1]) + receipts[|receipts| - 1].gasUsed
  }

  /** What the machine did to an account. */
  ghost function MachineOn(trace: seq<Applied>, a: Address): int {
    if trace == [] then 0
    else MachineOn(trace[..|trace| - 1], a) +
           BalanceOf(trace[|trace| - 1].after, a) - BalanceOf(trace[|trace| - 1].before, a)
  }

  /** What the fees did to an account. */
  ghost function FeesOn(trace: seq<Applied>, coinbase: Address, a: Address): int {
    if trace == [] then 0
    else FeesOn(trace[..|trace| - 1], coinbase, a) + FeeOn(a, trace[|trace| - 1].from, coinbase, trace[|trace| - 1].fee)
  }

  /** The receipts tell the gas used by each transaction and by all up to it. */
  ghost predicate ReceiptsOk(receipts: seq<Receipt>) {
    forall i :: 0 <= i < |receipts| ==> receipts[i].cumulativeGasUsed == SumGas(receipts[..i + 1])
  }

  /** The trace belongs to the transactions: who paid, and how much. */
  ghost predicate TraceOk(trace: seq<Applied>, txs: seq<BlockTx>, receipts: seq<Receipt>) {
    && |trace| == |receipts| <= |txs|
    && forall i :: 0 <= i < |trace| ==>
         && trace[i].from == txs[i].msg.from && trace[i].fee == receipts[i].gasUsed * txs[i].msg.gasPrice
         && receipts[i].txHash == txs[i].hash && receipts[i].gasUsed <= txs[i].msg.gas
  }

  lemma ReceiptsMore(receipts: seq<Receipt>, r: Receipt)
    requires ReceiptsOk(receipts) && r.cumulativeGasUsed == SumGas(receipts) + r.gasUsed
    ensures ReceiptsOk(receipts + [r]) && SumGas(receipts + [r]) == SumGas(receipts) + r.gasUsed
  {
    var all := receipts + [r];
    assert all[..|receipts|] == receipts;
    forall i | 0 <= i < |all| ensures all[i].cumulativeGasUsed == SumGas(all[..i + 1]) {
      if i < |receipts| {
        assert all[..i + 1] == receipts[..i + 1];
      } else {
        assert all[..i + 1] == all;
      }
    }
  }

  lemma TraceMore(trace: seq<Applied>, x: Applied, coinbase: Address, b0: Balances, b: Balances, b': Balances)
    requires forall a :: BalanceOf(b, a) - BalanceOf(b0, a) == MachineOn(trace, a) + FeesOn(trace, coinbase, a)
    requires forall a :: BalanceOf(b', a) - BalanceOf(b, a) ==
                         BalanceOf(x.after, a) - BalanceOf(x.before, a) + FeeOn(a, x.from, coinbase, x.fee)
    ensures forall a ::
              BalanceOf(b', a) - BalanceOf(b0, a) == MachineOn(trace + [x], a) + FeesOn(trace + [x], coinbase, a)
  {
    assert (trace + [x])[..|trace|] == trace;
  }

  /** Applies one transaction and writes its receipt. */
  method ApplyTransaction(gp: GasPool, state: World, coinbase: Address, homestead: bool, tx: BlockTx, usedGas: nat,
                          run: Machine)
    returns (receipt: Receipt, used': nat, err: Option<ProcessError>, ghost step: Applied)
    requires Honest(run) && gp.gas < TWO_64
    modifies gp, state
    ensures gp.gas <= old(gp.gas)
    ensures err == Refusal(tx, old(Ledger(state.balances, state.nonces, gp.gas)), homestead, run)
    ensures err == Some(BadSignature) <==> !tx.signed
    ensures !tx.signed ==> state.balances == old(state.balances) && state.nonces == old(state.nonces)
                           && gp.gas == old(gp.gas)
    ensures err == None ==>
              var was := old(Ledger(state.balances, state.nonces, gp.gas));
              && Ledger(state.balances, state.nonces, gp.gas) == AfterTx(tx, was, coinbase, homestead, run)
              && receipt.failed == RunOn(tx, was, homestead, run).failed
    ensures err == None ==>
              && receipt.txHash == tx.hash && receipt.gasUsed <= tx.msg.gas
              && used' == usedGas + receipt.gasUsed && receipt.cumulativeGasUsed == used'
              && gp.gas == old(gp.gas) - receipt.gasUsed
              && step.from == tx.msg.from && step.fee == receipt.gasUsed * tx.msg.gasPrice
              && forall a :: BalanceOf(state.balances, a) - BalanceOf(old(state.balances), a) ==
                   BalanceOf(step.after, a) - BalanceOf(step.before, a) + FeeOn(a, step.from, coinbase, step.fee)
  {
    hide Honest, BalanceOf, FeeOn, Pay, ExactGas, Counted, RefundedUse, PreError;
    receipt, used', step := Receipt(tx.hash, false, usedGas, 0), usedGas, Applied(map[], map[], tx.msg.from, 0);
    if !tx.signed {
      err := Some(BadSignature);
      return;
    }
    var st := new StateTransition(gp, state, tx.msg, coinbase, homestead);
    var gas, failed, why;
    ghost var before, seen, ran;
    gas, failed, why, before, seen, ran := st.TransitionDb(run);
    if why != None {
      err := Some(Failed(why.value));
      return;
    }
    err, used' := None, usedGas + gas;
    receipt := Receipt(tx.hash, failed, used', gas);
    step := Applied(before, ran.balances, tx.msg.from, gas * tx.msg.gasPrice);
  }

  /** Processes a block. On success the gas taken from the pool is the gas used by all transactions,
      which is the last cumulative amount and within the limit; and beyond what the machine did, the
      balances moved only by the fees. */
  method Process(txs: seq<BlockTx>, gasLimit: Uint64, state: World, coinbase: Address, homestead: bool, run: Machine)
    returns (receipts: seq<Receipt>, usedGas: nat, err: Option<ProcessError>, ghost left: nat,
             ghost trace: seq<Applied>)
    requires Honest(run)
    modifies state
    ensures err == None ==>
              && |receipts| == |txs| && ReceiptsOk(receipts) && TraceOk(trace, txs, receipts)
              && gasLimit - left == SumGas(receipts) == usedGas <= gasLimit
              && (forall i :: 0 <= i < |txs| ==> txs[i].signed)
              && (txs != [] ==> receipts[|txs| - 1].cumulativeGasUsed == usedGas)
              && forall a :: BalanceOf(state.balances, a) - BalanceOf(old(state.balances), a) ==
                   MachineOn(trace, a) + FeesOn(trace, coinbase, a)
    ensures err != None ==> receipts == [] && usedGas == 0
    ensures match AfterTxs(txs, |txs|, old(Ledger(state.balances, state.nonces, gasLimit)), coinbase, homestead, run)
            case Halted(e) => err == Some(e)
            case Going(l) => err == None && l == Ledger(state.balances, state.nonces, left)
  {
    hide Honest, BalanceOf, FeeOn, MachineOn, FeesOn, ReceiptsOk, SumGas, Refusal, AfterTx, RunOn;
    ghost var l0 := Ledger(state.balances, state.nonces, gasLimit);
    receipts, usedGas, trace, err := [], 0, [], None;
    var gp := new GasPool(gasLimit);
    left := gp.gas;
    NothingYet(coinbase, state.balances);
    for i := 0 to |txs|
      invariant err == None && |receipts| == i && ReceiptsOk(receipts) && TraceOk(trace, txs, receipts)
      invariant fresh(gp) && gp.gas == left && gasLimit - left == SumGas(receipts) == usedGas
      invariant forall a ::
                  BalanceOf(state.balances, a) - BalanceOf(old(state.balances), a) ==
                      MachineOn(trace, a) + FeesOn(trace, coinbase, a)
      invariant AfterTxs(txs, i, l0, coinbase, homestead, run) == Going(Ledger(state.balances, state.nonces, gp.gas))
      invariant i > 0 ==> receipts[i - 1].cumulativeGasUsed == usedGas
      invariant forall k :: 0 <= k < i ==> txs[k].signed
    {
      var receipt;
      ghost var b, step := state.balances, Applied(map[], map[], 0, 0);
      receipt, usedGas, err, step := ApplyTransaction(gp, state, coinbase, homestead, txs[i], usedGas, run);
      if err != None {
        StaysHalted(txs, i + 1, |txs|, l0, coinbase, homestead, run);
        return [], 0, err, 0, [];
      }
      ReceiptsMore(receipts, receipt);
      TraceMore(trace, step, coinbase, old(state.balances), b, state.balances);
      receipts, trace, left := receipts + [receipt], trace + [step], gp.gas;
    }
  }

  lemma NothingYet(coinbase: Address, b: Balances)
    ensures ReceiptsOk([]) && SumGas([]) == 0
    ensures forall a :: BalanceOf(b, a) - BalanceOf(b, a) == MachineOn([], a) + FeesOn([], coinbase, a)
  {
  }

  // ----- Nonces

  /** The nonce of an account on the way through a block. */
  ghost function NonceAfter(txs: seq<BlockTx>, i: nat, l: Ledger, coinbase: Address, homestead: bool, run: Machine,
                            a: Address): Uint64
    requires i <= |txs| && AfterTxs(txs, i, l, coinbase, homestead, run).Going?
  {
    NonceAt(AfterTxs(txs, i, l, coinbase, homestead, run).ledger.nonces, a)
  }

  /** With a machine that lowers no nonce, a transaction lowers none either, unless it is a call that
      counts beyond the last nonce; and a call passes the nonce it was made for. */
  lemma NonceRises(tx: BlockTx, l: Ledger, coinbase: Address, homestead: bool, run: Machine, a: Address)
    requires Steady(run) && Refusal(tx, l, homestead, run) == None
    requires tx.msg.create || tx.msg.from != a || NonceAt(l.nonces, a) < TWO_64 - 1
    ensures var nonce := NonceAt(AfterTx(tx, l, coinbase, homestead, run).nonces, a);
            && nonce >= NonceAt(l.nonces, a)
            && (!tx.msg.create && tx.msg.from == a ==> nonce > NonceAt(l.nonces, a))
  {
    hide ExactGas, PreError, Pay, RefundedUse, NonceAt, Counted;
    CountedMeans(tx.msg, l.nonces);
    SteadyAt(run, tx.msg, Pay(l.balances, tx.msg.from, -(tx.msg.gas * tx.msg.gasPrice)), Counted(tx.msg, l.nonces),
             tx.msg.gas - ExactGas(tx.msg.data, tx.msg.create, homestead), a);
  }

  /** A call that checked its nonce is refused when it is applied again. After the last nonce the count
      starts again, so there the nonce is too high, unless the machine raised it to the last again. */
  lemma ReplayRefused(tx: BlockTx, l: Ledger, coinbase: Address, homestead: bool, run: Machine)
    requires Steady(run) && Refusal(tx, l, homestead, run) == None && tx.msg.checkNonce && !tx.msg.create
    ensures var l' := AfterTx(tx, l, coinbase, homestead, run);
            && (tx.msg.nonce < TWO_64 - 1 ==> Refusal(tx, l', homestead, run) == Some(Failed(NonceTooLow)))
            && (tx.msg.nonce == TWO_64 - 1 && NonceAt(l'.nonces, tx.msg.from) < TWO_64 - 1 ==>
                  Refusal(tx, l', homestead, run) == Some(Failed(NonceTooHigh)))
  {
    var l' := AfterTx(tx, l, coinbase, homestead, run);
    PreErrorMeans(tx.msg, l.balances, NonceAt(l.nonces, tx.msg.from), l.pool);
    PreErrorMeans(tx.msg, l'.balances, NonceAt(l'.nonces, tx.msg.from), l'.pool);
    if tx.msg.nonce < TWO_64 - 1 {
      NonceRises(tx, l, coinbase, homestead, run, tx.msg.from);
    }
  }

  /** Every call of the account checks its nonce, and none is made for the last nonce. */
  ghost predicate Checked(txs: seq<BlockTx>, a: Address) {
    forall k :: 0 <= k < |txs| && txs[k].msg.from == a && !txs[k].msg.create ==>
      txs[k].msg.checkNonce && txs[k].msg.nonce < TWO_64 - 1
  }

  lemma StepRises(txs: seq<BlockTx>, i: nat, l: Ledger, coinbase: Address, homestead: bool, run: Machine, a: Address)
    requires Steady(run) && i < |txs| && Checked(txs, a) && AfterTxs(txs, i + 1, l, coinbase, homestead, run).Going?
    ensures AfterTxs(txs, i, l, coinbase, homestead, run).Going?
    ensures var before, after := NonceAfter(txs, i, l, coinbase, homestead, run, a),
                                 NonceAfter(txs, i + 1, l, coinbase, homestead, run, a);
            && before <= after
            && (txs[i].msg.from == a && !txs[i].msg.create ==> txs[i].msg.nonce == before < after)
  {
    var m := AfterTxs(txs, i, l, coinbase, homestead, run).ledger;
    hide AfterTx, ExactGas, RunOn;
    PreErrorMeans(txs[i].msg, m.balances, NonceAt(m.nonces, txs[i].msg.from), m.pool);
    NonceRises(txs[i], m, coinbase, homestead, run, a);
  }

  lemma {:induction false} NoncesRise(txs: seq<BlockTx>, i: nat, j: nat, l: Ledger, coinbase: Address, homestead: bool,
                                      run: Machine, a: Address)
    requires Steady(run) && i <= j <= |txs| && Checked(txs, a)
             && AfterTxs(txs, j, l, coinbase, homestead, run).Going?
    ensures AfterTxs(txs, i, l, coinbase, homestead, run).Going?
    ensures NonceAfter(txs, i, l, coinbase, homestead, run, a) <= NonceAfter(txs, j, l, coinbase, homestead, run, a)
    decreases j
  {
    if i < j {
      hide AfterTxs;
      StepRises(txs, j - 1, l, coinbase, homestead, run, a);
      NoncesRise(txs, i, j - 1, l, coinbase, homestead, run, a);
    }
  }

  /** In a block that is processed, the calls of an account are made for ever higher nonces: none is
      executed twice. */
  lemma CalledOnce(txs: seq<BlockTx>, i: nat, j: nat, l: Ledger, coinbase: Address, homestead: bool, run: Machine)
    requires Steady(run) && i < j < |txs| && AfterTxs(txs, |txs|, l, coinbase, homestead, run).Going?
    requires txs[i].msg.from == txs[j].msg.from && !txs[i].msg.create && !txs[j].msg.create
             && Checked(txs, txs[i].msg.from)
    ensures txs[i].msg.nonce < txs[j].msg.nonce
  {
    hide AfterTxs;
    var a := txs[i].msg.from;
    NoncesRise(txs, j + 1, |txs|, l, coinbase, homestead, run, a);
    StepRises(txs, j, l, coinbase, homestead, run, a);
    NoncesRise(txs, i + 1, j, l, coinbase, homestead, run, a);
    StepRises(txs, i, l, coinbase, homestead, run, a);
  }

  // ----- Conservation

  ghost function TotalOf(accounts: seq<Address>, b: Balances): int {
    if accounts == [] then 0 else BalanceOf(b, accounts[0]) + TotalOf(accounts[1..], b)
  }

  ghost function MachineTotal(accounts: seq<Address>, trace: seq<Applied>): int {
    if accounts == [] then 0 else MachineOn(trace, accounts[0]) + MachineTotal(accounts[1..], trace)
  }

  ghost function FeesTotal(accounts: seq<Address>, trace: seq<Applied>, coinbase: Address): int {
    if accounts == [] then 0 else FeesOn(trace, coinbase, accounts[0]) + FeesTotal(accounts[1..], trace, coinbase)
  }

  ghost function FeeTotal(accounts: seq<Address>, x: Applied, coinbase: Address): int {
    if accounts == [] then 0 else FeeOn(accounts[0], x.from, coinbase, x.fee) + FeeTotal(accounts[1..], x, coinbase)
  }

  ghost predicate NoDuplicates(accounts: seq<Address>) {
    forall i, j :: 0 <= i < j < |accounts| ==> accounts[i] != accounts[j]
  }

  lemma {:induction false} OneFee(accounts: seq<Address>, x: Applied, coinbase: Address)
    requires NoDuplicates(accounts)
    ensures FeeTotal(accounts, x, coinbase) ==
              (if coinbase in accounts then x.fee else 0) - (if x.from in accounts then x.fee else 0)
    decreases |accounts|
  {
    if accounts != [] {
      OneFee(accounts[1..], x, coinbase);
      assert forall a :: a in accounts <==> a == accounts[0] || a in accounts[1..];
      assert accounts[0] !in accounts[1..];
    }
  }

  lemma {:induction false} FeesAdd(accounts: seq<Address>, trace: seq<Applied>, x: Applied, coinbase: Address)
    ensures FeesTotal(accounts, trace + [x], coinbase) ==
              FeesTotal(accounts, trace, coinbase) + FeeTotal(accounts, x, coinbase)
    decreases |accounts|
  {
    assert (trace + [x])[..|trace|] == trace;
    if accounts != [] {
      FeesAdd(accounts[1..], trace, x, coinbase);
    }
  }

  /** Among accounts that include the coinbase and every sender, the fees of a block are zero-sum. */
  lemma {:induction false} FeesCancel(accounts: seq<Address>, trace: seq<Applied>, coinbase: Address)
    requires NoDuplicates(accounts) && coinbase in accounts && forall i :: 0 <= i < |trace| ==>
               trace[i].from in accounts
    ensures FeesTotal(accounts, trace, coinbase) == 0
    decreases |trace|
  {
    if trace == [] {
      NoFees(accounts, coinbase);
    } else {
      var n := |trace| - 1;
      FeesCancel(accounts, trace[..n], coinbase);
      FeesAdd(accounts, trace[..n], trace[n], coinbase);
      OneFee(accounts, trace[n], coinbase);
      assert trace[..n] + [trace[n]] == trace;
    }
  }

  lemma {:induction false} NoFees(accounts: seq<Address>, coinbase: Address)
    ensures FeesTotal(accounts, [], coinbase) == 0
    decreases |accounts|
  {
    if accounts != [] {
      NoFees(accounts[1..], coinbase);
    }
  }

  lemma {:induction false} TotalsAdd(accounts: seq<Address>, trace: seq<Applied>, coinbase: Address, b: Balances,
                                     b': Balances)
    requires forall a :: BalanceOf(b', a) - BalanceOf(b, a) == MachineOn(trace, a) + FeesOn(trace, coinbase, a)
    ensures TotalOf(accounts, b') - TotalOf(accounts, b) ==
              MachineTotal(accounts, trace) + FeesTotal(accounts, trace, coinbase)
    decreases |accounts|
  {
    if accounts != [] {
      TotalsAdd(accounts[1..], trace, coinbase, b, b');
    }
  }

  /** A block changes the total of the balances only by what the machine does. */
  lemma Conservation(accounts: seq<Address>, trace: seq<Applied>, coinbase: Address, b: Balances, b': Balances)
    requires forall a :: BalanceOf(b', a) - BalanceOf(b, a) == MachineOn(trace, a) + FeesOn(trace, coinbase, a)
    requires NoDuplicates(accounts) && coinbase in accounts && forall i :: 0 <= i < |trace| ==>
               trace[i].from in accounts
    ensures TotalOf(accounts, b') - TotalOf(accounts, b) == MachineTotal(accounts, trace)
  {
    TotalsAdd(accounts, trace, coinbase, b, b');
    FeesCancel(accounts, trace, coinbase);
  }

  // ----- Receipts read back from the database

  datatype Log = Log(blockNumber: nat, blockHash: nat, txHash: nat, txIndex: nat, index: nat)

  datatype StoredReceipt = StoredReceipt(txHash: nat, cumulativeGasUsed: Uint64, gasUsed: Uint64, logs: seq<Log>)

  /** Unsigned 64-bit subtraction. */
  function Minus(a: Uint64, b: Uint64): Uint64 {
    if a >= b then a - b else a - b + TWO_64
  }

  ghost function LogsBefore(receipts: seq<StoredReceipt>, j: nat): nat
    requires j <= |receipts|
  {
    if j == 0 then 0 else LogsBefore(receipts, j - 1) + |receipts[j - 1].logs|
  }

  /** A receipt with what can be derived from the block: its transaction, its own gas, and where its
      logs are. */
  ghost predicate Derived(was: seq<StoredReceipt>, now: StoredReceipt, j: nat, txs: seq<nat>, number: nat, hash: nat)
    requires j < |was| == |txs|
  {
    && now.txHash == txs[j] && now.cumulativeGasUsed == was[j].cumulativeGasUsed
    && now.gasUsed ==
         (if j == 0 then was[0].cumulativeGasUsed else Minus(was[j].cumulativeGasUsed, was[j - 1].cumulativeGasUsed))
    && |now.logs| == |was[j].logs|
    && forall k :: 0 <= k < |now.logs| ==> now.logs[k] == Log(number, hash, txs[j], j, LogsBefore(was, j) + k)
  }

  method SetReceiptsData(number: nat, hash: nat, txs: seq<nat>, receipts: array<StoredReceipt>) returns (ok: bool)
    modifies receipts
    ensures ok == (|txs| == receipts.Length)
    ensures !ok ==> receipts[..] == old(receipts[..])
    ensures ok ==> forall j :: 0 <= j < |txs| ==> Derived(old(receipts[..]), receipts[j], j, txs, number, hash)
  {
    if |txs| != receipts.Length {
      return false;
    }
    ghost var was := receipts[..];
    var logIndex := 0;
    for j := 0 to receipts.Length
      invariant logIndex == LogsBefore(was, j)
      invariant forall i :: 0 <= i < j ==> Derived(was, receipts[i], i, txs, number, hash)
      invariant forall i :: j <= i < receipts.Length ==> receipts[i] == was[i]
    {
      var r;
      var before := if j == 0 then 0 else receipts[j - 1].cumulativeGasUsed;
      r, logIndex := DeriveOne(receipts[j], before, number, hash, txs[j], j, logIndex);
      assert Derived(was, r, j, txs, number, hash) by {
        assert j > 0 ==> Derived(was, receipts[j - 1], j - 1, txs, number, hash);
      }
      receipts[j] := r;
    }
    ok := true;
  }

  /** One receipt, given the gas that the block had used before it. */
  method DeriveOne(was: StoredReceipt, before: Uint64, number: nat, hash: nat, tx: nat, j: nat, from: nat)
    returns (r: StoredReceipt, next: nat)
    ensures r.txHash == tx && r.cumulativeGasUsed == was.cumulativeGasUsed
            && r.gasUsed == Minus(was.cumulativeGasUsed, before)
    ensures |r.logs| == |was.logs| && next == from + |was.logs|
    ensures forall k :: 0 <= k < |r.logs| ==> r.logs[k] == Log(number, hash, tx, j, from + k)
  {
    r := was.(txHash := tx, gasUsed := Minus(was.cumulativeGasUsed, before));
    var logs;
    logs, next := PlaceLogs(r.logs, number, hash, tx, j, from);
    r := r.(logs := logs);
  }

  /** Gives the logs of a receipt their place; the index counts through the whole block. */
  method PlaceLogs(was: seq<Log>, number: nat, hash: nat, tx: nat, j: nat, from: nat)
    returns (logs: seq<Log>, next: nat)
    ensures |logs| == |was| && next == from + |was|
    ensures forall k :: 0 <= k < |logs| ==> logs[k] == Log(number, hash, tx, j, from + k)
  {
    logs, next := was, from;
    for k := 0 to |logs|
      invariant |logs| == |was| && next == from + k
      invariant forall i :: 0 <= i < k ==> logs[i] == Log(number, hash, tx, j, from + i)
    {
      logs := logs[k := Log(number, hash, tx, j, next)];
      next := next + 1;
    }
  }

  /** From the cumulative gas of the receipts that processing wrote, the gas of each transaction is
      recovered. */
  lemma GasRecovered(receipts: seq<Receipt>, was: seq<StoredReceipt>, now: StoredReceipt, j: nat, txs: seq<nat>,
                     number: nat, hash: nat)
    requires ReceiptsOk(receipts) && |receipts| == |was| == |txs| && j < |was|
             && Derived(was, now, j, txs, number, hash)
    requires forall i :: 0 <= i < |was| ==> was[i].cumulativeGasUsed == receipts[i].cumulativeGasUsed
    ensures now.gasUsed == receipts[j].gasUsed
  {
    var upto := receipts[..j + 1];
    assert upto[..j] == receipts[..j] && upto[j] == receipts[j];
    assert receipts[j].cumulativeGasUsed == SumGas(receipts[..j]) + receipts[j].gasUsed;
    assert j > 0 ==> receipts[j - 1].cumulativeGasUsed == SumGas(receipts[..j]);
    assert j == 0 ==> receipts[..0] == [];
  }
}
