/** The gas pool of a block and the gas bookkeeping of a transaction. */
module StateTransitions {
  import opened Wrappers
  import opened Transactions
  import opened Intrinsic

  /** What is left of the gas limit of a block. */
  class GasPool {
    var gas: nat

    constructor (amount: nat)
      requires amount < TWO_64
      ensures gas == amount
    {
      gas := amount;
    }

    /** Going beyond 64 bits would be a panic; no caller gets there. */
    method AddGas(amount: nat)
      requires gas <= TWO_64 - 1 - amount
      modifies this
      ensures gas == old(gas) + amount
    {
      gas := gas + amount;
    }

    method SubGas(amount: nat) returns (ok: bool)
      modifies this
      ensures ok == (old(gas) >= amount) && gas == if ok then old(gas) - amount else old(gas)
    {
      if gas < amount {
        return false;
      }
      gas := gas - amount;
      ok := true;
    }
  }

  type Balances = map<Address, int>

  function BalanceOf(b: Balances, a: Address): int {
    if a in b then b[a] else 0
  }

  function Pay(b: Balances, a: Address, amount: int): Balances {
    b[a := BalanceOf(b, a) + amount]
  }

  type Nonces = map<Address, Uint64>

  function NonceAt(n: Nonces, a: Address): Uint64 {
    if a in n then n[a] else 0
  }

  datatype Message = Message(from: Address, create: bool, gas: Uint64, gasPrice: nat, data: seq<nat>, nonce: Uint64,
                             checkNonce: bool)

  /** What running the code does: the gas left, the refund counter, the balances and nonces after
      it, and how it ended. */
  datatype Outcome = Outcome(left: nat, refund: nat, balances: Balances, nonces: Nonces, failed: bool,
                             tooPoor: bool)

  /** The virtual machine: any function that leaves no more gas than it was given. */
  type Machine = (Message, Balances, Nonces, nat) -> Outcome

  ghost predicate Honest(run: Machine) {
    forall m, b, n, g :: run(m, b, n, g).left <= g
  }

  datatype TxError = NonceTooHigh | NonceTooLow | InsufficientFunds | GasLimitReached | OutOfGas | InsufficientBalance

  /** Why a message is refused before anything happens. */
  function PreError(msg: Message, balances: Balances, nonce: nat, pool: nat): Option<TxError> {
    if msg.checkNonce && nonce < msg.nonce then Some(NonceTooHigh)
    else if msg.checkNonce && nonce > msg.nonce then Some(NonceTooLow)
    else if BalanceOf(balances, msg.from) < msg.gas * msg.gasPrice then Some(InsufficientFunds)
    else if pool < msg.gas then Some(GasLimitReached) else None
  }

  /** A machine that lowers no nonce. */
  ghost predicate Steady(run: Machine) {
    forall m, b, n, g, a :: NonceAt(run(m, b, n, g).nonces, a) >= NonceAt(n, a)
  }

  lemma SteadyAt(run: Machine, m: Message, b: Balances, n: Nonces, g: nat, a: Address)
    requires Steady(run)
    ensures NonceAt(run(m, b, n, g).nonces, a) >= NonceAt(n, a)
  {
  }

  lemma HonestAt(run: Machine, m: Message, b: Balances, n: Nonces, g: nat)
    requires Honest(run)
    ensures run(m, b, n, g).left <= g
  {
  }

  /** What the fee of a transaction does to an account. */
  function FeeOn(a: Address, from: Address, coinbase: Address, fee: int): int {
    (if a == coinbase then fee else 0) - if a == from then fee else 0
  }

  /** The state that transactions work on. */
  class World {
    var balances: Balances
    var nonces: Nonces

    constructor (b: Balances, n: Nonces)
      ensures balances == b && nonces == n
    {
      balances, nonces := b, n;
    }

    function NonceOf(a: Address): Uint64
      reads this
    {
      NonceAt(nonces, a)
    }
  }

  class StateTransition {
    const gp: GasPool
    const state: World
    const msg: Message
    const coinbase: Address
    const homestead: bool
    var gas: nat
    var initialGas: nat

    constructor (gp: GasPool, state: World, msg: Message, coinbase: Address, homestead: bool)
      ensures this.gp == gp && this.state == state && this.msg == msg && this.coinbase == coinbase
              && this.homestead == homestead
      ensures gas == 0 && initialGas == 0
    {
      this.gp, this.state, this.msg, this.coinbase, this.homestead := gp, state, msg, coinbase, homestead;
      gas, initialGas := 0, 0;
    }

    method UseGas(amount: nat) returns (ok: bool)
      modifies this`gas
      ensures ok == (old(gas) >= amount) && gas == if ok then old(gas) - amount else old(gas)
    {
      if gas < amount {
        return false;
      }
      gas := gas - amount;
      ok := true;
    }

    /** The sender pays for all the gas of the message, and the block's pool gives it. */
    method BuyGas() returns (err: Option<TxError>)
      requires gas == 0
      modifies this, gp, state`balances
      ensures err == if BalanceOf(old(state.balances), msg.from) < msg.gas * msg.gasPrice then Some(InsufficientFunds)
                     else if old(gp.gas) < msg.gas then Some(GasLimitReached) else None
      ensures err == None ==> gas == initialGas == msg.gas && gp.gas == old(gp.gas) - msg.gas &&
                              state.balances == Pay(old(state.balances), msg.from, -(msg.gas * msg.gasPrice))
      ensures err != None ==> gas == 0 && gp.gas == old(gp.gas) && state.balances == old(state.balances)
    {
      var mgval := msg.gas * msg.gasPrice;
      if BalanceOf(state.balances, msg.from) < mgval {
        return Some(InsufficientFunds);
      }
      var ok := gp.SubGas(msg.gas);
      if !ok {
        return Some(GasLimitReached);
      }
      gas := gas + msg.gas;
      initialGas := msg.gas;
      state.balances := Pay(state.balances, msg.from, -mgval);
      err := None;
    }

    /** The gas used so far. */
    function GasUsed(): int
      reads this
    {
      initialGas - gas
    }

    /** Gives back the gas that is left and at most half of what was used; the pool takes it back. */
    method RefundGas(refundCounter: nat)
      requires gas <= initialGas < TWO_64 && gp.gas + initialGas < TWO_64
      modifies this`gas, gp, state`balances
      ensures var used := initialGas - old(gas);
              var refund := if used / 2 > refundCounter then refundCounter else used / 2;
              && gas == old(gas) + refund <= initialGas && gp.gas == old(gp.gas) + gas
              && state.balances == Pay(old(state.balances), msg.from, gas * msg.gasPrice)
    {
      var refund := GasUsed() / 2;
      if refund > refundCounter {
        refund := refundCounter;
      }
      gas := gas + refund;
      state.balances := Pay(state.balances, msg.from, gas * msg.gasPrice);
      gp.AddGas(gas);
    }

    method PreCheck() returns (err: Option<TxError>)
      requires gas == 0
      modifies this, gp, state`balances
      ensures err == PreError(msg, old(state.balances), state.NonceOf(msg.from), old(gp.gas))
      ensures err == None ==> gas == initialGas == msg.gas && gp.gas == old(gp.gas) - msg.gas &&
                              state.balances == Pay(old(state.balances), msg.from, -(msg.gas * msg.gasPrice))
      ensures err != None ==> gas == 0 && gp.gas == old(gp.gas) && state.balances == old(state.balances)
    {
      if msg.checkNonce {
        if state.NonceOf(msg.from) < msg.nonce {
          return Some(NonceTooHigh);
        } else if state.NonceOf(msg.from) > msg.nonce {
          return Some(NonceTooLow);
        }
      }
      err := BuyGas();
    }

    /** Runs the code with the gas that is there, then refunds and pays the coinbase. */
    method Execute(run: Machine) returns (used: nat, failed: bool, err: Option<TxError>, ghost ran: Outcome)
      requires Honest(run) && gas <= initialGas == msg.gas && gp.gas + initialGas < TWO_64
      modifies this, gp, state
      ensures ran == run(msg, old(state.balances), Counted(msg, old(state.nonces)), old(gas))
      ensures err == if ran.tooPoor then Some(InsufficientBalance) else None
      ensures err == None ==>
                && failed == ran.failed && state.nonces == ran.nonces
                && used == RefundedUse(msg.gas - ran.left, ran.refund) <= msg.gas
                && gp.gas == old(gp.gas) + (msg.gas - used)
                && state.balances ==
                     Pay(Pay(ran.balances, msg.from, (msg.gas - used) * msg.gasPrice), coinbase, used * msg.gasPrice)
      ensures err != None ==> gp.gas == old(gp.gas)
    {
      used, failed := 0, false;
      if !msg.create {
        state.nonces := state.nonces[msg.from := Next(state.NonceOf(msg.from))];
      }
      var outcome := run(msg, state.balances, state.nonces, gas);
      ran := outcome;
      HonestAt(run, msg, state.balances, state.nonces, gas);
      state.balances, state.nonces, gas := outcome.balances, outcome.nonces, outcome.left;
      if outcome.tooPoor {
        err := Some(InsufficientBalance);
        return;
      }
      RefundGas(outcome.refund);
      used, failed, err := GasUsed(), outcome.failed, None;
      state.balances := Pay(state.balances, coinbase, used * msg.gasPrice);
    }

    /** Applies the message. A call has counted the sender's nonce when the machine starts, a creation
        has not. On success the pool has given exactly the gas used, and beyond what the machine did,
        every balance changed by exactly the fee: what the sender pays, the coinbase gets. At most half
        of the gas used before the refund is refunded. */
    method TransitionDb(run: Machine)
      returns (used: nat, failed: bool, err: Option<TxError>, ghost before: Balances, ghost seen: Nonces,
               ghost ran: Outcome)
      requires Honest(run) && gas == 0 && gp.gas < TWO_64
      modifies this, gp, state
      ensures before == Pay(old(state.balances), msg.from, -(msg.gas * msg.gasPrice))
      ensures forall a :: BalanceOf(before, a) ==
                BalanceOf(old(state.balances), a) - if a == msg.from then msg.gas * msg.gasPrice else 0
      ensures seen == Counted(msg, old(state.nonces)) && (msg.create ==> seen == old(state.nonces))
      ensures forall a :: a != msg.from ==> NonceAt(seen, a) == NonceAt(old(state.nonces), a)
      ensures !msg.create ==> var n := old(state.NonceOf(msg.from));
                NonceAt(seen, msg.from) == if n < TWO_64 - 1 then n + 1 else 0
      ensures ExactGas(msg.data, msg.create, homestead) <= msg.gas ==>
                ran == run(msg, before, seen, msg.gas - ExactGas(msg.data, msg.create, homestead))
      ensures err == var pre := PreError(msg, old(state.balances), old(state.NonceOf(msg.from)), old(gp.gas));
                     if pre != None then pre
                     else if ExactGas(msg.data, msg.create, homestead) > msg.gas then Some(OutOfGas)
                     else if ran.tooPoor then Some(InsufficientBalance) else None
      ensures err == Some(NonceTooHigh) <==> msg.checkNonce && old(state.NonceOf(msg.from)) < msg.nonce
      ensures err == Some(NonceTooLow) <==> msg.checkNonce && old(state.NonceOf(msg.from)) > msg.nonce
      ensures err == None ==> BalanceOf(old(state.balances), msg.from) >= msg.gas * msg.gasPrice
      ensures err == Some(InsufficientFunds) ==> BalanceOf(old(state.balances), msg.from) < msg.gas * msg.gasPrice
      ensures err == None ==> old(gp.gas) >= msg.gas
      ensures err == Some(GasLimitReached) ==> old(gp.gas) < msg.gas
      ensures err == None ==>
                && failed == ran.failed && state.nonces == ran.nonces
                && used == RefundedUse(msg.gas - ran.left, ran.refund) <= msg.gas
                && gp.gas == old(gp.gas) - used
                && state.balances ==
                     Pay(Pay(ran.balances, msg.from, (msg.gas - used) * msg.gasPrice), coinbase, used * msg.gasPrice)
                && forall a :: BalanceOf(state.balances, a) - BalanceOf(old(state.balances), a) ==
                     BalanceOf(ran.balances, a) - BalanceOf(before, a) +
                         FeeOn(a, msg.from, coinbase, used * msg.gasPrice)
      ensures gp.gas <= old(gp.gas)
    {
      hide Honest, Pay, BalanceOf, FeeOn, ExactGas, PreError, RefundedUse, Counted, NonceAt;
      before, seen := Pay(state.balances, msg.from, -(msg.gas * msg.gasPrice)), Counted(msg, state.nonces);
      PayMeans(state.balances, msg.from, -(msg.gas * msg.gasPrice));
      CountedMeans(msg, state.nonces);
      PreErrorMeans(msg, state.balances, state.NonceOf(msg.from), gp.gas);
      ghost var exact := ExactGas(msg.data, msg.create, homestead);
      ran := Outcome(0, 0, map[], map[], false, false);
      if exact <= msg.gas {
        ran := run(msg, before, seen, msg.gas - exact);
      }
      used, failed := 0, false;
      err := PreCheck();
      if err != None {
        return;
      }
      var intrinsic := IntrinsicGas(msg.data, msg.create, homestead);
      if intrinsic == None {
        err := Some(OutOfGas);
        return;
      }
      var ok := UseGas(intrinsic.value);
      if !ok {
        err := Some(OutOfGas);
        return;
      }
      used, failed, err, ran := Execute(run);
      if err == None {
        FeesBalance(old(state.balances), before, ran.balances,
                    Pay(ran.balances, msg.from, (msg.gas - used) * msg.gasPrice),
                    state.balances, msg, coinbase, msg.gas - used, used);
      }
    }
  }

  lemma PayMeans(b: Balances, from: Address, amount: int)
    ensures forall a :: BalanceOf(Pay(b, from, amount), a) == BalanceOf(b, a) + if a == from then amount else 0
  {
  }

  /** The nonces that the machine sees: a call has counted already, a creation counts itself. */
  function Counted(msg: Message, n: Nonces): Nonces {
    if msg.create then n else n[msg.from := Next(NonceAt(n, msg.from))]
  }

  /** A call makes the nonce of its sender one higher, or 0 after the last, and leaves all others. */
  lemma CountedMeans(msg: Message, n: Nonces)
    ensures msg.create ==> Counted(msg, n) == n
    ensures forall a :: a != msg.from ==> NonceAt(Counted(msg, n), a) == NonceAt(n, a)
    ensures !msg.create ==> var was := NonceAt(n, msg.from);
              NonceAt(Counted(msg, n), msg.from) == if was < TWO_64 - 1 then was + 1 else 0
  {
  }

  /** A message is let through exactly if its nonce, when that is checked, is the one of the sender,
      and the sender and the pool can afford its gas. */
  lemma PreErrorMeans(msg: Message, balances: Balances, nonce: Uint64, pool: nat)
    ensures PreError(msg, balances, nonce, pool) == None <==>
              && (msg.checkNonce ==> nonce == msg.nonce)
              && BalanceOf(balances, msg.from) >= msg.gas * msg.gasPrice && pool >= msg.gas
    ensures var e := PreError(msg, balances, nonce, pool);
            && (e == Some(NonceTooHigh) <==> msg.checkNonce && nonce < msg.nonce)
            && (e == Some(NonceTooLow) <==> msg.checkNonce && nonce > msg.nonce)
            && (e == Some(InsufficientFunds) ==> BalanceOf(balances, msg.from) < msg.gas * msg.gasPrice)
            && (e == Some(GasLimitReached) ==> pool < msg.gas) && e != Some(OutOfGas) && e != Some(InsufficientBalance)
  {
  }

  /** The gas used after the refund. */
  function RefundedUse(used: int, counter: nat): int {
    used - if used / 2 > counter then counter else used / 2
  }

  lemma FeesBalance(b0: Balances, b1: Balances, b2: Balances, b3: Balances, b4: Balances, msg: Message,
                    coinbase: Address, left: nat, used: nat)
    requires b1 == Pay(b0, msg.from, -(msg.gas * msg.gasPrice)) && b3 == Pay(b2, msg.from, left * msg.gasPrice)
    requires b4 == Pay(b3, coinbase, used * msg.gasPrice) && used + left == msg.gas
    ensures forall a :: BalanceOf(b4, a) - BalanceOf(b0, a) ==
              BalanceOf(b2, a) - BalanceOf(b1, a) + FeeOn(a, msg.from, coinbase, used * msg.gasPrice)
  {
    assert msg.gas * msg.gasPrice == used * msg.gasPrice + left * msg.gasPrice;
  }
}
