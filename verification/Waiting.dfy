/** What the pool promises about the transactions it holds: every one of them can be paid for at a nonce
    that is not used up, and none that could be executed next is left waiting (kernel/tx_pool.go). */
module Waiting {
  import opened Wrappers
  import opened Transactions
  import opened TxLists
  import opened PoolSpec
  import opened Truncation
  import opened Settling

  /** The transaction is not below the nonce of its sender, who can pay for it, and fits a block. */
  ghost predicate CanPay(t: Tx, state: ChainState) {
    state.nonce(t.from) <= t.nonce && t.Cost() <= state.balance(t.from) && t.gas <= state.maxGas
  }

  /** Every transaction can be paid for in the chain state. */
  ghost predicate Affordable(all: set<Tx>, state: ChainState) {
    forall t :: t in all ==> CanPay(t, state)
  }

  /** The queued transactions of an account are above its pending nonce. */
  ghost predicate AllAbove(q: Items, pendingNonce: nat) {
    forall n :: n in q ==> n > pendingNonce
  }

  /** Outside `but`, no account has a queued transaction at its pending nonce or below. */
  ghost predicate CaughtUpBut(q: Table, nonces: map<Address, nat>, state: Address -> Uint64, but: set<Address>) {
    forall a {:trigger AllAbove(Get(q, a), NonceOf(nonces, state, a))} ::
      a !in but ==> AllAbove(Get(q, a), NonceOf(nonces, state, a))
  }

  // ----- What promotion does to an account

  /** The list that promotion works on, and where its ready run ends. */
  ghost function ListOf(q: Table, state: ChainState, a: Address): Items {
    Payable(Get(q, a), state.nonce(a), state.balance(a), state.maxGas)
  }

  ghost function EndOf(q: Table, nonces: map<Address, nat>, state: ChainState, a: Address): nat {
    ReadyEnd(ListOf(q, state, a), NonceOf(nonces, state.nonce, a))
  }

  lemma PromotedParts(p: Table, q: Table, nonces: map<Address, nat>, p': Table, q': Table,
                      nonces': map<Address, nat>, state: ChainState, locals: set<Address>, cap: nat, a: Address)
    requires PromotedAt(p, q, nonces, p', q', nonces', state, locals, cap, a)
    ensures var list, end := ListOf(q, state, a), EndOf(q, nonces, state, a);
            && Get(p', a) == Get(p, a) + Below(list, end)
            && Get(q', a) == (if a in locals then From(list, end) else Lowest(From(list, end), cap))
            && NonceOf(nonces', state.nonce, a) ==
                 (if Below(list, end) == map[] then NonceOf(nonces, state.nonce, a) else Next(end - 1))
  {
    hide Payable, ReadyEnd, Below, From, Lowest, Next, NonceOf, Get;
  }

  /** After its promotion an account has caught up: what stays queued is above its pending nonce. A
      remote account keeps no more than the cap. */
  lemma PromotionCatchesUp(p: Table, q: Table, nonces: map<Address, nat>, p': Table, q': Table,
                           nonces': map<Address, nat>, state: ChainState, locals: set<Address>, cap: nat, a: Address)
    requires PromotedAt(p, q, nonces, p', q', nonces', state, locals, cap, a)
    ensures AllAbove(Get(q', a), NonceOf(nonces', state.nonce, a)) && (a !in locals ==> |Get(q', a)| <= cap)
  {
    PromotedParts(p, q, nonces, p', q', nonces', state, locals, cap, a);
    hide PromotedAt, ListOf, Lowest, Get, NonceOf, Next, ReadyEnd;
    ReadyLeaves(ListOf(q, state, a), NonceOf(nonces, state.nonce, a));
    LowestIsPart(From(ListOf(q, state, a), EndOf(q, nonces, state, a)), cap);
  }

  /** What is promoted or stays queued can be paid for. */
  lemma PromotionTidies(p: Table, q: Table, nonces: map<Address, nat>, p': Table, q': Table,
                        nonces': map<Address, nat>, state: ChainState, locals: set<Address>, cap: nat, a: Address)
    requires PromotedAt(p, q, nonces, p', q', nonces', state, locals, cap, a) && Filed(Get(q, a), a)
    ensures forall n :: n in Get(q', a) ==> Holds(Get(q, a), Get(q', a)[n]) && CanPay(Get(q', a)[n], state)
    ensures forall n :: n in Get(p', a) ==>
              || (n in Get(p, a) && Get(p', a)[n] == Get(p, a)[n])
              || (Holds(Get(q, a), Get(p', a)[n]) && CanPay(Get(p', a)[n], state))
  {
    PromotedParts(p, q, nonces, p', q', nonces', state, locals, cap, a);
    PayableIs(Get(q, a), a, state);
    hide PromotedAt, Payable, Lowest, EndOf, NonceOf, Get, CanPay;
    LowestIsPart(From(ListOf(q, state, a), EndOf(q, nonces, state, a)), cap);
  }

  /** What leaves the pool in a promotion cannot be paid for, or is above everything that fits under the
      cap of a remote account. */
  lemma PromotionDrops(p: Table, q: Table, nonces: map<Address, nat>, p': Table, q': Table,
                       nonces': map<Address, nat>, state: ChainState, locals: set<Address>, cap: nat, a: Address,
                       n: nat)
    requires PromotedAt(p, q, nonces, p', q', nonces', state, locals, cap, a) && Filed(Get(q, a), a)
    requires n in Get(q, a) && n !in Get(q', a) && n !in Get(p', a)
    ensures || !CanPay(Get(q, a)[n], state)
            || (a !in locals && |Get(q', a)| == cap && forall k :: k in Get(q', a) ==> k < n)
  {
    PromotedParts(p, q, nonces, p', q', nonces', state, locals, cap, a);
    PayableIs(Get(q, a), a, state);
    hide PromotedAt, Payable, Lowest, EndOf, NonceOf, Get, CanPay;
    var rest := From(ListOf(q, state, a), EndOf(q, nonces, state, a));
    LowestIsPart(rest, cap);
    LowestIsClosed(rest, cap);
    if n in ListOf(q, state, a) {
      assert n !in Below(ListOf(q, state, a), EndOf(q, nonces, state, a));
      assert n in rest;
    }
  }

  lemma PayableIs(q: Items, a: Address, state: ChainState)
    requires Filed(q, a)
    ensures var list := Payable(q, state.nonce(a), state.balance(a), state.maxGas);
            && (forall n :: n in list ==> n in q && list[n] == q[n])
            && forall n :: n in q ==> (n in list <==> CanPay(q[n], state))
  {
  }

  /** Behind the ready run nothing is at the nonce that follows it. */
  lemma ReadyLeaves(list: Items, pn: nat)
    ensures var end := ReadyEnd(list, pn);
            if Below(list, end) == map[] then forall n :: n in From(list, end) ==> n > pn
            else end > 0 && Next(end - 1) <= end && forall n :: n in From(list, end) ==> n > end
  {
    var end := ReadyEnd(list, pn);
    if list != map[] && Least(list) <= pn {
      assert end == RunEnd(list, Least(list)) && end > Least(list);
      assert Least(list) in Below(list, end);
    }
  }

  lemma PromotesCatchUp(p: Table, q: Table, nonces: map<Address, nat>, p': Table, q': Table,
                        nonces': map<Address, nat>, state: ChainState, locals: set<Address>, cap: nat,
                        accounts: set<Address>, but: set<Address>)
    requires Promotes(p, q, nonces, p', q', nonces', state, locals, cap, accounts)
    requires CaughtUpBut(q, nonces, state.nonce, but)
    ensures CaughtUpBut(q', nonces', state.nonce, but - accounts)
  {
    hide PromotedAt, AllAbove, NonceOf, Get;
    forall a | a !in but - accounts ensures AllAbove(Get(q', a), NonceOf(nonces', state.nonce, a)) {
      if a in accounts {
        assert PromotedAt(p, q, nonces, p', q', nonces', state, locals, cap, a);
        PromotionCatchesUp(p, q, nonces, p', q', nonces', state, locals, cap, a);
      } else {
        assert SameAt(p, q, nonces, p', q', nonces', state, a);
        assert AllAbove(Get(q, a), NonceOf(nonces, state.nonce, a));
      }
    }
  }

  lemma FiledAt(p: Table, q: Table, all: set<Tx>, a: Address)
    requires Agree(p, q, all)
    ensures Filed(Get(p, a), a) && Filed(Get(q, a), a)
  {
    assert AgreeAt(Get(p, a), Get(q, a), all, a);
  }

  /** Fewer queued transactions and lower pending nonces leave nobody behind. */
  lemma StaysCaughtUp(q: Table, q': Table, nonces: map<Address, nat>, nonces': map<Address, nat>,
                      state: Address -> Uint64, but: set<Address>)
    requires CaughtUpBut(q, nonces, state, but) && forall a :: Get(q', a).Keys <= Get(q, a).Keys
    requires forall a :: NonceOf(nonces', state, a) <= NonceOf(nonces, state, a)
    ensures CaughtUpBut(q', nonces', state, but)
  {
    forall a | a !in but ensures AllAbove(Get(q', a), NonceOf(nonces', state, a)) {
      assert AllAbove(Get(q, a), NonceOf(nonces, state, a));
      assert Get(q', a).Keys <= Get(q, a).Keys;
    }
  }

  lemma LessQueued(q: Table, q': Table)
    requires q'.Keys <= q.Keys && forall a :: a in q' ==> q'[a] == q[a]
    ensures forall a :: Get(q', a).Keys <= Get(q, a).Keys
  {
  }

  lemma NoncesLower(p: Table, p': Table, nonces: map<Address, nat>, nonces': map<Address, nat>,
                    state: Address -> Uint64)
    requires NoncesFall(p, p', nonces, nonces', state)
    ensures forall a :: NonceOf(nonces', state, a) <= NonceOf(nonces, state, a)
  {
    forall a ensures NonceOf(nonces', state, a) <= NonceOf(nonces, state, a) {
      assert FallsTo(Get(p, a), Get(p', a), NonceOf(nonces, state, a), NonceOf(nonces', state, a));
    }
  }

  /** After promotion and truncation the promoted accounts have caught up, and no other falls behind. */
  lemma SettledCatchUp(before: Snapshot, mid: Snapshot, after: Snapshot, config: Config, state: ChainState,
                       locals: set<Address>, accounts: set<Address>, level: nat, now: int, but: set<Address>)
    requires Settled(before, mid, after, config, state, locals, accounts, level, now)
    requires CaughtUpBut(before.queue, before.nonces, state.nonce, but)
    ensures CaughtUpBut(after.queue, after.nonces, state.nonce, but - accounts)
  {
    hide *;
    SettledMeans(before, mid, after, config, state, locals, accounts, level, now);
    PromotesCatchUp(before.pending, before.queue, before.nonces, mid.pending, mid.queue, mid.nonces, state, locals,
                    config.accountQueue, accounts, but);
    NoncesLower(mid.pending, after.pending, mid.nonces, after.nonces, state.nonce);
    StaysCaughtUp(mid.queue, after.queue, mid.nonces, after.nonces, state.nonce, but - accounts);
  }

  // ----- Removing and filing

  /** A removal takes back what is pending above it, and the pending nonce with it. */
  lemma RemovedCaughtUp(p: Table, q: Table, all: set<Tx>, p': Table, q': Table, tx: Tx, nonces: map<Address, nat>,
                        nonces': map<Address, nat>, state: Address -> Uint64, but: set<Address>)
    requires Removed(p, q, all, p', q', tx) && NoncesFall(p, p', nonces, nonces', state)
    requires CaughtUpBut(q, nonces, state, but)
    ensures CaughtUpBut(q', nonces', state, but)
  {
    var a := tx.from;
    NoncesLower(p, p', nonces, nonces', state);
    if tx in all && Holds(Get(p, a), tx) {
      StoreGet(p, a, Below(Get(p, a), tx.nonce));
      StoreGet(q, a, Get(q, a) + From(Get(p, a), tx.nonce + 1));
      assert FallsTo(Get(p, a), Get(p', a), NonceOf(nonces, state, a), NonceOf(nonces', state, a));
      assert tx.nonce in Get(p, a) && tx.nonce !in Get(p', a);
    } else if tx in all {
      StoreGet(q, a, Get(q, a) - {tx.nonce});
    }
    forall b | b !in but ensures AllAbove(Get(q', b), NonceOf(nonces', state, b)) {
      assert AllAbove(Get(q, b), NonceOf(nonces, state, b));
    }
  }

  /** Only the sender of a transaction with a new nonce may fall behind. */
  lemma FiledCaughtUp(p: Table, q: Table, all: set<Tx>, p': Table, q': Table, all': set<Tx>, tx: Tx, priceBump: nat,
                      replaced: bool, err: Option<TxError>, nonces: map<Address, nat>, state: Address -> Uint64,
                      but: set<Address>)
    requires Files(p, q, all, p', q', all', tx, priceBump, replaced, err) && CaughtUpBut(q, nonces, state, but)
    ensures CaughtUpBut(q', nonces, state, if err == None && !replaced then but + {tx.from} else but)
  {
    hide Replaces;
    forall a | a !in (if err == None && !replaced then but + {tx.from} else but)
      ensures AllAbove(Get(q', a), NonceOf(nonces, state, a))
    {
      assert AllAbove(Get(q, a), NonceOf(nonces, state, a));
      assert Get(q', a).Keys == Get(q, a).Keys;
    }
  }

  // ----- Moving to a chain state

  lemma EverybodyBehind(q: Table, nonces: map<Address, nat>, state: Address -> Uint64)
    ensures CaughtUpBut(q, nonces, state, q.Keys)
  {
  }

  lemma AffordableLess(all: set<Tx>, all': set<Tx>, state: ChainState)
    requires Affordable(all, state) && all' <= all
    ensures Affordable(all', state)
  {
  }

  lemma AffordableMore(all: set<Tx>, tx: Tx, local: bool, gasPrice: nat, state: ChainState, homestead: bool)
    requires Affordable(all, state) && Objection(tx, local, gasPrice, state, homestead) == None
    ensures Affordable(all + {tx}, state)
  {
    UnobjectedIsExecutable(tx, local, gasPrice, state, homestead);
  }

  /** What demotion leaves pending can be paid for. */
  lemma DemotionTidies(p: Table, q: Table, p': Table, q': Table, state: ChainState, all: set<Tx>, a: Address)
    requires Demotes(p, q, p', q', state, {}) && Agree(p, q, all)
    ensures forall n :: n in Get(p', a) ==> CanPay(Get(p', a)[n], state)
  {
    hide Agree;
    assert DemotedAt(p, q, p', q', state, a);
    FiledAt(p, q, all, a);
    StillPayable(Get(p, a), a, state);
  }

  lemma StillPayable(p: Items, a: Address, state: ChainState)
    requires Filed(p, a)
    ensures var stay := StillPending(p, state.nonce(a), TooDear(state.balance(a), state.maxGas));
            forall n :: n in stay ==> CanPay(stay[n], state)
  {
    var dear := TooDear(state.balance(a), state.maxGas);
    var list := From(p, state.nonce(a));
    var kept := Kept(list, true, dear);
    forall n | n in kept ensures !dear(kept[n]) && kept[n] == p[n] && state.nonce(a) <= n {
      assert n in list && (dear(list[n]) ==> n in Where(list, dear));
    }
  }

  /** After an adjustment and the promotion of every account, everything can be paid for. */
  lemma MovedAffordable(p: Table, q: Table, was: set<Tx>, adjusted: Snapshot, held: set<Tx>, mid: Snapshot,
                        after: Snapshot, config: Config, state: ChainState, locals: set<Address>, level: nat, now: int,
                        all: set<Tx>)
    requires Demotes(p, q, adjusted.pending, adjusted.queue, state, {}) && Agree(p, q, was)
    requires Agree(adjusted.pending, adjusted.queue, held)
    requires Settled(adjusted, mid, after, config, state, locals, adjusted.queue.Keys, level, now)
    requires Agree(after.pending, after.queue, all)
    ensures Affordable(all, state)
  {
    forall t | t in all ensures CanPay(t, state) {
      hide *;
      DemotionTidies(p, q, adjusted.pending, adjusted.queue, state, was, t.from);
      FiledAt(adjusted.pending, adjusted.queue, held, t.from);
      MovedPayable(adjusted, mid, after, config, state, locals, level, now, all, t);
    }
  }

  lemma MovedPayable(adjusted: Snapshot, mid: Snapshot, after: Snapshot, config: Config, state: ChainState,
                     locals: set<Address>, level: nat, now: int, all: set<Tx>, t: Tx)
    requires forall n :: n in Get(adjusted.pending, t.from) ==> CanPay(Get(adjusted.pending, t.from)[n], state)
    requires Filed(Get(adjusted.queue, t.from), t.from)
    requires Settled(adjusted, mid, after, config, state, locals, adjusted.queue.Keys, level, now)
    requires Agree(after.pending, after.queue, all) && t in all
    ensures CanPay(t, state)
  {
    hide CanPay, Settled, Agree, Get;
    var a := t.from;
    HeldSomewhere(after.pending, after.queue, all, t);
    SettledKeeps(adjusted, mid, after, config, state, locals, adjusted.queue.Keys, level, now, a);
    if a in adjusted.queue {
      PromotedWithin(adjusted, mid, after, config, state, locals, adjusted.queue.Keys, level, now, a);
      PromotionTidies(adjusted.pending, adjusted.queue, adjusted.nonces, mid.pending, mid.queue, mid.nonces, state,
                      locals, config.accountQueue, a);
    } else {
      UntouchedWithin(adjusted, mid, after, config, state, locals, adjusted.queue.Keys, level, now, a);
    }
  }

  lemma HeldSomewhere(p: Table, q: Table, all: set<Tx>, t: Tx)
    requires Agree(p, q, all) && t in all
    ensures Holds(Get(p, t.from), t) || Holds(Get(q, t.from), t)
  {
    assert AgreeAt(Get(p, t.from), Get(q, t.from), all, t.from);
  }

  /** Truncation takes nothing in. */
  lemma SettledKeeps(before: Snapshot, mid: Snapshot, after: Snapshot, config: Config, state: ChainState,
                     locals: set<Address>, accounts: set<Address>, level: nat, now: int, a: Address)
    requires Settled(before, mid, after, config, state, locals, accounts, level, now)
    ensures Part(Get(after.pending, a), Get(mid.pending, a)) && Part(Get(after.queue, a), Get(mid.queue, a))
  {
    hide Promotes, NoncesFall, Total, Lowest, Beaten;
    LowestIsPart(Get(mid.pending, a), level);
    LowestIsPart(Get(mid.queue, a), |Get(after.queue, a)|);
  }

  lemma PromotedWithin(before: Snapshot, mid: Snapshot, after: Snapshot, config: Config, state: ChainState,
                       locals: set<Address>, accounts: set<Address>, level: nat, now: int, a: Address)
    requires Settled(before, mid, after, config, state, locals, accounts, level, now) && a in accounts
    ensures PromotedAt(before.pending, before.queue, before.nonces, mid.pending, mid.queue, mid.nonces, state, locals,
                       config.accountQueue, a)
  {
    hide WaterFilled, NoncesFall, QueueTruncated, Beaten, PromotedAt;
    assert PromotedAt(before.pending, before.queue, before.nonces, mid.pending, mid.queue, mid.nonces, state, locals,
                      config.accountQueue, a);
  }

  lemma UntouchedWithin(before: Snapshot, mid: Snapshot, after: Snapshot, config: Config, state: ChainState,
                        locals: set<Address>, accounts: set<Address>, level: nat, now: int, a: Address)
    requires Settled(before, mid, after, config, state, locals, accounts, level, now) && a !in accounts
    ensures Get(mid.pending, a) == Get(before.pending, a) && Get(mid.queue, a) == Get(before.queue, a)
    ensures a !in before.queue ==> Get(mid.queue, a) == map[]
  {
    hide WaterFilled, NoncesFall, QueueTruncated, Beaten, PromotedAt;
    assert SameAt(before.pending, before.queue, before.nonces, mid.pending, mid.queue, mid.nonces, state, a);
  }
}
