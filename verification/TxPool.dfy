/** The transaction pool (kernel/tx_pool.go). The list operations of the pool are those that
    TxList is proved to perform; the pool keeps what the lists hold. */
module TxPools {
  import opened Wrappers
  import opened Transactions
  import opened SortedMap
  import opened TxLists
  import opened PricedLists
  import opened PoolSpec
  import opened Truncation
  import opened Settling
  import opened Waiting
  import opened Intrinsic
  import Heap

  class TxPool {
    const config: Config
    const all: TxLookup
    const priced: TxPricedList

    var gasPrice: nat
    var state: ChainState
    var pendingNonces: map<Address, nat>
    var locals: set<Address>
    var homestead: bool
    var pending: Table
    var queue: Table
    var beats: map<Address, int>

    /** The price heap is in order and every pooled transaction outside ex has an entry in it. */
    ghost predicate Priced(ex: set<Tx>)
      reads this, all, priced
    {
      priced.Valid() && priced.lookup == all && Covers(priced.items, all.all - ex)
    }

    /** A transaction may be forgotten at any time. */
    method Forget(tx: Tx, ghost ex: set<Tx>)
      requires Priced(ex)
      modifies all
      ensures Priced(ex) && all.all == old(all.all) - {tx}
    {
      all.all := all.all - {tx};
    }

    /** The nonce the pending state reports. */
    function PendingNonce(a: Address): nat
      reads this
    {
      NonceOf(pendingNonces, state.nonce, a)
    }

    constructor (config: Config, priceLimit: nat, state: ChainState, locals: set<Address>)
      ensures Valid() && Contiguous() && fresh(all) && fresh(priced)
      ensures this.config == config && gasPrice == priceLimit && this.locals == locals && this.state == state
      ensures pending == map[] && queue == map[] && all.all == {} && pendingNonces == map[] && !homestead
    {
      this.config, gasPrice, this.state, this.locals := config, priceLimit, state, locals;
      pendingNonces, pending, queue, beats, homestead := map[], map[], map[], map[], false;
      var lookup := new TxLookup();
      all := lookup;
      priced := new TxPricedList(lookup);
    }

    /** Forgets a transaction that has left its list. */
    method DropTx(tx: Tx, ghost ex: set<Tx>)
      requires Priced(ex)
      modifies all, priced
      ensures Priced(ex) && all.all == old(all.all) - {tx}
    {
      all.all := all.all - {tx};
      priced.Removed();
    }

    method DropTxs(txs: seq<Tx>, ghost ex: set<Tx>)
      requires Priced(ex)
      modifies all, priced
      ensures Priced(ex) && all.all == old(all.all) - Elems(txs)
    {
      var i := 0;
      ghost var gone := {};
      while i < |txs|
        invariant 0 <= i <= |txs| && gone == Elems(txs[..i])
        invariant Priced(ex) && all.all == old(all.all) - gone
      {
        PrefixElems(txs, i);
        DropTx(txs[i], ex);
        gone := gone + {txs[i]};
        i := i + 1;
      }
      assert txs[..i] == txs;
    }

    /** Makes a transaction known, with an entry in the price heap, if it is new. */
    method PoolTx(tx: Tx, ghost ex: set<Tx>)
      requires Priced(ex)
      modifies all, priced
      ensures Priced(ex) && all.all == old(all.all) + {tx}
    {
      if tx !in all.all {
        all.all := all.all + {tx};
        priced.Put(tx);
      }
    }

    /** Files a transaction in the queue, unless it may not replace the one queued there. */
    method EnqueueTx(tx: Tx, ghost ex: set<Tx>) returns (replaced: bool, err: bool)
      requires Priced(ex)
      modifies this`queue, all, priced
      ensures Priced(ex)
      ensures var q := Get(old(queue), tx.from);
              && err == (tx.nonce in q && !Replaces(tx, q[tx.nonce], config.priceBump))
              && replaced == (!err && tx.nonce in q)
              && queue == (if err then old(queue) else old(queue)[tx.from := Plus(q, tx)])
              && all.all == (if err then old(all.all)
                             else if replaced then old(all.all) - {q[tx.nonce]} + {tx}
                             else old(all.all) + {tx})
    {
      var q := Get(queue, tx.from);
      replaced := tx.nonce in q;
      if replaced && !Replaces(tx, q[tx.nonce], config.priceBump) {
        return false, true;
      }
      queue := queue[tx.from := Plus(q, tx)];
      if replaced {
        all.all := all.all - {q[tx.nonce]};
        priced.Removed();
      }
      PoolTx(tx, ex);
      err := false;
    }

    /** Files a transaction in the pending list, unless it may not replace the one there; then
        the transaction is forgotten. */
    method PromoteTx(a: Address, tx: Tx, now: int, ghost ex: set<Tx>) returns (ok: bool)
      requires Priced(ex)
      modifies this`pending, this`beats, this`pendingNonces, all, priced
      ensures Priced(ex)
      ensures var p := Get(old(pending), a);
              && ok == (tx.nonce in p ==> Replaces(tx, p[tx.nonce], config.priceBump))
              && pending == (if ok then old(pending)[a := Plus(p, tx)] else old(pending))
              && all.all == (if !ok then old(all.all) - {tx}
                             else if tx.nonce in p then old(all.all) - {p[tx.nonce]} + {tx}
                             else old(all.all) + {tx})
      ensures beats == if ok then old(beats)[a := now] else old(beats)
      ensures pendingNonces == if ok then old(pendingNonces)[a := Next(tx.nonce)] else old(pendingNonces)
    {
      hide Covers, TxPricedList.Valid, Replaces, Get;
      var p := Get(pending, a);
      ok := true;
      if tx.nonce in p {
        if !Replaces(tx, p[tx.nonce], config.priceBump) {
          DropTx(tx, ex);
          return false;
        }
        DropTx(p[tx.nonce], ex);
      }
      pending := pending[a := Plus(p, tx)];
      PoolTx(tx, ex);
      beats := beats[a := now];
      pendingNonces := pendingNonces[a := Next(tx.nonce)];
    }

    /** A pooled transaction whose nonce is not pending yet is never refused. */
    method PromoteFresh(a: Address, tx: Tx, now: int)
      requires Priced({}) && tx in all.all && tx.nonce !in Get(pending, a)
      modifies this`pending, this`beats, this`pendingNonces, all, priced
      ensures Priced({}) && all.all == old(all.all)
      ensures pending == old(pending)[a := Plus(Get(old(pending), a), tx)]
      ensures beats == old(beats)[a := now] && pendingNonces == old(pendingNonces)[a := Next(tx.nonce)]
    {
      var ok := PromoteTx(a, tx, now, {});
    }

    /** Promotes a listed set of pooled transactions whose nonces are not pending yet: none of
        them is ever refused. `end` is the nonce after the last of them. */
    method PromoteAll(a: Address, ready: seq<Tx>, now: int, ghost m: Items, ghost end: nat)
      requires Priced({}) && Keyed(m) && Lists(ready, m) && m.Values <= all.all
      requires m.Keys !! Get(pending, a).Keys
      requires m != map[] ==> end > 0 && end - 1 in m && forall n :: n in m ==> n < end
      modifies this`pending, this`beats, this`pendingNonces, all, priced
      ensures Priced({}) && all.all == old(all.all)
      ensures pending == if m == map[] then old(pending) else old(pending)[a := Get(old(pending), a) + m]
      ensures pendingNonces == if m == map[] then old(pendingNonces) else old(pendingNonces)[a := Next(end - 1)]
      ensures beats == if m == map[] then old(beats) else old(beats)[a := now]
    {
      hide *;
      ListingFiles(ready, m);
      ghost var done: Items, next := map[], 0;
      PromotedNone(pending, pendingNonces, beats, a, now);
      var i := 0;
      while i < |ready|
        invariant 0 <= i <= |ready| && Priced({}) && all.all == old(all.all)
        invariant Filing(ready, i, m, done) && Get(pending, a) == Get(old(pending), a) + done
        invariant next == if i == 0 then 0 else Next(ready[i - 1].nonce)
        invariant Promoted(old(pending), old(pendingNonces), old(beats), pending, pendingNonces, beats, a, done, next,
                           now)
      {
        FilingStep(ready, i, m, done);
        PromotedOne(old(pending), old(pendingNonces), old(beats), pending, pendingNonces, beats, a, done, next, now,
                    ready[i]);
        PromoteFresh(a, ready[i], now);
        done, next := Plus(done, ready[i]), Next(ready[i].nonce);
        i := i + 1;
      }
      FilingDone(ready, m, done);
      ListingEnds(ready, m, end);
      PromotedMeans(old(pending), old(pendingNonces), old(beats), pending, pendingNonces, beats, a, m, next, now);
    }

    /** The lookup, the lists and the price heap agree, apart from the entries of ex. */
    ghost predicate ValidBut(ex: set<Tx>)
      reads this, all, priced
    {
      Priced(ex) && Agree(pending, queue, all.all) && NoEmptyList(queue)
    }

    /** The pool invariant. */
    ghost predicate Valid()
      reads this, all, priced
    {
      ValidBut({})
    }

    lemma ValidMeans()
      requires Valid()
      ensures Priced({}) && Agree(pending, queue, all.all) && NoEmptyList(queue)
    {
    }

    /** The pending nonces are gap-free. */
    ghost predicate Contiguous()
      reads this
    {
      GapFree(pending, pendingNonces, state.nonce)
    }

    /** Outside `but`, no account has a queued transaction at its pending nonce or below. */
    ghost predicate CaughtUp(but: set<Address>)
      reads this
    {
      CaughtUpBut(queue, pendingNonces, state.nonce, but)
    }

    lemma CaughtUpIs(but: set<Address>)
      ensures CaughtUp(but) <==> CaughtUpBut(queue, pendingNonces, state.nonce, but)
    {
    }

    /** Every transaction in the pool can be paid for. */
    ghost predicate Solvent()
      reads this, all
    {
      Affordable(all.all, state)
    }

    lemma SolventIs()
      ensures Solvent() <==> Affordable(all.all, state)
    {
    }

    lemma ContiguousIs()
      ensures Contiguous() <==> GapFree(pending, pendingNonces, state.nonce)
    {
    }

    /** A pooled transaction whose nonce is not queued yet is never refused. */
    method EnqueueFresh(tx: Tx, ghost ex: set<Tx>)
      requires Priced(ex) && tx in all.all && tx.nonce !in Get(queue, tx.from)
      modifies this`queue, all, priced
      ensures Priced(ex) && all.all == old(all.all)
      ensures queue == old(queue)[tx.from := Plus(Get(old(queue), tx.from), tx)]
    {
      var replaced, err := EnqueueTx(tx, ex);
    }

    /** Queues a listed set of pooled transactions whose nonces are not queued yet. */
    method EnqueueAll(a: Address, txs: seq<Tx>, ghost m: Items, ghost ex: set<Tx>)
      requires Priced(ex) && Filed(m, a) && Distinct(txs) && Elems(txs) == m.Values && m.Values <= all.all
      requires m.Keys !! Get(queue, a).Keys && NoEmptyList(queue)
      modifies this`queue, all, priced
      ensures Priced(ex) && all.all == old(all.all) && NoEmptyList(queue)
      ensures queue == Store(old(queue), a, Get(old(queue), a) + m)
    {
      FilingBegins(txs, m);
      assert forall n :: n in m ==> m[n].from == a;
      ghost var done: Items := map[];
      StoreSame(queue, a);
      var i := 0;
      while i < |txs|
        invariant 0 <= i <= |txs| && Priced(ex) && all.all == old(all.all)
        invariant Filing(txs, i, m, done) && Get(queue, a) == Get(old(queue), a) + done
        invariant queue == Store(old(queue), a, Get(queue, a))
      {
        FilingStep(txs, i, m, done);
        StorePlus(old(queue), queue, a, done, txs[i]);
        EnqueueFresh(txs[i], ex);
        done := Plus(done, txs[i]);
        i := i + 1;
      }
      FilingDone(txs, m, done);
      StoreGet(old(queue), a, Get(queue, a));
    }

    /** Takes a transaction out of its pending list and queues everything above it again. */
    method Unlist(tx: Tx, ghost ex: set<Tx>)
      requires Priced(ex) && NoEmptyList(queue) && tx.nonce in Get(pending, tx.from)
      requires var above := From(Get(pending, tx.from), tx.nonce + 1);
               Filed(above, tx.from) && above.Values <= all.all && above.Keys !! Get(queue, tx.from).Keys
      modifies this`pending, this`queue, this`beats, this`pendingNonces, all, priced
      ensures Priced(ex) && all.all == old(all.all)
      ensures var p, q := Get(old(pending), tx.from), Get(old(queue), tx.from);
              && pending == Store(old(pending), tx.from, Below(p, tx.nonce))
              && queue == Store(old(queue), tx.from, q + From(p, tx.nonce + 1))
      ensures pendingNonces == if old(PendingNonce(tx.from)) > tx.nonce
                               then old(pendingNonces)[tx.from := tx.nonce] else old(pendingNonces)
      ensures beats == if tx.from in pending then old(beats) else old(beats) - {tx.from}
    {
      hide Below, From, Get, Store, Filed, Keyed, NoEmptyList, Lists, Covers, TxPricedList.Valid;
      var a := tx.from;
      var p := Get(pending, a);
      FiledKeyed(From(p, tx.nonce + 1), a);
      var invalids := SortItems(From(p, tx.nonce + 1));
      ListsEnumerate(invalids, From(p, tx.nonce + 1));
      pending := Store(pending, a, Below(p, tx.nonce));
      if a !in pending {
        beats := beats - {a};
      }
      EnqueueAll(a, invalids, From(p, tx.nonce + 1), ex);
      if PendingNonce(a) > tx.nonce {
        pendingNonces := pendingNonces[a := tx.nonce];
      }
    }

    /** Takes a transaction that the lookup has just forgotten out of its list. */
    method TakeOut(tx: Tx, ghost ex: set<Tx>, ghost was: set<Tx>)
      requires Priced(ex) && tx in was && all.all == was - {tx} && Agree(pending, queue, was) && NoEmptyList(queue)
      modifies this`pending, this`queue, this`beats, this`pendingNonces, all, priced
      ensures Priced(ex) && all.all == old(all.all)
      ensures Removed(old(pending), old(queue), was, pending, queue, tx)
      ensures pendingNonces == if Holds(Get(old(pending), tx.from), tx) && old(PendingNonce(tx.from)) > tx.nonce
                               then old(pendingNonces)[tx.from := tx.nonce] else old(pendingNonces)
      ensures beats == if Holds(Get(old(pending), tx.from), tx) && tx.from !in pending
                       then old(beats) - {tx.from} else old(beats)
    {
      hide Agree, Store, Below, From, Filed, Keyed, Covers, NoEmptyList, TxPricedList.Valid;
      var a := tx.from;
      AgreesAt(pending, queue, was, a);
      PooledExactlyOnce(pending, queue, was, tx);
      if tx.nonce in Get(pending, a) {
        RemovePendingParts(Get(pending, a), Get(queue, a), was, a, tx);
        Unlist(tx, ex);
      } else {
        queue := Store(queue, a, Get(queue, a) - {tx.nonce});
      }
    }

    /** Removes a transaction from the pool. When it was pending, everything pending above it is
        queued again and the pending nonce falls back to it. */
    method RemoveTx(tx: Tx, outOfBound: bool, ghost ex: set<Tx>)
      requires ValidBut(ex)
      modifies this`pending, this`queue, this`beats, this`pendingNonces, all, priced
      ensures ValidBut(ex) && all.all == old(all.all) - {tx}
      ensures Removed(old(pending), old(queue), old(all.all), pending, queue, tx)
      ensures pendingNonces == if tx in old(all.all) && Holds(Get(old(pending), tx.from), tx)
              && old(PendingNonce(tx.from)) > tx.nonce
                               then old(pendingNonces)[tx.from := tx.nonce] else old(pendingNonces)
      ensures beats == if tx in old(all.all) && Holds(Get(old(pending), tx.from), tx) && tx.from !in pending
                       then old(beats) - {tx.from} else old(beats)
      ensures old(Contiguous()) ==> Contiguous()
      ensures forall but: set<Address> :: old(CaughtUp(but)) ==> CaughtUp(but)
    {
      hide Agree, Store, Below, From, Filed, Keyed, NoEmptyList, GapFree, TxPricedList.Valid, Get, Holds, CaughtUpBut;
      if tx !in all.all {
        return;
      }
      Forget(tx, ex);
      if outOfBound {
        priced.Removed();
      }
      TakeOut(tx, ex, old(all.all));
      RemovedAgree(old(pending), old(queue), old(all.all), pending, queue, tx);
      if old(Contiguous()) {
        RemovedGapFree(old(pending), old(queue), old(all.all), pending, queue, tx, old(pendingNonces), state.nonce);
      }
      RemovedNoncesFall(old(pending), old(queue), old(all.all), pending, queue, tx, old(pendingNonces), pendingNonces,
                        state.nonce);
      forall but: set<Address> | old(CaughtUp(but)) ensures CaughtUp(but) {
        RemovedCaughtUp(old(pending), old(queue), old(all.all), pending, queue, tx, old(pendingNonces), pendingNonces,
                        state.nonce, but);
      }
    }

    /** Cuts a queued list down to a part of it and forgets the rest. */
    method ShrinkQueue(a: Address, keep: Items)
      requires Priced({}) && Agree(pending, queue, all.all) && a in queue && Part(keep, queue[a])
      modifies this`queue, all, priced
      ensures all.all <= old(all.all)
      ensures Priced({}) && Agree(pending, queue, all.all) && queue == old(queue)[a := keep]
    {
      ShrinkQueueAgrees(pending, queue, all.all, a, keep);
      var gone := SortItems(queue[a] - keep.Keys);
      queue := queue[a := keep];
      DropTxs(gone, {});
    }

    /** Cuts a pending list down to a part of it and forgets the rest. */
    method ShrinkPending(a: Address, keep: Items)
      requires Priced({}) && Agree(pending, queue, all.all) && a in pending && Part(keep, pending[a])
      modifies this`pending, all, priced
      ensures all.all <= old(all.all)
      ensures Priced({}) && Agree(pending, queue, all.all) && pending == old(pending)[a := keep]
    {
      ShrinkPendingAgrees(pending, queue, all.all, a, keep);
      var gone := SortItems(pending[a] - keep.Keys);
      pending := pending[a := keep];
      DropTxs(gone, {});
    }

    /** Promotes the run of queued transactions that starts no later than the pending nonce. */
    method PromoteReady(a: Address, now: int)
      requires Priced({}) && Agree(pending, queue, all.all) && a in queue
      modifies this`pending, this`queue, this`beats, this`pendingNonces, all, priced
      ensures all.all <= old(all.all)
      ensures Priced({}) && Agree(pending, queue, all.all)
      ensures var q := old(queue)[a];
              var end := ReadyEnd(q, old(PendingNonce(a)));
              var none := Below(q, end) == map[];
              && queue == old(queue)[a := From(q, end)]
              && pending == (if none then old(pending) else old(pending)[a := Get(old(pending), a) + Below(q, end)])
              && pendingNonces == (if none then old(pendingNonces) else old(pendingNonces)[a := Next(end - 1)])
              && beats == (if none then old(beats) else old(beats)[a := now])
              && (none <==> Get(pending, a) == Get(old(pending), a))
    {
      var q := queue[a];
      var end := ReadyEnd(q, PendingNonce(a));
      ReadyRun(q, PendingNonce(a));
      MoveAgrees(pending, queue, all.all, a, end);
      GrowsOrNot(Get(pending, a), Below(q, end));
      var ready := SortItems(Below(q, end));
      queue := queue[a := From(q, end)];
      PromoteAll(a, ready, now, Below(q, end), end);
    }

    /** Drops what is stale or unaffordable from a queued list. */
    method TidyQueue(a: Address)
      requires Priced({}) && Agree(pending, queue, all.all) && a in queue
      modifies this`queue, all, priced
      ensures all.all <= old(all.all)
      ensures Priced({}) && Agree(pending, queue, all.all)
      ensures queue == old(queue)[a := Payable(old(queue)[a], state.nonce(a), state.balance(a), state.maxGas)]
    {
      ShrinkQueue(a, From(queue[a], state.nonce(a)));
      ShrinkQueue(a, Unless(queue[a], TooDear(state.balance(a), state.maxGas)));
    }

    /** Caps the queued list of a remote account; drops a list that is empty. */
    method CapQueue(a: Address)
      requires Priced({}) && Agree(pending, queue, all.all) && a in queue && NoEmptyList(queue - {a})
      modifies this`queue, all, priced
      ensures all.all <= old(all.all)
      ensures Valid()
      ensures queue ==
                Store(old(queue), a, if a in locals then old(queue)[a] else Lowest(old(queue)[a], config.accountQueue))
    {
      hide Lowest, Agree, Covers, TxPricedList.Valid, Store, NoEmptyList;
      var keep := if a in locals then queue[a] else Lowest(queue[a], config.accountQueue);
      LowestIsPart(queue[a], config.accountQueue);
      StoreOver(queue, a, keep, keep);
      if a !in locals {
        ShrinkQueue(a, keep);
      }
      assert queue == old(queue)[a := keep];
      StoreIsUpdate(old(queue), a, keep);
      if keep == map[] {
        DropEmptyAgrees(pending, queue, all.all, a);
        queue := queue - {a};
      }
    }

    /** Tidies the queued list of an account and promotes what has become executable. */
    method PromoteAccount(a: Address, now: int)
      requires Valid() && a in queue
      modifies this`pending, this`queue, this`beats, this`pendingNonces, all, priced
      ensures all.all <= old(all.all)
      ensures Valid()
      ensures var q := Payable(old(queue)[a], state.nonce(a), state.balance(a), state.maxGas);
              var end := ReadyEnd(q, old(PendingNonce(a)));
              var none := Below(q, end) == map[];
              && queue == Store(old(queue), a,
                                if a in locals then From(q, end) else Lowest(From(q, end), config.accountQueue))
              && pending == (if none then old(pending) else old(pending)[a := Get(old(pending), a) + Below(q, end)])
              && pendingNonces == (if none then old(pendingNonces) else old(pendingNonces)[a := Next(end - 1)])
      ensures beats == if Get(pending, a) == Get(old(pending), a) then old(beats) else old(beats)[a := now]
    {
      hide Below, From, Payable, ReadyEnd, Lowest, Next, Agree, Covers, Store, Get, NoEmptyList, NonceOf,
           TxPricedList.Valid;
      StoreOver(queue, a, map[], map[]);
      ghost var q := Payable(queue[a], state.nonce(a), state.balance(a), state.maxGas);
      ghost var end := ReadyEnd(q, PendingNonce(a));
      TidyQueue(a);
      assert queue[a] == q && ReadyEnd(queue[a], PendingNonce(a)) == end;
      PromoteReady(a, now);
      ghost var rest := From(q, end);
      StoreOver(old(queue), a, rest, if a in locals then rest else Lowest(rest, config.accountQueue));
      assert queue == old(queue)[a := rest];
      CapQueue(a);
    }

    /** Drops the pending transaction of highest nonce of one account. */
    method CutOne(a: Address)
      requires Priced({}) && Agree(pending, queue, all.all) && a in pending && pending[a] != map[]
      modifies this`pending, this`pendingNonces, all, priced
      ensures Priced({}) && Agree(pending, queue, all.all) && all.all <= old(all.all)
      ensures pending == old(pending)[a := Lowest(old(pending)[a], |old(pending)[a]| - 1)]
      ensures pendingNonces == if old(PendingNonce(a)) > Greatest(old(pending)[a])
                               then old(pendingNonces)[a := Greatest(old(pending)[a])] else old(pendingNonces)
      ensures NoncesFall(old(pending), pending, old(pendingNonces), pendingNonces, state.nonce)
    {
      var top := Greatest(pending[a]);
      LowestOfAllButOne(pending[a]);
      AllButTop(pending[a]);
      ShrinkPending(a, Lowest(pending[a], |pending[a]| - 1));
      if PendingNonce(a) > top {
        pendingNonces := pendingNonces[a := top];
      }
      NoncesFallAt(old(pending), pending, old(pendingNonces), pendingNonces, state.nonce, a, top);
    }

    /** CutOne, seen from where the truncation began. */
    method CutNext(a: Address, ghost m: Table, ghost nonces: map<Address, nat>)
      requires Priced({}) && Agree(pending, queue, all.all) && a in pending && pending[a] != map[]
      requires NoncesFall(m, pending, nonces, pendingNonces, state.nonce)
      modifies this`pending, this`pendingNonces, all, priced
      ensures Priced({}) && Agree(pending, queue, all.all) && all.all <= old(all.all)
      ensures pending == old(pending)[a := Lowest(old(pending)[a], |old(pending)[a]| - 1)]
              && Total(pending) == Total(old(pending)) - 1
      ensures NoncesFall(m, pending, nonces, pendingNonces, state.nonce)
    {
      hide *;
      TotalUpdates(pending, a, Lowest(pending[a], |pending[a]| - 1));
      LowestIsPart(pending[a], |pending[a]| - 1);
      CutOne(a);
      NoncesFallOn(m, old(pending), pending, nonces, old(pendingNonces), pendingNonces, state.nonce);
    }

    /** Cuts each of the longest pending lists by one. */
    method CutRound(who: seq<Address>, ghost m: Table, ghost level: nat, ghost floor: nat,
                    ghost nonces: map<Address, nat>)
      requires Priced({}) && Agree(pending, queue, all.all)
               && NoncesFall(m, pending, nonces, pendingNonces, state.nonce)
      requires pending == Level(m, locals, level) && level > floor && Tops(m, locals, who, level, floor)
      modifies this`pending, this`pendingNonces, all, priced
      ensures Priced({}) && Agree(pending, queue, all.all) && all.all <= old(all.all)
      ensures pending == Level(m, locals, level - 1) && Total(pending) == Total(old(pending)) - |who|
      ensures NoncesFall(m, pending, nonces, pendingNonces, state.nonce)
    {
      hide *;
      RoundStarts(m, locals, who, level);
      for i := 0 to |who|
        invariant Priced({}) && Agree(pending, queue, all.all) && all.all <= old(all.all)
        invariant pending == Between(m, locals, First(who, i), level) && Total(pending) == Total(old(pending)) - i
        invariant NoncesFall(m, pending, nonces, pendingNonces, state.nonce)
      {
        RoundSteps(m, locals, who, i, level, floor);
        CutNext(who[i], m, nonces);
      }
      RoundEnds(m, locals, who, level, floor);
    }

    /** Cuts the longest pending lists evenly, until the limit is met or the floor reached. */
    method CutTo(who: seq<Address>, floor: nat, count0: nat, ghost m: Table, ghost level0: nat,
                 ghost nonces: map<Address, nat>)
      returns (count: nat, ghost level: nat)
      requires Priced({}) && Agree(pending, queue, all.all)
               && NoncesFall(m, pending, nonces, pendingNonces, state.nonce)
      requires pending == Level(m, locals, level0) && count0 == Total(pending)
      requires who != [] && level0 >= floor && Tops(m, locals, who, level0, floor)
      modifies this`pending, this`pendingNonces, all, priced
      ensures Priced({}) && Agree(pending, queue, all.all) && all.all <= old(all.all)
      ensures pending == Level(m, locals, level) && count == Total(pending) && floor <= level <= level0
      ensures count <= config.globalSlots || level == floor
      ensures level < level0 ==> Total(Level(m, locals, level + 1)) > config.globalSlots
      ensures NoncesFall(m, pending, nonces, pendingNonces, state.nonce)
    {
      hide *;
      count, level := count0, level0;
      TopLength(m, locals, who, level, floor);
      while count > config.globalSlots && |pending[who[|who| - 1]]| > floor
        invariant Priced({}) && Agree(pending, queue, all.all) && all.all <= old(all.all)
        invariant pending == Level(m, locals, level) && count == Total(pending) && floor <= level <= level0
        invariant Tops(m, locals, who, level, floor) && who[|who| - 1] in pending && |pending[who[|who| - 1]]| == level
        invariant level < level0 ==> Total(Level(m, locals, level + 1)) > config.globalSlots
        invariant NoncesFall(m, pending, nonces, pendingNonces, state.nonce)
        decreases level
      {
        CutRound(who, m, level, floor, nonces);
        TopsLower(m, locals, who, level, floor);
        count, level := count - |who|, level - 1;
        TopLength(m, locals, who, level, floor);
      }
    }

    /** On the way: the pending lists of m are cut down to a level, the offenders are the longest
        ones, in order of their length, and `left` are the other spammers. */
    ghost predicate Filling(m: Table, nonces: map<Address, nat>, offenders: seq<Address>, left: set<Spammer>,
                            level: nat, count: nat)
      reads this, all, priced
    {
      && Priced({}) && Agree(pending, queue, all.all)
      && Taken(m, locals, config.accountSlots, offenders, left, level)
      && (count > config.globalSlots ==> AtLeast(m, offenders, level))
      && pending == Level(m, locals, level) && count == Total(pending) && level >= config.accountSlots
      && (offenders == [] ==> pending == m)
      && (pending == m || Total(Level(m, locals, level + 1)) > config.globalSlots)
      && NoncesFall(m, pending, nonces, pendingNonces, state.nonce)
    }

    /** The next longest list joins the offenders, once these are cut down to its length. */
    method TakeOffender(x: Spammer, offenders: seq<Address>, count0: nat, ghost m: Table,
                        ghost nonces: map<Address, nat>,
                        ghost left: set<Spammer>, ghost level0: nat)
      returns (count: nat, ghost level: nat)
      requires Filling(m, nonces, offenders, left, level0, count0) && count0 > config.globalSlots
      requires x in left && forall y :: y in left ==> SpamKey(x) <= SpamKey(y)
      modifies this`pending, this`pendingNonces, all, priced
      ensures Filling(m, nonces, offenders + [x.addr], left - {x}, level, count) && all.all <= old(all.all)
    {
      hide Agree, Taken, AtLeast, Level, Total, NoncesFall, GapFree, Covers, TxPricedList.Valid;
      ghost var slots := config.accountSlots;
      count, level := count0, level0;
      TakenOne(m, locals, slots, offenders, left, level, x);
      if offenders == [] {
        FirstOffender(m, locals, slots, left, level, x);
        level := x.len;
      } else {
        ShortList(m, locals, x.addr, level);
        var threshold := |pending[x.addr]|;
        count, level := CutTo(offenders, threshold, count, m, level, nonces);
        TakenHigher(m, locals, slots, offenders + [x.addr], left - {x}, x.len, level);
      }
    }

    /** Truncates the pending lists when they exceed the global limit: the longest remote lists
        are cut evenly. The outcome is a level, the highest that meets the limit or else the
        account limit: every remote list is cut down to it and nothing else is touched. */
    method TruncatePending() returns (ghost level: nat)
      requires Priced({}) && Agree(pending, queue, all.all)
      modifies this`pending, this`pendingNonces, all, priced
      ensures Priced({}) && Agree(pending, queue, all.all) && all.all <= old(all.all)
      ensures Total(old(pending)) <= config.globalSlots ==> pending == old(pending)
      ensures pending == Level(old(pending), locals, level) && level >= config.accountSlots
      ensures Total(pending) <= config.globalSlots || level == config.accountSlots
      ensures pending == old(pending) || Total(Level(old(pending), locals, level + 1)) > config.globalSlots
      ensures NoncesFall(old(pending), pending, old(pendingNonces), pendingNonces, state.nonce)
    {
      hide *;
      ghost var m, nonces := pending, pendingNonces;
      NoncesStay(pending, pendingNonces, state.nonce);
      var count: nat;
      count := Count(pending);
      level := Total(m) + config.accountSlots;
      TotalLevel(m, locals, level);
      if count <= config.globalSlots {
        return;
      }
      var slots := config.accountSlots;
      var spammers := CollectSpammers(pending, locals, slots);
      var offenders: seq<Address> := [];
      ghost var left := Spammers(m, locals, slots);
      TakenNone(m, locals, slots, level);
      MeansFilling(m, nonces, offenders, left, level, count);
      while count > config.globalSlots && spammers != []
        invariant Filling(m, nonces, offenders, left, level, count) && all.all <= old(all.all)
        invariant Heap.IsHeap(spammers, SpamKey) && multiset(spammers) == multiset(left)
        decreases |spammers|
      {
        var x;
        x, spammers := PopSpammer(spammers, left);
        count, level := TakeOffender(x, offenders, count, m, nonces, left, level);
        offenders, left := offenders + [x.addr], left - {x};
      }
      FillingMeans(m, nonces, offenders, left, level, count);
      if count > config.globalSlots {
        NoSpammerLeft(spammers, left);
        TakenAll(m, locals, slots, offenders, level);
        if offenders != [] {
          count, level := CutTo(offenders, slots, count, m, level, nonces);
        } else {
          level := slots;
        }
      }
    }

    lemma MeansFilling(m: Table, nonces: map<Address, nat>, offenders: seq<Address>, left: set<Spammer>, level: nat,
                       count: nat)
      requires Priced({}) && Agree(pending, queue, all.all) && pending == m == Level(m, locals, level)
      requires Taken(m, locals, config.accountSlots, offenders, left, level) && AtLeast(m, offenders, level)
      requires count == Total(pending) && level >= config.accountSlots
               && NoncesFall(m, pending, nonces, pendingNonces, state.nonce)
      ensures Filling(m, nonces, offenders, left, level, count)
    {
    }

    lemma FillingMeans(m: Table, nonces: map<Address, nat>, offenders: seq<Address>, left: set<Spammer>, level: nat,
                       count: nat)
      requires Filling(m, nonces, offenders, left, level, count)
      ensures Priced({}) && Agree(pending, queue, all.all)
      ensures Taken(m, locals, config.accountSlots, offenders, left, level)
      ensures count > config.globalSlots ==> AtLeast(m, offenders, level)
      ensures pending == Level(m, locals, level) && count == Total(pending) && level >= config.accountSlots
      ensures offenders == [] ==> pending == m
      ensures pending == m || Total(Level(m, locals, level + 1)) > config.globalSlots
      ensures NoncesFall(m, pending, nonces, pendingNonces, state.nonce)
    {
    }

    /** Removes a queued transaction; nothing else changes. */
    method RemoveQueued(tx: Tx)
      requires Valid() && Holds(Get(queue, tx.from), tx)
      modifies this`pending, this`queue, this`beats, this`pendingNonces, all, priced
      ensures Valid() && all.all <= old(all.all)
      ensures pending == old(pending) && pendingNonces == old(pendingNonces) && beats == old(beats)
      ensures queue == Store(old(queue), tx.from, Get(old(queue), tx.from) - {tx.nonce})
    {
      assert AgreeAt(Get(pending, tx.from), Get(queue, tx.from), all.all, tx.from);
      assert tx in all.all;
      RemoveTx(tx, true, {});
    }

    /** Removes the whole queued list of an account. */
    method RemoveQueuedList(a: Address)
      requires Valid() && a in queue
      modifies this`pending, this`queue, this`beats, this`pendingNonces, all, priced
      ensures Valid() && all.all <= old(all.all) && queue == old(queue) - {a}
      ensures pending == old(pending) && pendingNonces == old(pendingNonces) && beats == old(beats)
    {
      assert AgreeAt(Get(pending, a), Get(queue, a), all.all, a);
      ghost var rest := queue[a];
      var txs := SortItems(queue[a]);
      var i := 0;
      StoreSame(queue, a);
      assert txs[0..] == txs;
      while i < |txs|
        invariant 0 <= i <= |txs| && Valid() && all.all <= old(all.all)
        invariant queue == Store(old(queue), a, rest) && Get(queue, a) == rest
        invariant Filed(rest, a) && Lists(txs[i..], rest)
        invariant pending == old(pending) && pendingNonces == old(pendingNonces) && beats == old(beats)
      {
        HeadListed(txs[i..], rest);
        RestFiled(old(queue), a, rest, txs[i].nonce);
        assert txs[i..][1..] == txs[i + 1..];
        RemoveQueued(txs[i]);
        rest := rest - {txs[i].nonce};
        i := i + 1;
      }
      NoElems(txs[i..]);
      NoValues(rest);
    }

    /** Removes the `drop` queued transactions of highest nonce of an account. */
    method RemoveQueuedTop(a: Address, drop: nat)
      requires Valid() && a in queue && drop < |queue[a]|
      modifies this`pending, this`queue, this`beats, this`pendingNonces, all, priced
      ensures Valid() && all.all <= old(all.all)
      ensures queue == old(queue)[a := Lowest(old(queue)[a], |old(queue)[a]| - drop)]
      ensures pending == old(pending) && pendingNonces == old(pendingNonces) && beats == old(beats)
    {
      hide *;
      ghost var m := queue[a];
      ValidMeans();
      QueuedFacts(pending, queue, all.all, a);
      var txs := SortItems(queue[a]);
      ListingLength(txs, m);
      var i, left := |txs|, drop;
      while i > 0 && left > 0
        invariant 0 <= i <= |txs| == |m| && 0 <= left && left + |m| == i + drop && Valid() && all.all <= old(all.all)
        invariant queue == old(queue)[a := Lowest(m, i)]
        invariant pending == old(pending) && pendingNonces == old(pendingNonces) && beats == old(beats)
      {
        i := i - 1;
        TopQueued(old(queue), a, m, txs, i);
        RemoveQueued(txs[i]);
        left := left - 1;
      }
    }

    /** Truncates the queue when it exceeds the global limit, latest heartbeat first. */
    method TruncateQueue()
      requires Valid()
      modifies this`pending, this`queue, this`beats, this`pendingNonces, all, priced
      ensures Valid() && all.all <= old(all.all)
      ensures pending == old(pending) && pendingNonces == old(pendingNonces) && beats == old(beats)
      ensures QueueTruncated(old(queue), queue, locals, beats, config.globalQueue)
    {
      hide *;
      ghost var q := queue;
      NothingTruncated(q, locals, beats, config.globalQueue);
      var queued := Count(queue);
      if queued > config.globalQueue {
        var addresses := SortByHeartbeat(queue, locals, beats);
        ghost var s := addresses;
        CutNothing(q, s, locals, beats);
        assert addresses == s[..|addresses|];
        var drop := queued - config.globalQueue;
        while drop > 0 && |addresses| > 0
          invariant Valid() && all.all <= old(all.all)
          invariant pending == old(pending) && pendingNonces == old(pendingNonces) && beats == old(beats)
          invariant |addresses| <= |s| && addresses == s[..|addresses|] && Cutting(q, queue, s, |addresses|, locals)
          invariant 0 <= drop == Total(queue) - config.globalQueue
          invariant drop > 0 && |addresses| < |s| ==> s[|addresses|].addr !in queue
          decreases |addresses|
        {
          CutWhole(q, queue, s, |addresses|, locals, beats);
          var addr := addresses[|addresses| - 1].addr;
          var size := |queue[addr]|;
          if size <= drop {
            RemoveQueuedList(addr);
            drop := drop - size;
          } else {
            CutPart(q, queue, s, |addresses|, locals, beats, drop);
            RemoveQueuedTop(addr, drop);
            drop := 0;
          }
          addresses := addresses[..|addresses| - 1];
        }
        CutDone(q, queue, s, |addresses|, locals, beats, config.globalQueue);
      }
    }

    /** Tidies and promotes the queued list of an account, if it has one. */
    method PromoteOne(a: Address, now: int)
      requires Valid()
      modifies this`pending, this`queue, this`beats, this`pendingNonces, all, priced
      ensures Valid() && all.all <= old(all.all)
      ensures PromotesJust(old(pending), old(queue), old(pendingNonces), pending, queue, pendingNonces,
                           state, locals, config.accountQueue, a)
      ensures beats == if Get(pending, a) == Get(old(pending), a) then old(beats) else old(beats)[a := now]
    {
      hide Agree, GapFree, Payable, ReadyEnd, Below, From, Lowest, Next, Store, Get, PromotesJust, Covers,
           TxPricedList.Valid;
      if a !in queue {
        NothingToPromote(pending, queue, pendingNonces, state, locals, config.accountQueue, a);
        return;
      }
      PromoteAccount(a, now);
      AccountPromoted(old(pending), old(queue), old(pendingNonces), pending, queue, pendingNonces,
                      state, locals, config.accountQueue, a);
    }

    /** Tidies and promotes the queued lists of the given accounts, in any order. */
    method PromoteAccounts(accounts: set<Address>, now: int)
      requires Valid()
      modifies this`pending, this`queue, this`beats, this`pendingNonces, all, priced
      ensures Valid() && all.all <= old(all.all)
      ensures Promotes(old(pending), old(queue), old(pendingNonces), pending, queue, pendingNonces,
                       state, locals, config.accountQueue, accounts)
      ensures Beaten(old(pending), pending, old(beats), beats, now)
      ensures old(Contiguous()) ==>
                (Contiguous() <==> forall a :: a in accounts ==> !ReachesLast(old(queue), old(pendingNonces), state, a))
    {
      hide *;
      ValidMeans();
      ContiguousIs();
      PromotesNone(pending, queue, pendingNonces, state, locals, config.accountQueue);
      BeatenNone(pending, beats, now);
      var todo := accounts;
      assert accounts - todo == {};
      while todo != {}
        invariant todo <= accounts && Valid() && all.all <= old(all.all)
        invariant Promotes(old(pending), old(queue), old(pendingNonces), pending, queue, pendingNonces,
                           state, locals, config.accountQueue, accounts - todo)
        invariant Beaten(old(pending), pending, old(beats), beats, now)
      {
        var a :| a in todo;
        ghost var p, q, nonces, were := pending, queue, pendingNonces, beats;
        PromoteOne(a, now);
        BeatenOne(old(pending), old(queue), old(pendingNonces), p, q, nonces, pending, queue, pendingNonces,
                  state, locals, config.accountQueue, accounts - todo, a, old(beats), were, beats, now);
        PromotesOne(old(pending), old(queue), old(pendingNonces), p, q, nonces, pending, queue, pendingNonces,
                    state, locals, config.accountQueue, accounts - todo, a);
        assert accounts - (todo - {a}) == (accounts - todo) + {a};
        todo := todo - {a};
      }
      assert accounts - todo == accounts;
      ContiguousIs();
      if old(Contiguous()) {
        PromotesGapFree(old(pending), old(queue), old(all.all), old(pendingNonces), pending, queue, pendingNonces,
                        state, locals, config.accountQueue, accounts);
      }
    }

    /** Promotes what has become executable, then enforces both global limits. */
    method PromoteExecutables(accounts: set<Address>, now: int) returns (ghost mid: Snapshot, ghost level: nat)
      requires Valid()
      modifies this`pending, this`queue, this`beats, this`pendingNonces, all, priced
      ensures Valid() && all.all <= old(all.all)
      ensures Settled(old(Snapshot(pending, queue, pendingNonces, beats)), mid,
                      Snapshot(pending, queue, pendingNonces, beats), config, state, locals, accounts, level, now)
      ensures old(Contiguous()) ==>
                (Contiguous() <==> Unwrapped(old(queue), old(pendingNonces), pending, state, accounts))
      ensures config.accountSlots > 0 && old(Contiguous()) ==>
                (Contiguous() <==> NoneReachesLast(old(queue), old(pendingNonces), state, accounts))
      ensures forall but: set<Address> :: old(CaughtUp(but)) ==> CaughtUp(but - accounts)
    {
      hide *;
      ghost var before := Snapshot(pending, queue, pendingNonces, beats);
      ValidMeans();
      ContiguousIs();
      forall but: set<Address> ensures CaughtUp(but) <==> CaughtUpBut(queue, pendingNonces, state.nonce, but) {
        CaughtUpIs(but);
      }
      PromoteAccounts(accounts, now);
      mid := Snapshot(pending, queue, pendingNonces, beats);
      level := LevelPending();
      TruncateQueue();
      ghost var after := Snapshot(pending, queue, pendingNonces, beats);
      MeansSettled(before, mid, after, config, state, locals, accounts, level, now);
      ContiguousIs();
      UnwrappedBefore(before, mid, after, config, state, locals, accounts, level, now);
      if old(Contiguous()) {
        SettledGapFree(before, mid, after, config, state, locals, accounts, level, now, old(all.all));
      }
      forall but: set<Address> | old(CaughtUp(but)) ensures CaughtUp(but - accounts) {
        CaughtUpIs(but - accounts);
        SettledCatchUp(before, mid, after, config, state, locals, accounts, level, now, but);
      }
    }

    /** TruncatePending on a valid pool. */
    method LevelPending() returns (ghost level: nat)
      requires Valid()
      modifies this`pending, this`pendingNonces, all, priced
      ensures Valid() && all.all <= old(all.all)
      ensures WaterFilled(old(pending), pending, locals, config.accountSlots, config.globalSlots, level)
      ensures NoncesFall(old(pending), pending, old(pendingNonces), pendingNonces, state.nonce)
      ensures old(Contiguous()) ==> Contiguous()
    {
      hide Agree, GapFree, Total, Level, NoEmptyList, Covers, NoncesFall, TxPricedList.Valid;
      level := TruncatePending();
      if old(Contiguous()) {
        Levelled(old(pending), pending, old(pendingNonces), pendingNonces, state.nonce, locals, level);
      }
    }

    /** Splits a pending list: `stay` stays, `back` is queued again and the rest is forgotten. */
    method Split(a: Address, stay: Items, back: Items)
      requires Valid() && a in pending && Part(stay, pending[a]) && Part(back, pending[a]) && stay.Keys !! back.Keys
      modifies this`pending, this`queue, all, priced
      ensures Valid() && all.all <= old(all.all)
      ensures pending == old(pending)[a := stay] && queue == Store(old(queue), a, Get(old(queue), a) + back)
    {
      hide Agree, Part, Get, Store, Filed, Covers, NoEmptyList, TxPricedList.Valid, Lists;
      SplitAgrees(pending, queue, all.all, a, stay, back);
      StoreGet(queue, a, Get(queue, a) + back);
      var gone := SortItems(pending[a] - stay.Keys - back.Keys);
      var again := SortItems(back);
      ListsEnumerate(gone, pending[a] - stay.Keys - back.Keys);
      ListsEnumerate(again, back);
      pending := pending[a := stay];
      DropTxs(gone, {});
      EnqueueAll(a, again, back, {});
    }

    /** Removes the pending list of an account if it is empty. */
    method DropIfEmpty(a: Address)
      requires Valid() && a in pending
      modifies this`pending, this`beats
      ensures Valid() && pending == Store(old(pending), a, old(pending)[a])
      ensures beats == if a in pending then old(beats) else old(beats) - {a}
    {
      hide Agree, Covers, NoEmptyList, TxPricedList.Valid;
      if pending[a] == map[] {
        DropEmptyPending(pending, queue, all.all, a);
        pending := pending - {a};
        beats := beats - {a};
      }
    }

    /** Drops the used-up part of a pending list and queues again what has become unaffordable
        behind an unaffordable transaction. */
    method FilterPending(a: Address)
      requires Valid() && a in pending
      modifies this`pending, this`queue, all, priced
      ensures Valid() && all.all <= old(all.all)
      ensures var list, dear := From(old(pending)[a], state.nonce(a)), TooDear(state.balance(a), state.maxGas);
              && pending == old(pending)[a := Kept(list, true, dear)]
              && queue == Store(old(queue), a, Get(old(queue), a) + Invalidated(list, true, dear))
    {
      hide Agree, Kept, Invalidated, From, Get, TooDear, Covers, NoEmptyList, TxPricedList.Valid, Store, Part;
      var nonce, dear := state.nonce(a), TooDear(state.balance(a), state.maxGas);
      FromIsPart(pending[a], nonce);
      ShrinkPending(a, From(pending[a], nonce));
      FilterParts(pending[a], dear);
      Split(a, Kept(pending[a], true, dear), Invalidated(pending[a], true, dear));
    }

    /** Adjusts the pending list of an account to the chain state: stale and unaffordable
        transactions are dropped, and what is no longer executable is queued again. */
    method DemoteAccount(a: Address)
      requires Valid() && a in pending
      modifies this`pending, this`queue, this`beats, all, priced
      ensures Valid() && all.all <= old(all.all)
      ensures var dear := TooDear(state.balance(a), state.maxGas);
              && pending == Store(old(pending), a, StillPending(old(pending)[a], state.nonce(a), dear))
              && queue == Store(old(queue), a, Get(old(queue), a) + Demoted(old(pending)[a], state.nonce(a), dear))
      ensures beats == if a in pending then old(beats) else old(beats) - {a}
    {
      hide Agree, Kept, Invalidated, From, Get, TooDear, Demoted, Covers, NoEmptyList, TxPricedList.Valid, Store;
      var nonce := state.nonce(a);
      ghost var dear := TooDear(state.balance(a), state.maxGas);
      DemoteTwice(queue, a, pending[a], nonce, dear);
      FilterPending(a);
      if pending[a] != map[] && nonce !in pending[a] {
        Split(a, map[], pending[a]);
      }
      ghost var stay := StillPending(old(pending)[a], nonce, dear);
      assert pending == old(pending)[a := stay];
      StoreOver(old(pending), a, stay, stay);
      DropIfEmpty(a);
    }

    /** Adjusts all pending lists to the chain state, in any order. */
    method DemoteUnexecutables()
      requires Valid()
      modifies this`pending, this`queue, this`beats, all, priced
      ensures Valid() && all.all <= old(all.all)
      ensures Demotes(old(pending), old(queue), pending, queue, state, {})
      ensures pending.Keys <= old(pending).Keys && beats == old(beats) - (old(pending).Keys - pending.Keys)
    {
      hide *;
      DemotesNone(pending, queue, state);
      var todo := pending.Keys;
      while todo != {}
        invariant Valid() && all.all <= old(all.all)
        invariant pending.Keys <= old(pending).Keys && beats == old(beats) - (old(pending).Keys - pending.Keys)
        invariant todo <= pending.Keys && Demotes(old(pending), old(queue), pending, queue, state, todo)
      {
        var a :| a in todo;
        ghost var p, q := pending, queue;
        DemoteAccount(a);
        StoreKeys(p, a, StillPending(p[a], state.nonce(a), TooDear(state.balance(a), state.maxGas)));
        DemotesOne(old(pending), old(queue), p, q, pending, queue, state, todo, a);
        todo := todo - {a};
      }
    }

    /** Sets the pending nonce of every account with pending transactions behind the last one. */
    method SyncNonces()
      requires NoEmptyList(pending)
      modifies this`pendingNonces
      ensures pendingNonces.Keys == old(pendingNonces).Keys + pending.Keys
      ensures forall a :: a in pendingNonces ==>
                pendingNonces[a] == if a in pending then Next(Greatest(pending[a])) else old(pendingNonces)[a]
    {
      var todo := pending.Keys;
      while todo != {}
        invariant todo <= pending.Keys && pendingNonces.Keys == old(pendingNonces).Keys + (pending.Keys - todo)
        invariant forall a :: a in pendingNonces ==>
                    pendingNonces[a] == if a in pending && a !in todo then Next(Greatest(pending[a]))
                      else old(pendingNonces)[a]
      {
        var a :| a in todo;
        pendingNonces := pendingNonces[a := Next(Greatest(pending[a]))];
        todo := todo - {a};
      }
    }

    /** Checks a transaction on its own; `local` also covers senders already known as local. */
    method ValidateTx(tx: Tx, local0: bool) returns (err: Option<TxError>)
      ensures err == Objection(tx, local0 || tx.from in locals, gasPrice, state, homestead)
    {
      if tx.size > MAX_TX_SIZE { return Some(OversizedData); }
      if tx.value < 0 { return Some(NegativeValue); }
      if state.maxGas < tx.gas { return Some(GasLimit); }
      if !tx.signed { return Some(InvalidSender); }
      var local := local0 || tx.from in locals;
      if !local && gasPrice > tx.gasPrice { return Some(Underpriced); }
      if state.nonce(tx.from) > tx.nonce { return Some(NonceTooLow); }
      if state.balance(tx.from) < tx.Cost() { return Some(InsufficientFunds); }
      var gas := IntrinsicGas(tx.data, tx.create, homestead);
      if gas.None? { return Some(OutOfGas); }
      if tx.gas < gas.value { return Some(IntrinsicGasTooLow); }
      return None;
    }

    /** Removes transactions that the price heap has already given up. */
    method RemovePriced(drop: seq<Tx>)
      requires ValidBut(Elems(drop))
      modifies this`pending, this`queue, this`beats, this`pendingNonces, all, priced
      ensures Valid() && all.all == old(all.all) - Elems(drop)
      ensures Books(pending, queue, all.all) == Removals(old(Books(pending, queue, all.all)), drop)
      ensures pending.Keys <= old(pending).Keys && beats == old(beats) - (old(pending).Keys - pending.Keys)
      ensures NoncesFall(old(pending), pending, old(pendingNonces), pendingNonces, state.nonce)
      ensures old(Contiguous()) ==> Contiguous()
      ensures forall but: set<Address> :: old(CaughtUp(but)) ==> CaughtUp(but)
    {
      hide *;
      var i := 0;
      NoncesStay(pending, pendingNonces, state.nonce);
      SuffixElems(drop, 0);
      EmptyPrefix(drop);
      RemovalsNone(Books(pending, queue, all.all), drop);
      while i < |drop|
        invariant 0 <= i <= |drop| && ValidBut(Elems(drop[i..])) && all.all == old(all.all) - Elems(drop[..i])
        invariant Books(pending, queue, all.all) == Removals(old(Books(pending, queue, all.all)), drop[..i])
        invariant pending.Keys <= old(pending).Keys && beats == old(beats) - (old(pending).Keys - pending.Keys)
        invariant NoncesFall(old(pending), pending, old(pendingNonces), pendingNonces, state.nonce)
        invariant old(Contiguous()) ==> Contiguous()
        invariant forall but: set<Address> :: old(CaughtUp(but)) ==> CaughtUp(but)
      {
        PrefixElems(drop, i);
        RemovalsMore(old(Books(pending, queue, all.all)), drop, i);
        RemoveNext(drop[i], Elems(drop[i..]), old(pending), old(pendingNonces));
        SuffixElems(drop, i);
        Fewer(Elems(drop[i..]), Elems(drop[i + 1..]), drop[i]);
        i := i + 1;
      }
      assert drop[..i] == drop;
      ValidButNone(Elems(drop[i..]), drop[i..]);
    }

    /** RemoveTx, seen from where a series of removals began. */
    method RemoveNext(tx: Tx, ghost ex: set<Tx>, ghost p: Table, ghost nonces: map<Address, nat>)
      requires ValidBut(ex) && NoncesFall(p, pending, nonces, pendingNonces, state.nonce)
      modifies this`pending, this`queue, this`beats, this`pendingNonces, all, priced
      ensures ValidBut(ex) && all.all == old(all.all) - {tx}
      ensures Books(pending, queue, all.all) == Removal(old(Books(pending, queue, all.all)), tx)
      ensures pending.Keys <= old(pending).Keys && beats == old(beats) - (old(pending).Keys - pending.Keys)
      ensures NoncesFall(p, pending, nonces, pendingNonces, state.nonce)
      ensures old(Contiguous()) ==> Contiguous()
      ensures forall but: set<Address> :: old(CaughtUp(but)) ==> CaughtUp(but)
    {
      hide Removed, Removal, ValidBut, Contiguous, NoncesFall, Get, Holds;
      RemoveTx(tx, false, ex);
      RemovedIs(old(pending), old(queue), old(all.all), pending, queue, tx);
      RemovedKeys(old(pending), old(queue), old(all.all), pending, queue, tx);
      RemovedNoncesFall(old(pending), old(queue), old(all.all), pending, queue, tx, old(pendingNonces), pendingNonces,
                        state.nonce);
      NoncesFallOn(p, old(pending), pending, nonces, old(pendingNonces), pendingNonces, state.nonce);
    }

    lemma ValidButNone(ex: set<Tx>, rest: seq<Tx>)
      requires ValidBut(ex) && ex == Elems(rest) && rest == []
      ensures Valid()
    {
      assert ex == {};
    }

    /** A transaction that is gone needs no entry. */
    lemma Fewer(ex: set<Tx>, ex': set<Tx>, tx: Tx)
      requires ValidBut(ex) && tx !in all.all && ex <= ex' + {tx}
      ensures ValidBut(ex')
    {
    }

    /** Gives up the lowest-ranked entries of remote transactions. One more transaction fits in then
        exactly if as many entries were found as asked for and no transaction was among them twice. */
    method MakeRoom() returns (drop: seq<Tx>)
      requires Valid() && Full()
      modifies this`pending, this`queue, this`beats, this`pendingNonces, all, priced
      ensures Valid()
              && Discards(old(all.all), drop, |old(all.all)| + 1 - (config.globalSlots + config.globalQueue), locals)
      ensures Books(pending, queue, all.all) == Removals(old(Books(pending, queue, all.all)), drop)
      ensures all.all == old(all.all) - Elems(drop)
      ensures var cap := config.globalSlots + config.globalQueue;
              |all.all| + 1 <= cap <==> |drop| == |old(all.all)| + 1 - cap && OnceEach(drop)
      ensures beats == old(beats) - (old(pending).Keys - pending.Keys)
      ensures NoncesFall(old(pending), pending, old(pendingNonces), pendingNonces, state.nonce)
      ensures old(Contiguous()) ==> Contiguous()
      ensures forall but: set<Address> :: old(CaughtUp(but)) ==> CaughtUp(but)
    {
      hide Valid, ValidBut, Contiguous, Removals, Discards, NoncesFall, Elems, OnceEach;
      drop := GiveUp(|all.all| + 1 - (config.globalSlots + config.globalQueue));
      RoomMade(all.all, drop, config.globalSlots + config.globalQueue, locals);
      RemovePriced(drop);
    }

    /** Takes the lowest-ranked remote transactions off the price heap. */
    method GiveUp(count: nat) returns (drop: seq<Tx>)
      requires Valid()
      modifies priced
      ensures ValidBut(Elems(drop)) && Discards(all.all, drop, count, locals)
    {
      hide Agree, NoEmptyList, GapFree, PricedBefore;
      drop := priced.Discard(count, locals);
    }

    /** Files a new transaction; the sender of one filed in the queue becomes local on request. */
    method FileTx(tx: Tx, local: bool) returns (replaced: bool, err: Option<TxError>)
      requires Valid() && tx !in all.all
      modifies this`pending, this`queue, this`locals, all, priced
      ensures Valid()
      ensures Files(old(pending), old(queue), old(all.all), pending, queue, all.all, tx, config.priceBump, replaced,
                    err)
      ensures locals == if local && err == None && tx.nonce !in Get(old(pending), tx.from)
                        then old(locals) + {tx.from} else old(locals)
      ensures old(Contiguous()) ==> Contiguous()
      ensures forall but: set<Address> :: old(CaughtUp(but)) ==>
                CaughtUp(if err == None && !replaced then but + {tx.from} else but)
    {
      hide CaughtUpBut;
      var inPending := tx.nonce in Get(pending, tx.from);
      replaced, err := FileEntry(tx);
      FilesAgree(old(pending), old(queue), old(all.all), pending, queue, all.all, tx, config.priceBump, replaced, err);
      if old(Contiguous()) {
        FilesGapFree(old(pending), old(queue), old(all.all), pending, queue, all.all, tx, config.priceBump, replaced,
                     err, pendingNonces, state.nonce);
      }
      if local && err == None && !inPending {
        locals := locals + {tx.from};
      }
      forall but: set<Address> | old(CaughtUp(but))
        ensures CaughtUp(if err == None && !replaced then but + {tx.from} else but)
      {
        FiledCaughtUp(old(pending), old(queue), old(all.all), pending, queue, all.all, tx, config.priceBump, replaced,
                      err, pendingNonces, state.nonce, but);
      }
    }

    method FileEntry(tx: Tx) returns (replaced: bool, err: Option<TxError>)
      requires Priced({}) && tx !in all.all
      modifies this`pending, this`queue, all, priced
      ensures Priced({})
      ensures Files(old(pending), old(queue), old(all.all), pending, queue, all.all, tx, config.priceBump, replaced,
                    err)
    {
      var p := Get(pending, tx.from);
      if tx.nonce in p {
        if !Replaces(tx, p[tx.nonce], config.priceBump) {
          return false, Some(ReplaceUnderpriced);
        }
        pending := pending[tx.from := Plus(p, tx)];
        DropTx(p[tx.nonce], {});
        all.all := all.all + {tx};
        priced.Put(tx);
        return true, None;
      }
      var refused;
      replaced, refused := EnqueueTx(tx, {});
      err := if refused then Some(ReplaceUnderpriced) else None;
    }

    /** Whether the pool is at its capacity. */
    predicate Full()
      reads this, all
    {
      |all.all| >= config.globalSlots + config.globalQueue
    }

    /** Decides whether a transaction is refused outright. */
    method Refuse(tx: Tx, local: bool) returns (err: Option<TxError>)
      requires Valid()
      modifies priced
      ensures Valid()
      ensures err ==
                Refusal(tx, local, all.all, locals, gasPrice, state, homestead,
                        |all.all| >= config.globalSlots + config.globalQueue)
      ensures forall but: set<Address> :: old(CaughtUp(but)) ==> CaughtUp(but)
    {
      hide Agree, NoEmptyList, Objection;
      if tx in all.all {
        return Some(Known);
      }
      err := ValidateTx(tx, local);
      if err != None {
        return;
      }
      if Full() && !local {
        var cheap := priced.Underpriced(tx, locals);
        if cheap {
          return Some(Underpriced);
        }
      }
    }

    /** Adding a transaction: it is refused outright and nothing changes; or room is made in a full pool,
        and then it is filed, or refused because it may not replace the one with its nonce. */
    ghost predicate Added(tx: Tx, local: bool, was: Books, wasLocals: set<Address>, room: Books, drop: seq<Tx>,
                          now: Books, replaced: bool, err: Option<TxError>, nowLocals: set<Address>)
      reads this`gasPrice, this`state, this`homestead
    {
      var cap := config.globalSlots + config.globalQueue;
      var full := |was.all| >= cap;
      var refusal := Refusal(tx, local, was.all, wasLocals, gasPrice, state, homestead, full);
      if refusal != None then
        err == refusal && !replaced && now == was && nowLocals == wasLocals && room == was && drop == []
      else
        && (if full then Discards(was.all, drop, |was.all| + 1 - cap, wasLocals) && room == Removals(was, drop)
            else room == was && drop == [])
        && Files(room.pending, room.queue, room.all, now.pending, now.queue, now.all, tx, config.priceBump, replaced,
                 err)
        && nowLocals == if local && err == None && tx.nonce !in Get(room.pending, tx.from) then wasLocals + {tx.from}
           else wasLocals
    }

    /** Makes room for one more transaction if the pool is full. */
    method MakeRoomIfFull() returns (ghost room: Books, ghost drop: seq<Tx>)
      requires Valid()
      modifies this`pending, this`queue, this`beats, this`pendingNonces, all, priced
      ensures Valid() && room == Books(pending, queue, all.all) && all.all <= old(all.all)
      ensures if |old(all.all)| >= config.globalSlots + config.globalQueue then
                && Discards(old(all.all), drop, |old(all.all)| + 1 - (config.globalSlots + config.globalQueue), locals)
                && room == Removals(old(Books(pending, queue, all.all)), drop)
              else room == old(Books(pending, queue, all.all)) && drop == []
      ensures beats == old(beats) - (old(pending).Keys - pending.Keys)
      ensures NoncesFall(old(pending), pending, old(pendingNonces), pendingNonces, state.nonce)
      ensures old(Contiguous()) ==> Contiguous()
      ensures forall but: set<Address> :: old(CaughtUp(but)) ==> CaughtUp(but)
    {
      hide Valid, Contiguous, Discards, Removals, NoncesFall;
      NoncesStay(pending, pendingNonces, state.nonce);
      drop := [];
      if Full() {
        drop := MakeRoom();
      }
      room := Books(pending, queue, all.all);
    }

    lemma NotKnownIfFiled(tx: Tx, local: bool, all: set<Tx>, locals: set<Address>)
      ensures tx in all ==>
                Refusal(tx, local, all, locals, gasPrice, state, homestead,
                        |all| >= config.globalSlots + config.globalQueue) == Some(Known)
    {
    }

    lemma RoomOf(tx: Tx, local: bool, was: Books, wasLocals: set<Address>, room: Books, drop: seq<Tx>,
                 now: Books, replaced: bool, err: Option<TxError>, nowLocals: set<Address>)
      requires Added(tx, local, was, wasLocals, room, drop, now, replaced, err, nowLocals)
      ensures room == Removals(was, drop)
      ensures drop != [] ==>
                var cap := config.globalSlots + config.globalQueue;
                |was.all| >= cap && Discards(was.all, drop, |was.all| + 1 - cap, wasLocals)
      ensures tx in was.all ==> err != None
      ensures err == None || now != room ==>
                Files(room.pending, room.queue, room.all, now.pending, now.queue, now.all, tx, config.priceBump,
                      replaced, err)
    {
      NotKnownIfFiled(tx, local, was.all, wasLocals);
      hide Refusal, Discards, Files, Get;
      RemovalsNone(was, drop);
      assert drop == [] ==> drop[..0] == drop;
    }

    /** Adding a transaction fits the capacity. */
    lemma CapacityAfter(tx: Tx, local: bool, was: Books, wasLocals: set<Address>, room: Books, drop: seq<Tx>,
                        now: Books, replaced: bool, nowLocals: set<Address>)
      requires Added(tx, local, was, wasLocals, room, drop, now, replaced, None, nowLocals)
      requires Agree(room.pending, room.queue, room.all)
      ensures Fits(config.globalSlots + config.globalQueue, |was.all|, |now.all|, drop, replaced)
    {
      hide Added, Agree, Discards, Removals, Replaces, OnceEach, Elems, Files;
      var cap := config.globalSlots + config.globalQueue;
      RoomOf(tx, local, was, wasLocals, room, drop, now, replaced, None, nowLocals);
      RoomIfFull(tx, local, was, wasLocals, room, drop, now, replaced, nowLocals);
      FilesCount(room.pending, room.queue, room.all, now.pending, now.queue, now.all, tx, config.priceBump, replaced);
      if |was.all| >= cap {
        RemovalsAll(was, drop);
        RoomMade(was.all, drop, cap, wasLocals);
      }
    }

    lemma RoomIfFull(tx: Tx, local: bool, was: Books, wasLocals: set<Address>, room: Books, drop: seq<Tx>,
                     now: Books, replaced: bool, nowLocals: set<Address>)
      requires Added(tx, local, was, wasLocals, room, drop, now, replaced, None, nowLocals)
      ensures var cap := config.globalSlots + config.globalQueue;
              if |was.all| >= cap then Discards(was.all, drop, |was.all| + 1 - cap, wasLocals)
              else room == was && drop == []
    {
      hide Refusal, Discards, Files, Get, Removals;
    }

    /** A transaction that may not replace the one with its nonce is refused after room has been made: a
        full pool loses transactions to it unless all that it holds are local. */
    lemma RefusedAfterRoom(tx: Tx, local: bool, was: Books, wasLocals: set<Address>, room: Books, drop: seq<Tx>,
                           now: Books, replaced: bool, nowLocals: set<Address>)
      requires Added(tx, local, was, wasLocals, room, drop, now, replaced, Some(ReplaceUnderpriced), nowLocals)
      ensures now == room && nowLocals == wasLocals && !replaced && now.all == was.all - Elems(drop)
      ensures DropsNothing(config.globalSlots + config.globalQueue, was.all, now.all, wasLocals)
    {
      hide Removals, Replaces, Get;
      RemovalsAll(was, drop);
      if |was.all| >= config.globalSlots + config.globalQueue {
        assert forall d :: d in drop <==> d in Elems(drop);
        assert drop != [] ==> drop[0] in drop;
      }
    }

    lemma PoolAfter(tx: Tx, local: bool, was: Books, wasLocals: set<Address>, room: Books, drop: seq<Tx>,
                    now: Books, replaced: bool, err: Option<TxError>, nowLocals: set<Address>)
      requires Added(tx, local, was, wasLocals, room, drop, now, replaced, err, nowLocals)
      requires Agree(room.pending, room.queue, room.all)
      ensures err == None ==> Fits(config.globalSlots + config.globalQueue, |was.all|, |now.all|, drop, replaced)
      ensures err == Some(ReplaceUnderpriced) ==>
                now == room && DropsNothing(config.globalSlots + config.globalQueue, was.all, now.all, wasLocals)
    {
      hide *;
      if err == None {
        CapacityAfter(tx, local, was, wasLocals, room, drop, now, replaced, nowLocals);
      } else if err == Some(ReplaceUnderpriced) {
        RefusedAfterRoom(tx, local, was, wasLocals, room, drop, now, replaced, nowLocals);
      }
    }

    /** A remote bid to a full pool that holds something. */
    ghost predicate Bids(tx: Tx, local: bool, all: set<Tx>, locals: set<Address>) {
      |all| >= config.globalSlots + config.globalQueue && all != {} && !local && tx.from !in locals
    }

    /** A full pool takes from remote senders only what is dearer than something it holds, so its least
        price does not fall; what it calls underpriced is below the limit or no dearer than anything it
        holds. */
    lemma BidAfter(tx: Tx, local: bool, was: Books, wasLocals: set<Address>, room: Books, drop: seq<Tx>,
                   now: Books, replaced: bool, err: Option<TxError>, nowLocals: set<Address>)
      requires Added(tx, local, was, wasLocals, room, drop, now, replaced, err, nowLocals)
      requires Agree(room.pending, room.queue, room.all)
      ensures err == Some(Known) <==> tx in was.all
      ensures Bids(tx, local, was.all, wasLocals) && (err == None || err == Some(ReplaceUnderpriced)) ==>
                exists t :: t in was.all && t.gasPrice < tx.gasPrice
      ensures err == Some(Underpriced) ==>
                && now == was && !local && tx.from !in wasLocals
                && (tx.gasPrice < gasPrice
                    || (Bids(tx, local, was.all, wasLocals) && forall t :: t in was.all ==> tx.gasPrice <= t.gasPrice))
    {
      hide Refusal, Removals, Agree, Discards, Replaces, Get;
      RefusalMeans(tx, local, was.all, wasLocals, gasPrice, state, homestead,
                   |was.all| >= config.globalSlots + config.globalQueue);
      NotReplaceUnderpriced(tx, local, was.all, wasLocals, gasPrice, state, homestead,
                            |was.all| >= config.globalSlots + config.globalQueue);
    }

    /** Apart from the transaction with the same nonce, what leaves a full pool is remote and no dearer
        than any remote one that stays. */
    lemma LeavesAfter(tx: Tx, local: bool, was: Books, wasLocals: set<Address>, room: Books, drop: seq<Tx>,
                      now: Books, replaced: bool, err: Option<TxError>, nowLocals: set<Address>)
      requires Added(tx, local, was, wasLocals, room, drop, now, replaced, err, nowLocals)
      requires Agree(room.pending, room.queue, room.all)
      ensures now.all <= was.all + {tx}
      ensures forall t :: t in was.all && t !in now.all && !(t.from == tx.from && t.nonce == tx.nonce) ==>
                && |was.all| >= config.globalSlots + config.globalQueue && t.from !in wasLocals
                && forall u :: u in now.all && u != tx && u.from !in wasLocals ==>
                     t.gasPrice < u.gasPrice || (t.gasPrice == u.gasPrice && t.nonce >= u.nonce)
    {
      hide *;
      RoomOf(tx, local, was, wasLocals, room, drop, now, replaced, err, nowLocals);
      RemovalsAll(was, drop);
      FilesNearly(room.pending, room.queue, room.all, now.pending, now.queue, now.all, tx, config.priceBump, replaced,
                  err);
      if drop != [] {
        DiscardsCheap(was.all, drop, |was.all| + 1 - (config.globalSlots + config.globalQueue), wasLocals);
        CheapLeave(was.all, Elems(drop), now.all, tx, wasLocals);
      } else {
        NothingDropped(drop);
      }
    }

    static lemma CheapLeave(was: set<Tx>, dropped: set<Tx>, now: set<Tx>, tx: Tx, locals: set<Address>)
      requires now <= was - dropped + {tx} && forall d :: d in dropped ==> d.from !in locals
      requires forall t :: t in was - dropped && t !in now ==> t.from == tx.from && t.nonce == tx.nonce
      requires forall d, t :: d in dropped && t in was && t !in dropped && t.from !in locals ==>
                 d.gasPrice < t.gasPrice || (d.gasPrice == t.gasPrice && d.nonce >= t.nonce)
      ensures forall t :: t in was && t !in now && !(t.from == tx.from && t.nonce == tx.nonce) ==>
                && t.from !in locals
                && forall u :: u in now && u != tx && u.from !in locals ==>
                     t.gasPrice < u.gasPrice || (t.gasPrice == u.gasPrice && t.nonce >= u.nonce)
    {
    }

    lemma LeastAfter(tx: Tx, local: bool, was: Books, wasLocals: set<Address>, room: Books, drop: seq<Tx>,
                     now: Books, replaced: bool, err: Option<TxError>, nowLocals: set<Address>)
      requires Added(tx, local, was, wasLocals, room, drop, now, replaced, err, nowLocals)
      requires Agree(room.pending, room.queue, room.all) && Bids(tx, local, was.all, wasLocals)
      ensures forall t :: t in now.all ==> exists u :: u in was.all && u.gasPrice <= t.gasPrice
    {
      hide *;
      LeavesAfter(tx, local, was, wasLocals, room, drop, now, replaced, err, nowLocals);
      BidAfter(tx, local, was, wasLocals, room, drop, now, replaced, err, nowLocals);
      RefusedStays(tx, local, was, wasLocals, room, drop, now, replaced, err, nowLocals);
      forall t | t in now.all ensures exists u :: u in was.all && u.gasPrice <= t.gasPrice {
        if t in was.all {
          assert t.gasPrice <= t.gasPrice;
        }
      }
    }

    /** Adding in terms of prices. */
    lemma PricesAfter(tx: Tx, local: bool, was: Books, wasLocals: set<Address>, room: Books, drop: seq<Tx>,
                      now: Books, replaced: bool, err: Option<TxError>, nowLocals: set<Address>)
      requires Added(tx, local, was, wasLocals, room, drop, now, replaced, err, nowLocals)
      requires Agree(room.pending, room.queue, room.all)
      ensures err == Some(Known) <==> tx in was.all
      ensures |was.all| >= config.globalSlots + config.globalQueue && was.all != {}
              && !local && tx.from !in wasLocals ==>
                && (err == None || err == Some(ReplaceUnderpriced) ==>
                      exists t :: t in was.all && t.gasPrice < tx.gasPrice)
                && forall t :: t in now.all ==> exists u :: u in was.all && u.gasPrice <= t.gasPrice
      ensures err == Some(Underpriced) ==>
                && now == was && !local && tx.from !in wasLocals
                && (tx.gasPrice < gasPrice
                    || (|was.all| >= config.globalSlots + config.globalQueue && was.all != {}
                        && forall t :: t in was.all ==> tx.gasPrice <= t.gasPrice))
      ensures forall t :: t in was.all && t !in now.all && !(t.from == tx.from && t.nonce == tx.nonce) ==>
                && |was.all| >= config.globalSlots + config.globalQueue && t.from !in wasLocals
                && forall u :: u in now.all && u != tx && u.from !in wasLocals ==>
                     t.gasPrice < u.gasPrice || (t.gasPrice == u.gasPrice && t.nonce >= u.nonce)
    {
      hide *;
      BidAfter(tx, local, was, wasLocals, room, drop, now, replaced, err, nowLocals);
      LeavesAfter(tx, local, was, wasLocals, room, drop, now, replaced, err, nowLocals);
      BidsIs(tx, local, was.all, wasLocals);
      if Bids(tx, local, was.all, wasLocals) {
        LeastAfter(tx, local, was, wasLocals, room, drop, now, replaced, err, nowLocals);
      }
    }

    /** What is let in can be paid for. */
    lemma AddedSolvent(tx: Tx, local: bool, was: Books, wasLocals: set<Address>, room: Books, drop: seq<Tx>,
                       now: Books, replaced: bool, err: Option<TxError>, nowLocals: set<Address>)
      requires Added(tx, local, was, wasLocals, room, drop, now, replaced, err, nowLocals)
      requires Agree(room.pending, room.queue, room.all) && Affordable(was.all, state)
      ensures Affordable(now.all, state)
    {
      hide *;
      LeavesAfter(tx, local, was, wasLocals, room, drop, now, replaced, err, nowLocals);
      RefusedStays(tx, local, was, wasLocals, room, drop, now, replaced, err, nowLocals);
      if err == None || err == Some(ReplaceUnderpriced) {
        AdmittedIs(tx, local, was, wasLocals, room, drop, now, replaced, err, nowLocals);
        RefusalMeans(tx, local, was.all, wasLocals, gasPrice, state, homestead,
                     |was.all| >= config.globalSlots + config.globalQueue);
        AffordableMore(was.all, tx, local || tx.from in wasLocals, gasPrice, state, homestead);
        AffordableLess(was.all + {tx}, now.all, state);
      }
    }

    lemma AdmittedIs(tx: Tx, local: bool, was: Books, wasLocals: set<Address>, room: Books, drop: seq<Tx>,
                     now: Books, replaced: bool, err: Option<TxError>, nowLocals: set<Address>)
      requires Added(tx, local, was, wasLocals, room, drop, now, replaced, err, nowLocals)
      requires err == None || err == Some(ReplaceUnderpriced)
      ensures Refusal(tx, local, was.all, wasLocals, gasPrice, state, homestead,
                      |was.all| >= config.globalSlots + config.globalQueue) == None
    {
      NotReplaceUnderpriced(tx, local, was.all, wasLocals, gasPrice, state, homestead,
                            |was.all| >= config.globalSlots + config.globalQueue);
      hide Refusal, Discards, Removals, Files, Get;
    }

    lemma RefusedStays(tx: Tx, local: bool, was: Books, wasLocals: set<Address>, room: Books, drop: seq<Tx>,
                       now: Books, replaced: bool, err: Option<TxError>, nowLocals: set<Address>)
      requires Added(tx, local, was, wasLocals, room, drop, now, replaced, err, nowLocals)
      ensures err != None && err != Some(ReplaceUnderpriced) ==> now == was
    {
      hide Refusal, Removals, Discards, Replaces, Get;
    }

    lemma NothingDropped(drop: seq<Tx>)
      requires drop == []
      ensures Elems(drop) == {}
    {
    }

    lemma BidsIs(tx: Tx, local: bool, all: set<Tx>, locals: set<Address>)
      ensures Bids(tx, local, all, locals) <==>
                |all| >= config.globalSlots + config.globalQueue && all != {} && !local && tx.from !in locals
    {
    }

    /** Among what a full pool gives up for a new transaction something is cheaper than it exactly if
        some remote transaction in the pool is: a cheap local one is enough to be let in. */
    lemma GivesUpCheaper(tx: Tx, local: bool, was: Books, wasLocals: set<Address>, room: Books, drop: seq<Tx>,
                         now: Books, replaced: bool, err: Option<TxError>, nowLocals: set<Address>)
      requires Added(tx, local, was, wasLocals, room, drop, now, replaced, err, nowLocals) && drop != []
      ensures (exists d :: d in drop && d.gasPrice < tx.gasPrice) <==>
                exists t :: t in was.all && t.from !in wasLocals && t.gasPrice < tx.gasPrice
    {
      hide Refusal, Removals, Files;
      if t :| t in was.all && t.from !in wasLocals && t.gasPrice < tx.gasPrice && t !in drop {
        assert drop[0] in drop && !PricedBefore(t, drop[0]);
      }
    }

    /** Files a transaction that is not refused outright, after room has been made in a full pool. */
    method Admit(tx: Tx, local: bool)
      returns (replaced: bool, err: Option<TxError>, ghost room: Books, ghost drop: seq<Tx>)
      requires Valid()
      requires Refusal(tx, local, all.all, locals, gasPrice, state, homestead,
                       |all.all| >= config.globalSlots + config.globalQueue) == None
      modifies this`pending, this`queue, this`beats, this`pendingNonces, this`locals, all, priced
      ensures Valid() && all.all <= old(all.all) + {tx} && Agree(room.pending, room.queue, room.all)
      ensures Added(tx, local, old(Books(pending, queue, all.all)), old(locals), room, drop,
                    Books(pending, queue, all.all), replaced, err, locals)
      ensures beats == old(beats) - (old(pending).Keys - room.pending.Keys)
      ensures NoncesFall(old(pending), room.pending, old(pendingNonces), pendingNonces, state.nonce)
      ensures !local ==> locals == old(locals)
      ensures err == None ==> Fits(config.globalSlots + config.globalQueue, |old(all.all)|, |all.all|, drop, replaced)
      ensures err == Some(ReplaceUnderpriced) ==>
                && Books(pending, queue, all.all) == room
                && DropsNothing(config.globalSlots + config.globalQueue, old(all.all), all.all, old(locals))
      ensures old(Contiguous()) ==> Contiguous()
      ensures forall but: set<Address> :: old(CaughtUp(but)) ==>
                CaughtUp(if err == None && !replaced then but + {tx.from} else but)
    {
      hide *;
      ghost var was, wasLocals := Books(pending, queue, all.all), locals;
      NotKnown(tx, local, all.all, locals, gasPrice, state, homestead,
               |all.all| >= config.globalSlots + config.globalQueue);
      room, drop := MakeRoomIfFull();
      ValidMeans();
      replaced, err := FileTx(tx, local);
      FilesWithin(room.pending, room.queue, room.all, pending, queue, all.all, tx, config.priceBump, replaced, err);
      MeansFiled(tx, local, was, wasLocals, room, drop, replaced, err);
      PoolAfter(tx, local, was, wasLocals, room, drop, Books(pending, queue, all.all), replaced, err, locals);
    }

    /** Refuses a transaction outright or admits it. */
    method Enter(tx: Tx, local: bool)
      returns (replaced: bool, err: Option<TxError>, ghost room: Books, ghost drop: seq<Tx>)
      requires Valid()
      modifies this`pending, this`queue, this`beats, this`pendingNonces, this`locals, all, priced
      ensures Valid() && all.all <= old(all.all) + {tx} && Agree(room.pending, room.queue, room.all)
      ensures Added(tx, local, old(Books(pending, queue, all.all)), old(locals), room, drop,
                    Books(pending, queue, all.all), replaced, err, locals)
      ensures beats == old(beats) - (old(pending).Keys - room.pending.Keys)
      ensures NoncesFall(old(pending), room.pending, old(pendingNonces), pendingNonces, state.nonce)
      ensures !local ==> locals == old(locals)
      ensures err == None ==> Fits(config.globalSlots + config.globalQueue, |old(all.all)|, |all.all|, drop, replaced)
      ensures err == Some(ReplaceUnderpriced) ==>
                && Books(pending, queue, all.all) == room
                && DropsNothing(config.globalSlots + config.globalQueue, old(all.all), all.all, old(locals))
      ensures old(Contiguous()) ==> Contiguous()
      ensures forall but: set<Address> :: old(CaughtUp(but)) ==>
                CaughtUp(if err == None && !replaced then but + {tx.from} else but)
    {
      hide *;
      NoncesStay(pending, pendingNonces, state.nonce);
      ghost var was := Books(pending, queue, all.all);
      replaced, drop, room := false, [], was;
      ValidMeans();
      err := Refuse(tx, local);
      if err == None {
        replaced, err, room, drop := Admit(tx, local);
      } else {
        NotReplaceUnderpriced(tx, local, all.all, locals, gasPrice, state, homestead,
                              |all.all| >= config.globalSlots + config.globalQueue);
        MeansRefused(tx, local, was, drop, err);
      }
    }

    /** Adds a transaction, if it is new and unobjectionable and, in a full pool, dearer than something
        pooled or local, and if it may replace the one with its nonce. The last is found out after room
        has been made; `room` is the pool then. */
    method Add(tx: Tx, local: bool)
      returns (replaced: bool, err: Option<TxError>, ghost room: Books, ghost drop: seq<Tx>)
      requires Valid()
      modifies this`pending, this`queue, this`beats, this`pendingNonces, this`locals, all, priced
      ensures Valid() && all.all <= old(all.all) + {tx}
      ensures Added(tx, local, old(Books(pending, queue, all.all)), old(locals), room, drop,
                    Books(pending, queue, all.all), replaced, err, locals)
      ensures beats == old(beats) - (old(pending).Keys - room.pending.Keys)
      ensures NoncesFall(old(pending), room.pending, old(pendingNonces), pendingNonces, state.nonce)
      ensures !local ==> locals == old(locals)
      ensures err == None ==> Fits(config.globalSlots + config.globalQueue, |old(all.all)|, |all.all|, drop, replaced)
      ensures err == Some(ReplaceUnderpriced) ==>
                && Books(pending, queue, all.all) == room
                && DropsNothing(config.globalSlots + config.globalQueue, old(all.all), all.all, old(locals))
      ensures err == Some(Known) <==> tx in old(all.all)
      ensures |old(all.all)| >= config.globalSlots + config.globalQueue && old(all.all) != {}
              && !local && tx.from !in old(locals) ==>
                && (err == None || err == Some(ReplaceUnderpriced) ==>
                      exists t :: t in old(all.all) && t.gasPrice < tx.gasPrice)
                && forall t :: t in all.all ==> exists u :: u in old(all.all) && u.gasPrice <= t.gasPrice
      ensures err == Some(Underpriced) ==>
                && Books(pending, queue, all.all) == old(Books(pending, queue, all.all))
                && !local && tx.from !in old(locals)
                && (tx.gasPrice < gasPrice
                    || (|old(all.all)| >= config.globalSlots + config.globalQueue && old(all.all) != {}
                        && forall t :: t in old(all.all) ==> tx.gasPrice <= t.gasPrice))
      ensures forall t :: t in old(all.all) && t !in all.all && !(t.from == tx.from && t.nonce == tx.nonce) ==>
                && |old(all.all)| >= config.globalSlots + config.globalQueue && t.from !in old(locals)
                && forall u :: u in all.all && u != tx && u.from !in old(locals) ==>
                     t.gasPrice < u.gasPrice || (t.gasPrice == u.gasPrice && t.nonce >= u.nonce)
      ensures old(Contiguous()) ==> Contiguous()
      ensures forall but: set<Address> :: old(CaughtUp(but)) ==>
                CaughtUp(if err == None && !replaced then but + {tx.from} else but)
      ensures old(Solvent()) ==> Solvent()
    {
      hide *;
      ghost var was, wasLocals := Books(pending, queue, all.all), locals;
      SolventIs();
      replaced, err, room, drop := Enter(tx, local);
      PricesAfter(tx, local, was, wasLocals, room, drop, Books(pending, queue, all.all), replaced, err, locals);
      SolventIs();
      if old(Solvent()) {
        AddedSolvent(tx, local, was, wasLocals, room, drop, Books(pending, queue, all.all), replaced, err, locals);
      }
    }

    lemma MeansRefused(tx: Tx, local: bool, was: Books, drop: seq<Tx>, err: Option<TxError>)
      requires was == Books(pending, queue, all.all) && err != None && drop == []
      requires err ==
                 Refusal(tx, local, all.all, locals, gasPrice, state, homestead,
                         |all.all| >= config.globalSlots + config.globalQueue)
      ensures Added(tx, local, was, locals, was, drop, was, false, err, locals)
    {
      hide Refusal;
    }

    lemma MeansFiled(tx: Tx, local: bool, was: Books, wasLocals: set<Address>, room: Books, drop: seq<Tx>,
                     replaced: bool, err: Option<TxError>)
      requires var cap := config.globalSlots + config.globalQueue;
               var full := |was.all| >= cap;
               && Refusal(tx, local, was.all, wasLocals, gasPrice, state, homestead, full) == None
               && (if full then Discards(was.all, drop, |was.all| + 1 - cap, wasLocals) && room == Removals(was, drop)
                   else room == was && drop == [])
      requires Files(room.pending, room.queue, room.all, pending, queue, all.all, tx, config.priceBump, replaced, err)
      requires locals == if local && err == None && tx.nonce !in Get(room.pending, tx.from) then wasLocals + {tx.from}
               else wasLocals
      ensures Added(tx, local, was, wasLocals, room, drop, Books(pending, queue, all.all), replaced, err, locals)
    {
      hide Refusal, Discards, Removals, Files, Get;
    }

    /** Adds a transaction and promotes what it makes executable. `added` is the pool in between. */
    method AddTx(tx: Tx, local: bool, now: int)
      returns (err: Option<TxError>, ghost replaced: bool, ghost room: Books, ghost drop: seq<Tx>,
               ghost added: Snapshot, ghost pooled: set<Tx>, ghost mid: Snapshot, ghost level: nat)
      requires Valid()
      modifies this`pending, this`queue, this`beats, this`pendingNonces, this`locals, all, priced
      ensures Valid() && all.all <= pooled <= old(all.all) + {tx}
      ensures Added(tx, local, old(Books(pending, queue, all.all)), old(locals), room, drop,
                    Books(added.pending, added.queue, pooled), replaced, err, locals)
      ensures added.beats == old(beats) - (old(pending).Keys - room.pending.Keys)
      ensures NoncesFall(old(pending), room.pending, old(pendingNonces), added.nonces, state.nonce)
      ensures if err == None && !replaced
              then Settled(added, mid, Snapshot(pending, queue, pendingNonces, beats), config, state, locals, {tx.from},
                           level, now)
              else added == Snapshot(pending, queue, pendingNonces, beats) && all.all == pooled
      ensures old(Contiguous()) ==>
                (Contiguous() <==>
                 (err == None && !replaced ==> Unwrapped(added.queue, added.nonces, pending, state, {tx.from})))
      ensures config.accountSlots > 0 && old(Contiguous()) ==>
                (Contiguous() <==>
                 (err == None && !replaced ==> NoneReachesLast(added.queue, added.nonces, state, {tx.from})))
      ensures old(Contiguous()) && NoLast(old(all.all) + {tx}) ==> Contiguous()
      ensures old(Solvent()) ==> Solvent()
      ensures old(CaughtUp({})) ==> CaughtUp({})
    {
      hide *;
      var again;
      again, err, room, drop := Add(tx, local);
      replaced, added, pooled := again, Snapshot(pending, queue, pendingNonces, beats), all.all;
      mid, level := added, 0;
      ValidMeans();
      NoLastHeld(old(all.all) + {tx}, pooled);
      if err == None && !again {
        NeverLast(added.pending, added.queue, pooled, added.nonces, state, {tx.from});
        SolventIs();
        mid, level := PromoteExecutables({tx.from}, now);
        SolventAfter(pooled);
      }
      assert {} + {tx.from} - {tx.from} == {};
      SolventIs();
    }

    /** What the pool holds. */
    ghost function Stand(): Standing
      reads this, all
    {
      Standing(Snapshot(pending, queue, pendingNonces, beats), all.all, locals)
    }

    /** One transaction was added; the pending nonces and heartbeats followed the room that was made. */
    ghost predicate AddedOne(tx: Tx, local: bool, was: Standing, x: Adding, err: Option<TxError>)
      reads this`gasPrice, this`state, this`homestead
    {
      && Added(tx, local, was.Booked(), was.locals, x.room, x.drop, x.now.Booked(), x.replaced, err, x.now.locals)
      && x.now.lists.beats == was.lists.beats - (was.lists.pending.Keys - x.room.pending.Keys)
      && NoncesFall(was.lists.pending, x.room.pending, was.lists.nonces, x.now.lists.nonces, state.nonce)
    }

    /** Transactions were added one after the other, each to what the one before it left. */
    ghost predicate AddedAll(txs: seq<Tx>, local: bool, was: Standing, trail: seq<Adding>, errs: seq<Option<TxError>>)
      reads this`gasPrice, this`state, this`homestead
    {
      && |trail| == |errs| <= |txs|
      && forall i :: 0 <= i < |trail| ==> AddedOne(txs[i], local, LastOf(trail[..i], was), trail[i], errs[i])
    }

    lemma AddedMore(txs: seq<Tx>, local: bool, was: Standing, trail: seq<Adding>, errs: seq<Option<TxError>>,
                    x: Adding, err: Option<TxError>)
      requires AddedAll(txs, local, was, trail, errs) && |trail| < |txs|
      requires AddedOne(txs[|trail|], local, LastOf(trail, was), x, err)
      ensures AddedAll(txs, local, was, trail + [x], errs + [err]) && LastOf(trail + [x], was) == x.now
      ensures Dirty(txs, trail + [x], errs + [err]) ==
              Dirty(txs, trail, errs) + (if err == None && !x.replaced then {txs[|trail|].from} else {})
    {
      hide AddedOne, Dirty;
      DirtyMore(txs, trail, errs, x, err);
      var trail', errs' := trail + [x], errs + [err];
      assert trail[..|trail|] == trail;
      forall i | 0 <= i < |trail'| ensures AddedOne(txs[i], local, LastOf(trail'[..i], was), trail'[i], errs'[i]) {
        assert trail'[..i] == trail[..i];
      }
    }

    lemma AddedNone(txs: seq<Tx>, local: bool, was: Standing)
      ensures AddedAll(txs, local, was, [], []) && Dirty(txs, [], []) == {} && LastOf([], was) == was
    {
    }

    /** Adds the next transaction of a series. */
    method AddNext(txs: seq<Tx>, local: bool, ghost was: Standing, ghost trail: seq<Adding>, errs: seq<Option<TxError>>,
                   dirty: set<Address>)
      returns (ghost trail': seq<Adding>, errs': seq<Option<TxError>>, dirty': set<Address>)
      requires Valid() && AddedAll(txs, local, was, trail, errs) && |errs| == |trail| < |txs|
      requires LastOf(trail, was) == Stand() && dirty == Dirty(txs, trail, errs)
      modifies this`pending, this`queue, this`beats, this`pendingNonces, this`locals, all, priced
      ensures Valid() && all.all <= old(all.all) + {txs[|errs|]} && AddedAll(txs, local, was, trail', errs')
      ensures |trail'| == |errs'| == |errs| + 1 && LastOf(trail', was) == Stand() && dirty' == Dirty(txs, trail', errs')
      ensures !local ==> locals == old(locals)
      ensures old(Contiguous()) ==> Contiguous()
      ensures old(Solvent()) ==> Solvent()
      ensures old(CaughtUp(dirty)) ==> CaughtUp(dirty')
    {
      hide *;
      StandIs();
      var tx, replaced, err := txs[|errs|], false, None;
      ghost var room, drop;
      replaced, err, room, drop := Add(tx, local);
      ghost var x := Adding(room, drop, Stand(), replaced);
      MeansAdded(tx, local, old(Stand()), x, err);
      AddedMore(txs, local, was, trail, errs, x, err);
      trail', errs' := trail + [x], errs + [err];
      dirty' := if err == None && !replaced then dirty + {tx.from} else dirty;
    }

    lemma MeansAdded(tx: Tx, local: bool, was: Standing, x: Adding, err: Option<TxError>)
      requires x.now == Stand()
               && Added(tx, local, was.Booked(), was.locals, x.room, x.drop, Books(pending, queue, all.all),
                                         x.replaced, err, locals)
      requires beats == was.lists.beats - (was.lists.pending.Keys - x.room.pending.Keys)
      requires NoncesFall(was.lists.pending, x.room.pending, was.lists.nonces, pendingNonces, state.nonce)
      ensures AddedOne(tx, local, was, x, err)
    {
      hide Added, NoncesFall;
    }

    /** Adds transactions one after the other. */
    method AddAll(txs: seq<Tx>, local: bool)
      returns (errs: seq<Option<TxError>>, dirty: set<Address>, ghost trail: seq<Adding>)
      requires Valid()
      modifies this`pending, this`queue, this`beats, this`pendingNonces, this`locals, all, priced
      ensures Valid() && |errs| == |trail| == |txs| && all.all <= old(all.all) + Elems(txs)
      ensures AddedAll(txs, local, old(Stand()), trail, errs) && LastOf(trail, old(Stand())) == Stand()
      ensures dirty == Dirty(txs, trail, errs)
      ensures !local ==> locals == old(locals)
      ensures old(Contiguous()) ==> Contiguous()
      ensures old(Solvent()) ==> Solvent()
      ensures old(CaughtUp({})) ==> CaughtUp(dirty)
    {
      hide *;
      dirty, errs, trail := {}, [], [];
      EmptyPrefix(txs);
      AddedNone(txs, local, Stand());
      for i := 0 to |txs|
        invariant Valid() && |errs| == |trail| == i && all.all <= old(all.all) + Elems(txs[..i])
        invariant AddedAll(txs, local, old(Stand()), trail, errs) && dirty == Dirty(txs, trail, errs)
        invariant LastOf(trail, old(Stand())) == Stand()
        invariant !local ==> locals == old(locals)
        invariant old(Contiguous()) ==> Contiguous()
        invariant (old(CaughtUp({})) ==> CaughtUp(dirty)) && (old(Solvent()) ==> Solvent())
      {
        PrefixElems(txs, i);
        trail, errs, dirty := AddNext(txs, local, old(Stand()), trail, errs, dirty);
      }
      assert txs[..|txs|] == txs;
    }

    /** Adds transactions one after the other, then promotes what they make executable. */
    method AddTxs(txs: seq<Tx>, local: bool, now: int)
      returns (errs: seq<Option<TxError>>, ghost trail: seq<Adding>, ghost added: Standing, ghost mid: Snapshot,
               ghost level: nat)
      requires Valid()
      modifies this`pending, this`queue, this`beats, this`pendingNonces, this`locals, all, priced
      ensures Valid() && |errs| == |trail| == |txs| && all.all <= added.all <= old(all.all) + Elems(txs)
      ensures AddedAll(txs, local, old(Stand()), trail, errs) && LastOf(trail, old(Stand())) == added
              && added.locals == locals
      ensures var dirty := Dirty(txs, trail, errs);
              if dirty != {} then Settled(added.lists, mid, Stand().lists, config, state, locals, dirty, level, now)
              else added == Stand()
      ensures txs == [] ==> Stand() == old(Stand())
      ensures !local ==> locals == old(locals)
      ensures Agree(added.lists.pending, added.lists.queue, added.all)
      ensures old(Contiguous()) ==>
                (Contiguous() <==>
                 Unwrapped(added.lists.queue, added.lists.nonces, pending, state, Dirty(txs, trail, errs)))
      ensures config.accountSlots > 0 && old(Contiguous()) ==>
                (Contiguous() <==>
                 NoneReachesLast(added.lists.queue, added.lists.nonces, state, Dirty(txs, trail, errs)))
      ensures old(Contiguous()) && NoLast(old(all.all) + Elems(txs)) ==> Contiguous()
      ensures old(Solvent()) ==> Solvent()
      ensures old(CaughtUp({})) ==> CaughtUp({})
    {
      hide *;
      var dirty;
      errs, dirty, trail := AddAll(txs, local);
      NobodyDirty(txs, trail, errs, old(Stand()));
      added := Stand();
      mid, level := added.lists, 0;
      StandIs();
      ValidMeans();
      NoLastHeld(old(all.all) + Elems(txs), added.all);
      NeverLast(added.lists.pending, added.lists.queue, added.all, added.lists.nonces, state, dirty);
      NobodyUnwrapped(added.lists.queue, added.lists.nonces, pending, state);
      if dirty != {} {
        SolventIs();
        mid, level := PromoteExecutables(dirty, now);
        SolventAfter(added.all);
        assert dirty - dirty == {};
        StandIs();
      }
    }

    lemma SolventAfter(was: set<Tx>)
      requires all.all <= was
      ensures Affordable(was, state) ==> Solvent()
    {
    }

    lemma StandIs()
      ensures Stand() == Standing(Snapshot(pending, queue, pendingNonces, beats), all.all, locals)
      ensures Stand().Booked() == Books(pending, queue, all.all)
    {
    }

    /** Raises or lowers the price limit; exactly the remote transactions below it go. */
    method SetGasPrice(price: nat) returns (drop: seq<Tx>)
      requires Valid()
      modifies this`gasPrice, this`pending, this`queue, this`beats, this`pendingNonces, all, priced
      ensures Valid() && gasPrice == price
      ensures Elems(drop) == set t | t in old(all.all) && t.gasPrice < price && t.from !in locals
      ensures all.all == old(all.all) - Elems(drop)
      ensures Books(pending, queue, all.all) == Removals(old(Books(pending, queue, all.all)), drop)
      ensures beats == old(beats) - (old(pending).Keys - pending.Keys)
      ensures NoncesFall(old(pending), pending, old(pendingNonces), pendingNonces, state.nonce)
      ensures old(Contiguous()) ==> Contiguous()
      ensures forall but: set<Address> :: old(CaughtUp(but)) ==> CaughtUp(but)
    {
      hide Agree, NoEmptyList, GapFree, Removals, NoncesFall;
      gasPrice := price;
      drop := priced.Cap(price, locals);
      RemovePriced(drop);
    }

    /** Drops the queued lists of remote accounts without a recent heartbeat. */
    method Evict(now: int, lifetime: int)
      requires Valid()
      modifies this`pending, this`queue, this`beats, this`pendingNonces, all, priced
      ensures Valid() && all.all <= old(all.all) && pending == old(pending) && beats == old(beats)
              && pendingNonces == old(pendingNonces)
      ensures queue == map a | a in old(queue) && (a in locals || now - BeatOf(beats, a) <= lifetime) :: old(queue)[a]
      ensures old(Contiguous()) ==> Contiguous()
      ensures forall but: set<Address> :: old(CaughtUp(but)) ==> CaughtUp(but)
    {
      hide *;
      ContiguousIs();
      forall but: set<Address> ensures CaughtUp(but) <==> CaughtUpBut(queue, pendingNonces, state.nonce, but) {
        CaughtUpIs(but);
      }
      var todo := queue.Keys;
      while todo != {}
        invariant todo <= queue.Keys && Valid() && all.all <= old(all.all) && pending == old(pending)
                  && beats == old(beats)
        invariant pendingNonces == old(pendingNonces)
        invariant queue == map a | a in old(queue)
                  && (a in todo || a in locals || now - BeatOf(beats, a) <= lifetime) :: old(queue)[a]
      {
        var a :| a in todo;
        if a !in locals && now - BeatOf(beats, a) > lifetime {
          RemoveQueuedList(a);
        }
        todo := todo - {a};
      }
      ContiguousIs();
      forall but: set<Address> | old(CaughtUp(but)) ensures CaughtUp(but) {
        CaughtUpIs(but);
        LessQueued(old(queue), queue);
        StaysCaughtUp(old(queue), queue, pendingNonces, pendingNonces, state.nonce, but);
      }
    }

    /** The homestead rules hold from now on. */
    method Advance()
      requires Valid()
      modifies this`homestead
      ensures Valid() && homestead && (old(Contiguous()) ==> Contiguous())
      ensures (old(CaughtUp({})) ==> CaughtUp({})) && (old(Solvent()) ==> Solvent())
    {
      homestead := true;
    }

    lemma ValidIs()
      ensures Valid() <==> ValidBut({})
    {
    }

    /** Takes over the chain state; no account has a pending nonce of its own any more. */
    method MoveTo(st: ChainState)
      requires Valid()
      modifies this`state, this`pendingNonces
      ensures Valid() && state == st && pendingNonces == map[] && Stand() == old(Stand()).Renewed()
    {
      state, pendingNonces := st, map[];
    }

    /** SyncNonces on the pool that demotion left. */
    method FollowNonces(ghost before: Snapshot) returns (ghost after: Snapshot)
      requires Valid() && Demotes(before.pending, before.queue, pending, queue, state, {})
      modifies this`pendingNonces
      ensures Valid() && after == Snapshot(pending, queue, pendingNonces, beats)
      ensures pendingNonces.Keys == old(pendingNonces).Keys + pending.Keys
      ensures forall a :: a in pending ==> pending[a] != map[]
      ensures forall a :: a in pendingNonces ==>
                pendingNonces[a] == if a in pending then Next(Greatest(pending[a])) else old(pendingNonces)[a]
    {
      NoEmptyAfterDemotion(before.pending, before.queue, pending, queue, state);
      SyncNonces();
      after := Snapshot(pending, queue, pendingNonces, beats);
    }

    /** The transactions were added as remote ones, and what they made executable was promoted. */
    ghost predicate Reinjected(txs: seq<Tx>, was: Standing, r: Reinjection, injected: Snapshot, now: int)
      reads this`gasPrice, this`state, this`homestead, this`locals
    {
      && |r.trail| == |r.errs| == |txs| && AddedAll(txs, false, was, r.trail, r.errs)
      && LastOf(r.trail, was) == r.added
      && var dirty := Dirty(txs, r.trail, r.errs);
         if dirty == {} then r.added.lists == injected
         else Settled(r.added.lists, r.mid, injected, config, state, locals, dirty, r.level, now)
    }

    lemma MeansReinjected(txs: seq<Tx>, was: Standing, r: Reinjection, injected: Snapshot, now: int)
      requires |r.trail| == |r.errs| == |txs| && AddedAll(txs, false, was, r.trail, r.errs)
      requires LastOf(r.trail, was) == r.added
      requires var dirty := Dirty(txs, r.trail, r.errs);
               if dirty == {} then r.added.lists == injected
               else Settled(r.added.lists, r.mid, injected, config, state, locals, dirty, r.level, now)
      ensures Reinjected(txs, was, r, injected, now)
    {
    }

    /** Adding a transaction leaves runs of pending nonces behind, and lets pending nonces only fall. */
    lemma AddedRuns(tx: Tx, local: bool, was: Standing, x: Adding, err: Option<TxError>, before: Address -> Uint64)
      requires AddedOne(tx, local, was, x, err) && RunsFrom(was.lists.pending, before)
      requires Sunk(was.lists.pending, was.lists.nonces, state.nonce)
      ensures RunsFrom(x.now.lists.pending, before) && Sunk(x.now.lists.pending, x.now.lists.nonces, state.nonce)
    {
      hide RunsFrom, Refusal, Discards, Removals, Files, NoncesFall, Sunk, Get;
      RemovalsRuns(was.Booked(), x.drop, before);
      RemovalsNone(was.Booked(), x.drop);
      assert RunsFrom(x.room.pending, before);
      if Refusal(tx, local, was.all, was.locals, gasPrice, state, homestead,
                 |was.all| >= config.globalSlots + config.globalQueue) == None
      {
        FilesRuns(x.room, x.now.Booked(), tx, config.priceBump, x.replaced, err, before);
        FilesKeys(x.room, x.now.Booked(), tx, config.priceBump, x.replaced, err);
      }
      SunkOn(was.lists.pending, x.room.pending, x.now.lists.pending, was.lists.nonces, x.now.lists.nonces, state.nonce,
             before);
    }

    lemma {:induction false} TrailRuns(txs: seq<Tx>, local: bool, was: Standing, trail: seq<Adding>,
                                       errs: seq<Option<TxError>>, before: Address -> Uint64, i: nat)
      requires AddedAll(txs, local, was, trail, errs) && RunsFrom(was.lists.pending, before) && i <= |trail|
      requires Sunk(was.lists.pending, was.lists.nonces, state.nonce)
      ensures var end := LastOf(trail[..i], was).lists;
              RunsFrom(end.pending, before) && Sunk(end.pending, end.nonces, state.nonce)
      decreases i
    {
      hide RunsFrom, AddedOne, Sunk;
      if i > 0 {
        TrailRuns(txs, local, was, trail, errs, before, i - 1);
        AddedRuns(txs[i - 1], local, LastOf(trail[..i - 1], was), trail[i - 1], errs[i - 1], before);
      }
    }

    /** What the reinjection promoted and what it cut. */
    lemma ReinjectedMeans(txs: seq<Tx>, was: Standing, r: Reinjection, injected: Snapshot, now: int,
                          before: Address -> Uint64)
      returns (mid: Snapshot)
      requires Reinjected(txs, was, r, injected, now) && was.lists.nonces == map[]
               && RunsFrom(was.lists.pending, before)
      ensures |r.trail| == |r.errs| == |txs|
      ensures Promotes(r.added.lists.pending, r.added.lists.queue, r.added.lists.nonces, mid.pending, mid.queue,
                       mid.nonces, state, locals, config.accountQueue, Dirty(txs, r.trail, r.errs))
      ensures Cuts(mid.pending, injected.pending)
      ensures NoncesFall(mid.pending, injected.pending, mid.nonces, injected.nonces, state.nonce)
      ensures forall a :: Get(injected.queue, a).Keys <= Get(mid.queue, a).Keys
      ensures RunsFrom(r.added.lists.pending, before)
      ensures Sunk(r.added.lists.pending, r.added.lists.nonces, state.nonce)
      ensures mid == if Dirty(txs, r.trail, r.errs) == {} then injected else r.mid
    {
      hide Settled, AddedAll, RunsFrom, Sunk, Cuts, Promotes, NoncesFall, Get;
      SunkNone(was.lists.pending, state.nonce);
      TrailRuns(txs, false, was, r.trail, r.errs, before, |r.trail|);
      assert r.trail[..|r.trail|] == r.trail;
      mid := if Dirty(txs, r.trail, r.errs) == {} then injected else r.mid;
      if Dirty(txs, r.trail, r.errs) == {} {
        PromotesNone(injected.pending, injected.queue, injected.nonces, state, locals, config.accountQueue);
        NoncesStay(injected.pending, injected.nonces, state.nonce);
        CutsNone(injected.pending);
      } else {
        SettledMeans(r.added.lists, r.mid, injected, config, state, locals, Dirty(txs, r.trail, r.errs), r.level, now);
      }
    }

    /** After a reinjection into a gap-free pool, the adjusted pool is gap-free exactly if no account is
        spoiled. */
    lemma ReinjectionRecovers(txs: seq<Tx>, was: Standing, r: Reinjection, injected: Snapshot, now: int, p': Table,
                              q': Table, before: Address -> Uint64)
      requires Reinjected(txs, was, r, injected, now) && Agree(r.added.lists.pending, r.added.lists.queue, r.added.all)
      requires was.lists.nonces == map[] && RunsFrom(was.lists.pending, before)
      requires Demotes(injected.pending, injected.queue, p', q', state, {})
      ensures Recovered(p', injected.nonces, state) <==> Intact(txs, r, injected.pending, state, before)
    {
      hide *;
      var mid := ReinjectedMeans(txs, was, r, injected, now, before);
      IntactIs(txs, r, injected.pending, state, before);
      RecoveredAll(r.added.lists, mid, injected, p', q', r.added.all, state, before, locals, config.accountQueue,
                   Dirty(txs, r.trail, r.errs));
    }

    /** If truncation left the promoted lists alone, the lists after the additions decide. */
    lemma UncutRecovers(txs: seq<Tx>, was: Standing, r: Reinjection, injected: Snapshot, now: int, p': Table,
                        q': Table, before: Address -> Uint64)
      requires Reinjected(txs, was, r, injected, now) && Agree(r.added.lists.pending, r.added.lists.queue, r.added.all)
      requires was.lists.nonces == map[] && RunsFrom(was.lists.pending, before)
      requires Demotes(injected.pending, injected.queue, p', q', state, {})
      requires Uncut(txs, r, injected.pending)
      ensures Recovered(p', injected.nonces, state) <==> Ungapped(txs, r, state, before)
    {
      hide *;
      var mid := ReinjectedMeans(txs, was, r, injected, now, before);
      var dirty := Dirty(txs, r.trail, r.errs);
      IntactIs(txs, r, injected.pending, state, before);
      ReinjectionRecovers(txs, was, r, injected, now, p', q', before);
      forall a ensures SpoiledAt(r.added.lists, injected.pending, state, before, dirty, a) <==>
                         Gapped(r.added.lists, state, before, dirty, a)
      {
        RunsAt(r.added.lists.pending, before, a);
        GappedExactly(r.added.lists, mid, r.added.all, state, before, locals, config.accountQueue, dirty, a);
      }
      UnspoiledIs(r.added.lists, injected.pending, state, before, dirty);
    }

    /** A pool that has not recovered stays with a gap in a promotion without truncation. */
    lemma GapStays(txs: seq<Tx>, was: Standing, r: Reinjection, injected: Snapshot, now: int, adjusted: Snapshot,
                   mid: Snapshot, after: Snapshot, level: nat, all: set<Tx>, before: Address -> Uint64)
      requires Reinjected(txs, was, r, injected, now) && Agree(r.added.lists.pending, r.added.lists.queue, r.added.all)
      requires was.lists.nonces == map[] && RunsFrom(was.lists.pending, before)
      requires Demotes(injected.pending, injected.queue, adjusted.pending, adjusted.queue, state, {})
      requires adjusted.nonces.Keys == injected.nonces.Keys + adjusted.pending.Keys
      requires forall a :: a in adjusted.nonces && a !in adjusted.pending ==> adjusted.nonces[a] == injected.nonces[a]
      requires forall a :: a in adjusted.pending ==> adjusted.pending[a] != map[]
      requires Agree(adjusted.pending, adjusted.queue, all) && mid.pending == after.pending
      requires Settled(adjusted, mid, after, config, state, locals, adjusted.queue.Keys, level, now)
      requires !Recovered(adjusted.pending, injected.nonces, state)
      ensures !GapFree(after.pending, after.nonces, state.nonce)
    {
      hide *;
      var cut := ReinjectedMeans(txs, was, r, injected, now, before);
      ReinjectionRecovers(txs, was, r, injected, now, adjusted.pending, adjusted.queue, before);
      IntactIs(txs, r, injected.pending, state, before);
      var dirty := Dirty(txs, r.trail, r.errs);
      var a := SomeoneSpoiled(r.added.lists, injected.pending, state, before, dirty);
      RunsAt(r.added.lists.pending, before, a);
      SpoiledShows(r.added.lists, cut, injected, adjusted.pending, adjusted.queue, r.added.all, state, before, locals,
                   config.accountQueue, dirty, a);
      TornNonce(injected, adjusted, state, a);
      TornStays(adjusted, mid, after, all, config, state, locals, adjusted.queue.Keys, level, now, a);
    }

    /** The pool has moved to a chain state: what a reorganisation put back was added, then the lists
        were adjusted to the state and the pending nonces to the lists, then what is executable was
        promoted. */
    ghost predicate Moved(st: ChainState, reinject: seq<Tx>, was: Standing, r: Reinjection, injected: Snapshot,
                          adjusted: Snapshot, mid: Snapshot, level: nat, now: int)
      reads this
    {
      && state == st && Reinjected(reinject, was, r, injected, now)
      && (reinject == [] ==> injected == was.lists)
      && Demotes(injected.pending, injected.queue, adjusted.pending, adjusted.queue, st, {})
      && adjusted.beats == injected.beats - (injected.pending.Keys - adjusted.pending.Keys)
      && adjusted.nonces.Keys == injected.nonces.Keys + adjusted.pending.Keys
      && (forall a :: a in adjusted.pending ==> adjusted.pending[a] != map[])
      && (forall a :: a in adjusted.nonces ==>
            adjusted.nonces[a] == if a in adjusted.pending then Next(Greatest(adjusted.pending[a]))
              else injected.nonces[a])
      && Settled(adjusted, mid, Snapshot(pending, queue, pendingNonces, beats), config, st, locals, adjusted.queue.Keys,
                 level, now)
    }

    /** Moves the pool to a new chain state, if there is one to be opened. The transactions that a
        reorganisation put back are added first; then the lists are adjusted to the state and what
        is executable promoted. The ghost results are the pool after the reinjection, after the
        adjustment, and between promotion and truncation. */
    method Reset(st: Option<ChainState>, reinject: seq<Tx>, now: int)
      returns (ghost r: Reinjection, ghost injected: Snapshot, ghost adjusted: Snapshot, ghost mid: Snapshot,
               ghost level: nat)
      requires Valid()
      modifies this, all, priced
      ensures Valid() && gasPrice == old(gasPrice) && locals == old(locals) && homestead == old(homestead)
      ensures st == None ==> unchanged(this) && unchanged(all) && unchanged(priced)
      ensures st.Some? ==> Moved(st.value, reinject, old(Stand()).Renewed(), r, injected, adjusted, mid, level, now)
      ensures st.Some? && old(Contiguous()) ==>
                (Recovered(adjusted.pending, injected.nonces, st.value) <==>
                 Intact(reinject, r, injected.pending, st.value, old(state).nonce))
      ensures st.Some? && old(Contiguous()) && Uncut(reinject, r, injected.pending) ==>
                (Recovered(adjusted.pending, injected.nonces, st.value) <==>
                 Ungapped(reinject, r, st.value, old(state).nonce))
      ensures st.Some? && Recovered(adjusted.pending, injected.nonces, st.value) ==>
                (Contiguous() <==> Unwrapped(adjusted.queue, adjusted.nonces, pending, state, adjusted.queue.Keys))
      ensures st.Some? && Recovered(adjusted.pending, injected.nonces, st.value) && config.accountSlots > 0 ==>
                (Contiguous() <==> NoneReachesLast(adjusted.queue, adjusted.nonces, state, adjusted.queue.Keys))
      ensures st.Some? && old(Contiguous()) && mid.pending == pending
              && !Recovered(adjusted.pending, injected.nonces, st.value) ==>
                !Contiguous()
      ensures st.Some? && reinject == [] && old(Contiguous()) ==>
                Recovered(adjusted.pending, injected.nonces, st.value)
      ensures reinject == [] && old(Contiguous()) && NoLast(old(all.all)) ==> Contiguous()
      ensures all.all <= old(all.all) + Elems(reinject)
      ensures st.Some? ==> Solvent() && CaughtUp({})
    {
      hide *;
      ContiguousIs();
      injected := Snapshot(pending, queue, pendingNonces, beats);
      adjusted, mid, level := injected, injected, 0;
      r := Reinjection([], [], Stand(), mid, level);
      if st == None {
        return;
      }
      ghost var was := Stand().Renewed();
      r, injected := Reinject(st.value, reinject, now);
      ghost var pooled := all.all;
      ValidMeans();
      adjusted := Adjust(injected, reinject == [] && old(Contiguous()), old(pending), old(pendingNonces),
                         old(state).nonce);
      ValidMeans();
      RecoveryAfter(old(Contiguous()), reinject, was, r, injected, now, old(pending), old(pendingNonces),
                    old(state).nonce);
      ghost var held := all.all;
      if reinject == [] {
        NoLastHeld(old(all.all), all.all);
        NeverLast(pending, queue, all.all, pendingNonces, st.value, queue.Keys);
      }
      EverybodyBehind(queue, pendingNonces, state.nonce);
      CaughtUpIs(queue.Keys);
      ghost var everybody := queue.Keys;
      mid, level := PromoteExecutables(queue.Keys, now);
      assert everybody - everybody == {};
      ValidMeans();
      SolventIs();
      MovedAffordable(injected.pending, injected.queue, pooled, adjusted, held, mid,
                      Snapshot(pending, queue, pendingNonces, beats), config, state, locals, level, now, all.all);
      ContiguousIs();
      if old(Contiguous()) && mid.pending == pending && !Recovered(adjusted.pending, injected.nonces, state) {
        GapStays(reinject, was, r, injected, now, adjusted, mid, Snapshot(pending, queue, pendingNonces, beats), level,
                 held, old(state).nonce);
      }
      MeansMoved(st.value, reinject, was, r, injected, adjusted, mid, level, now);
    }

    /** The exact conditions for the adjusted pool of a reset. */
    lemma RecoveryAfter(contiguous: bool, reinject: seq<Tx>, was: Standing, r: Reinjection, injected: Snapshot,
                        now: int,
                        p: Table, nonces: map<Address, nat>, before: Address -> Uint64)
      requires Reinjected(reinject, was, r, injected, now)
      requires Agree(r.added.lists.pending, r.added.lists.queue, r.added.all)
      requires Demotes(injected.pending, injected.queue, pending, queue, state, {})
      requires was.lists.nonces == map[] && was.lists.pending == p && (contiguous ==> GapFree(p, nonces, before))
      ensures contiguous ==> RunsFrom(p, before)
      ensures contiguous ==> (Recovered(pending, injected.nonces, state) <==>
                              Intact(reinject, r, injected.pending, state, before))
      ensures contiguous && Uncut(reinject, r, injected.pending) ==>
                (Recovered(pending, injected.nonces, state) <==> Ungapped(reinject, r, state, before))
    {
      hide *;
      if contiguous {
        GapFreeRuns(p, nonces, before);
        ReinjectionRecovers(reinject, was, r, injected, now, pending, queue, before);
        if Uncut(reinject, r, injected.pending) {
          UncutRecovers(reinject, was, r, injected, now, pending, queue, before);
        }
      }
    }

    lemma MeansMoved(st: ChainState, reinject: seq<Tx>, was: Standing, r: Reinjection, injected: Snapshot,
                     adjusted: Snapshot, mid: Snapshot, level: nat, now: int)
      requires state == st && Reinjected(reinject, was, r, injected, now)
      requires reinject == [] ==> injected == was.lists
      requires Demotes(injected.pending, injected.queue, adjusted.pending, adjusted.queue, st, {})
      requires adjusted.beats == injected.beats - (injected.pending.Keys - adjusted.pending.Keys)
      requires adjusted.nonces.Keys == injected.nonces.Keys + adjusted.pending.Keys
      requires forall a :: a in adjusted.pending ==> adjusted.pending[a] != map[]
      requires forall a :: a in adjusted.nonces ==>
                 adjusted.nonces[a] == if a in adjusted.pending then Next(Greatest(adjusted.pending[a]))
                   else injected.nonces[a]
      requires Settled(adjusted, mid, Snapshot(pending, queue, pendingNonces, beats), config, st, locals,
                       adjusted.queue.Keys, level, now)
      ensures Moved(st, reinject, was, r, injected, adjusted, mid, level, now)
    {
      hide Reinjected, Demotes, Settled, Next, Greatest;
    }

    /** Takes over the chain state and adds what a reorganisation put back. */
    method Reinject(st: ChainState, reinject: seq<Tx>, now: int)
      returns (ghost r: Reinjection, ghost injected: Snapshot)
      requires Valid()
      modifies this, all, priced
      ensures Valid() && state == st && gasPrice == old(gasPrice) && locals == old(locals)
              && homestead == old(homestead)
      ensures all.all <= old(all.all) + Elems(reinject) && injected == Snapshot(pending, queue, pendingNonces, beats)
      ensures Reinjected(reinject, old(Stand()).Renewed(), r, injected, now)
      ensures Agree(r.added.lists.pending, r.added.lists.queue, r.added.all)
              && old(Stand()).Renewed().lists.pending == old(pending)
              && old(Stand()).Renewed().lists.nonces == map[]
      ensures reinject == [] ==>
                injected == old(Stand()).Renewed().lists && pending == old(pending) && pendingNonces == map[]
                  && all.all == old(all.all)
    {
      hide *;
      MoveTo(st);
      StandIs();
      ghost var was, errs, trail, added, m, l := Stand(), [], [], Stand(), Stand().lists, 0;
      errs, trail, added, m, l := AddTxs(reinject, false, now);
      StandIs();
      injected := Stand().lists;
      r := Reinjection(trail, errs, added, m, l);
      MeansReinjected(reinject, was, r, injected, now);
    }

    /** Adjusts the lists to the chain state and the pending nonces to the lists. */
    method Adjust(ghost injected: Snapshot, ghost calm: bool, ghost p: Table, ghost nonces: map<Address, nat>,
                  ghost before: Address -> Uint64)
      returns (ghost adjusted: Snapshot)
      requires Valid() && injected == Snapshot(pending, queue, pendingNonces, beats)
      requires calm ==> pending == p && pendingNonces == map[] && GapFree(p, nonces, before)
      modifies this`pending, this`queue, this`beats, this`pendingNonces, all, priced
      ensures Valid() && all.all <= old(all.all) && adjusted == Snapshot(pending, queue, pendingNonces, beats)
      ensures Demotes(injected.pending, injected.queue, adjusted.pending, adjusted.queue, state, {})
      ensures adjusted.beats == injected.beats - (injected.pending.Keys - adjusted.pending.Keys)
      ensures adjusted.nonces.Keys == injected.nonces.Keys + adjusted.pending.Keys
      ensures forall a :: a in adjusted.pending ==> adjusted.pending[a] != map[]
      ensures forall a :: a in adjusted.nonces ==>
                adjusted.nonces[a] == if a in adjusted.pending then Next(Greatest(adjusted.pending[a]))
                  else injected.nonces[a]
      ensures Contiguous() <==> Recovered(pending, injected.nonces, state)
      ensures calm ==> Recovered(pending, injected.nonces, state)
    {
      hide *;
      ValidMeans();
      DemoteUnexecutables();
      adjusted := FollowNonces(injected);
      ResetGapFree(injected.pending, injected.queue, injected.nonces, pending, queue, pendingNonces, state,
                   old(all.all));
      ContiguousIs();
      if calm {
        GapFreeRecovers(injected.pending, injected.queue, nonces, before, pending, queue, state);
      }
    }
  }

  /** What can happen to a pool. */
  datatype Op =
    | AddOne(tx: Tx, local: bool)
    | AddMany(txs: seq<Tx>, local: bool)
    | Remove(tx: Tx, outOfBound: bool)
    | SetPrice(price: nat)
    | EvictOld(lifetime: int)
    | NewHead(state: Option<ChainState>, reinject: seq<Tx>, homestead: bool)

  /** The step neither puts transactions back nor adds one with the last nonce. */
  ghost predicate Calm(op: Op) {
    match op
    case AddOne(tx, _) => tx.nonce < TWO_64 - 1
    case AddMany(txs, _) => forall t :: t in txs ==> t.nonce < TWO_64 - 1
    case NewHead(_, reinject, _) => reinject == []
    case _ => true
  }

  lemma CalmMeans(op: Op, all: set<Tx>)
    requires Calm(op) && NoLast(all)
    ensures op.AddOne? ==> NoLast(all + {op.tx})
    ensures op.AddMany? ==> NoLast(all + Elems(op.txs))
    ensures op.NewHead? ==> op.reinject == [] && NoLast(all + Elems(op.reinject))
  {
  }

  method Step(pool: TxPool, op: Op, now: int)
    requires pool.Valid()
    modifies pool, pool.all, pool.priced
    ensures pool.Valid()
    ensures old(pool.Contiguous() && NoLast(pool.all.all)) && Calm(op) ==> pool.Contiguous() && NoLast(pool.all.all)
    ensures (old(pool.Solvent()) ==> pool.Solvent()) && (old(pool.CaughtUp({})) ==> pool.CaughtUp({}))
  {
    hide *;
    pool.SolventIs();
    if Calm(op) && NoLast(pool.all.all) {
      CalmMeans(op, pool.all.all);
    }
    match op
    case AddOne(tx, local) =>
      ghost var r, b, d, s, u, m, l;
      var err;
      err, r, b, d, s, u, m, l := pool.AddTx(tx, local, now);
      NoLastHeld(old(pool.all.all) + {tx}, pool.all.all);
    case AddMany(txs, local) =>
      ghost var t, s, m, l;
      var errs;
      errs, t, s, m, l := pool.AddTxs(txs, local, now);
      NoLastHeld(old(pool.all.all) + Elems(txs), pool.all.all);
    case Remove(tx, outOfBound) =>
      pool.ValidIs();
      pool.RemoveTx(tx, outOfBound, {});
      pool.SolventAfter(old(pool.all.all));
      pool.ValidIs();
      NoLastHeld(old(pool.all.all), pool.all.all);
    case SetPrice(price) =>
      var drop := pool.SetGasPrice(price);
      pool.SolventAfter(old(pool.all.all));
      NoLastHeld(old(pool.all.all), pool.all.all);
    case EvictOld(lifetime) =>
      pool.Evict(now, lifetime);
      pool.SolventAfter(old(pool.all.all));
      NoLastHeld(old(pool.all.all), pool.all.all);
    case NewHead(state, reinject, homestead) =>
      if homestead { pool.Advance(); }
      ghost var r, i, a, m, l := pool.Reset(state, reinject, now);
      NoLastHeld(old(pool.all.all) + Elems(reinject), pool.all.all);
  }

  /** The pool over every run: a transaction is pooled exactly when one of the two lists of its
      sender holds it, never both. Every pooled transaction can be paid for in the chain state at a
      nonce that is not used up, and no queued one is at the pending nonce of its sender or below. As
      long as every step is calm, the pending nonces of every account run without a gap from its state
      nonce up to its pending nonce. */
  method Run(config: Config, priceLimit: nat, state: ChainState, locals: set<Address>, ops: seq<Op>, times: seq<int>)
    returns (pool: TxPool)
    requires |times| == |ops|
    ensures fresh(pool) && fresh(pool.all) && fresh(pool.priced)
    ensures forall t: Tx :: t in pool.all.all <==>
              Holds(Get(pool.pending, t.from), t) != Holds(Get(pool.queue, t.from), t)
    ensures forall a, n :: !(n in Get(pool.pending, a) && n in Get(pool.queue, a))
    ensures Covers(pool.priced.items, pool.all.all)
    ensures forall t: Tx :: t in pool.all.all ==>
              && pool.state.nonce(t.from) <= t.nonce && t.gas <= pool.state.maxGas
              && t.gasPrice * t.gas + t.value <= pool.state.balance(t.from)
    ensures forall a, n :: n in Get(pool.queue, a) ==> n > pool.PendingNonce(a)
    ensures (forall op :: op in ops ==> Calm(op)) ==>
              forall a :: GapFreeAt(Get(pool.pending, a), pool.state.nonce(a), pool.PendingNonce(a))
  {
    hide Agree, NoEmptyList, GapFree, Calm;
    pool := new TxPool(config, priceLimit, state, locals);
    for i := 0 to |ops|
      invariant fresh(pool) && fresh(pool.all) && fresh(pool.priced)
      invariant pool.Valid() && pool.Solvent() && pool.CaughtUp({})
      invariant (forall op :: op in ops ==> Calm(op)) ==> pool.Contiguous() && NoLast(pool.all.all)
    {
      assert ops[i] in ops;
      Step(pool, ops[i], times[i]);
    }
    RunEnds(pool);
  }

  lemma RunEnds(pool: TxPool)
    requires pool.Valid() && pool.Solvent() && pool.CaughtUp({})
    ensures forall t: Tx :: t in pool.all.all <==>
              Holds(Get(pool.pending, t.from), t) != Holds(Get(pool.queue, t.from), t)
    ensures forall a, n :: !(n in Get(pool.pending, a) && n in Get(pool.queue, a))
    ensures Covers(pool.priced.items, pool.all.all)
    ensures forall t: Tx :: t in pool.all.all ==>
              && pool.state.nonce(t.from) <= t.nonce && t.gas <= pool.state.maxGas
              && t.gasPrice * t.gas + t.value <= pool.state.balance(t.from)
    ensures forall a, n :: n in Get(pool.queue, a) ==> n > pool.PendingNonce(a)
    ensures pool.Contiguous() ==> forall a :: GapFreeAt(Get(pool.pending, a), pool.state.nonce(a), pool.PendingNonce(a))
  {
    forall t: Tx ensures t in pool.all.all <==>
        Holds(Get(pool.pending, t.from), t) != Holds(Get(pool.queue, t.from), t) {
      PooledExactlyOnce(pool.pending, pool.queue, pool.all.all, t);
    }
    forall a, n ensures !(n in Get(pool.pending, a) && n in Get(pool.queue, a)) {
      assert AgreeAt(Get(pool.pending, a), Get(pool.queue, a), pool.all.all, a);
    }
    forall a, n | n in Get(pool.queue, a) ensures n > pool.PendingNonce(a) {
      assert AllAbove(Get(pool.queue, a), NonceOf(pool.pendingNonces, pool.state.nonce, a));
    }
  }
}
