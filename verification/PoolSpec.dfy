/** What the redundant structures of the transaction pool have to do with one another
    (kernel/tx_pool.go): the per-account lists of `pending` and `queue`, the lookup of all pooled
    transactions and the nonce overrides of the pending state. */
module PoolSpec {
  import opened Wrappers
  import opened Transactions
  import opened TxLists
  import opened Intrinsic

  type Table = map<Address, Items>

  /** What the pool reads from the chain state it is based on. */
  datatype ChainState = ChainState(nonce: Address -> Uint64, balance: Address -> int, maxGas: nat)

  /** The list of an account; an account without a list has no transactions. */
  function Get(m: Table, a: Address): Items {
    if a in m then m[a] else map[]
  }

  /** Sets the list of an account, keeping no empty list. */
  function Store(m: Table, a: Address, list: Items): Table {
    if list == map[] then m - {a} else m[a := list]
  }

  /** The list holds exactly this transaction under its nonce. */
  ghost predicate Holds(list: Items, t: Tx) {
    t.nonce in list && list[t.nonce] == t
  }

  /** Transactions of a single sender, each under its own nonce. */
  ghost predicate Filed(list: Items, a: Address) {
    forall n :: n in list ==> list[n].nonce == n && list[n].from == a
  }

  /** For one account: no nonce is both pending and queued, and the lookup knows exactly the
      transactions that are pending or queued. */
  ghost predicate AgreeAt(pending: Items, queued: Items, all: set<Tx>, a: Address) {
    && Filed(pending, a) && Filed(queued, a)
    && pending.Keys !! queued.Keys
    && forall t: Tx :: t.from == a ==> (t in all <==> Holds(pending, t) || Holds(queued, t))
  }

  ghost predicate Agree(pending: Table, queue: Table, all: set<Tx>) {
    forall a {:trigger AgreeAt(Get(pending, a), Get(queue, a), all, a)} ::
        AgreeAt(Get(pending, a), Get(queue, a), all, a)
  }

  ghost predicate NoEmptyList(m: Table) {
    forall a :: a in m ==> m[a] != map[]
  }

  /** For one account: the pending nonces are exactly those from the state nonce up to the
      pending nonce. */
  ghost predicate GapFreeAt(pending: Items, stateNonce: nat, pendingNonce: nat) {
    stateNonce <= pendingNonce && forall n :: n in pending <==> stateNonce <= n < pendingNonce
  }

  /** A gap-free list is as long as the distance between the two nonces. */
  lemma {:induction false} GapFreeLength(pending: Items, stateNonce: nat, pendingNonce: nat)
    requires GapFreeAt(pending, stateNonce, pendingNonce)
    ensures pendingNonce == stateNonce + |pending|
    decreases pendingNonce - stateNonce
  {
    if stateNonce < pendingNonce {
      var rest := pending - {stateNonce};
      assert rest.Keys == pending.Keys - {stateNonce};
      GapFreeLength(rest, stateNonce + 1, pendingNonce);
    } else {
      assert pending.Keys == {};
    }
  }

  /** A step that touches a single account keeps the agreement if it keeps that account's. */
  lemma AccountStep(p: Table, q: Table, all: set<Tx>, p': Table, q': Table, all': set<Tx>, a: Address)
    requires Agree(p, q, all)
    requires forall b :: b != a ==> Get(p', b) == Get(p, b) && Get(q', b) == Get(q, b)
    requires forall t: Tx :: t.from != a ==> (t in all <==> t in all')
    requires AgreeAt(Get(p', a), Get(q', a), all', a)
    ensures Agree(p', q', all')
  {
    forall b ensures AgreeAt(Get(p', b), Get(q', b), all', b) {
      if b != a {
        assert AgreeAt(Get(p, b), Get(q, b), all, b);
      }
    }
  }

  /** The whole agreement, transaction by transaction: a transaction is pooled exactly when it
      is filed in exactly one of the two lists of its sender. */
  lemma PooledExactlyOnce(p: Table, q: Table, all: set<Tx>, t: Tx)
    requires Agree(p, q, all)
    ensures t in all <==> Holds(Get(p, t.from), t) != Holds(Get(q, t.from), t)
    ensures !(t.nonce in Get(p, t.from) && t.nonce in Get(q, t.from))
  {
    assert AgreeAt(Get(p, t.from), Get(q, t.from), all, t.from);
  }

  lemma AgreesAt(p: Table, q: Table, all: set<Tx>, a: Address)
    requires Agree(p, q, all)
    ensures AgreeAt(Get(p, a), Get(q, a), all, a)
  {
  }

  /** Removing a pending transaction demotes everything above it. */
  lemma RemovePending(p: Items, q: Items, all: set<Tx>, a: Address, tx: Tx)
    requires AgreeAt(p, q, all, a) && Holds(p, tx)
    ensures AgreeAt(Below(p, tx.nonce), q + From(p, tx.nonce + 1), all - {tx}, a)
  {
    var p', q', all' := Below(p, tx.nonce), q + From(p, tx.nonce + 1), all - {tx};
    forall t: Tx | t.from == a ensures t in all' <==> Holds(p', t) || Holds(q', t) {
      assert t in all <==> Holds(p, t) || Holds(q, t);
    }
  }

  lemma RemoveQueued(p: Items, q: Items, all: set<Tx>, a: Address, tx: Tx)
    requires AgreeAt(p, q, all, a) && Holds(q, tx)
    ensures AgreeAt(p, q - {tx.nonce}, all - {tx}, a)
  {
    forall t: Tx | t.from == a ensures t in all - {tx} <==> Holds(p, t) || Holds(q - {tx.nonce}, t) {
      assert t in all <==> Holds(p, t) || Holds(q, t);
    }
  }

  /** What the pool looks like after promoting `done` for account a, `next` being the nonce
      after the last of them. */
  ghost predicate Promoted(p: Table, nonces: map<Address, nat>, beats: map<Address, int>,
                           p': Table, nonces': map<Address, nat>, beats': map<Address, int>,
                           a: Address, done: Items, next: nat, now: int)
  {
    if done == map[] then p' == p && nonces' == nonces && beats' == beats
    else p' == p[a := Get(p, a) + done] && nonces' == nonces[a := next] && beats' == beats[a := now]
  }

  lemma PromotedNone(p: Table, nonces: map<Address, nat>, beats: map<Address, int>, a: Address, now: int)
    ensures Promoted(p, nonces, beats, p, nonces, beats, a, map[], 0, now) && Get(p, a) == Get(p, a) + map[]
  {
  }

  lemma PromotedOne(p: Table, nonces: map<Address, nat>, beats: map<Address, int>,
                    p': Table, nonces': map<Address, nat>, beats': map<Address, int>,
                    a: Address, done: Items, next: nat, now: int, t: Tx)
    requires Promoted(p, nonces, beats, p', nonces', beats', a, done, next, now)
    requires Get(p', a) == Get(p, a) + done
    ensures var next' := Next(t.nonce);
            && Promoted(p, nonces, beats, p'[a := Plus(Get(p', a), t)], nonces'[a := next'], beats'[a := now],
                        a, Plus(done, t), next', now)
            && Get(p'[a := Plus(Get(p', a), t)], a) == Get(p, a) + Plus(done, t)
  {
    assert Plus(Get(p', a), t) == Get(p, a) + Plus(done, t);
    assert t.nonce in Plus(done, t);
  }

  lemma PromotedMeans(p: Table, nonces: map<Address, nat>, beats: map<Address, int>,
                      p': Table, nonces': map<Address, nat>, beats': map<Address, int>,
                      a: Address, done: Items, next: nat, now: int)
    requires Promoted(p, nonces, beats, p', nonces', beats', a, done, next, now)
    ensures p' == if done == map[] then p else p[a := Get(p, a) + done]
    ensures nonces' == if done == map[] then nonces else nonces[a := next]
    ensures beats' == if done == map[] then beats else beats[a := now]
  {
  }

  lemma StoreSame(m: Table, a: Address)
    requires NoEmptyList(m)
    ensures Store(m, a, Get(m, a)) == m && Get(m, a) + map[] == Get(m, a)
  {
  }

  lemma StorePlus(m: Table, m': Table, a: Address, done: Items, t: Tx)
    requires m' == Store(m, a, Get(m', a)) && Get(m', a) == Get(m, a) + done
    ensures var list := Plus(Get(m', a), t);
            m'[a := list] == Store(m, a, list) && list == Get(m, a) + Plus(done, t)
  {
    assert t.nonce in Plus(Get(m', a), t);
  }

  /** What removing a transaction does to the two tables. */
  ghost predicate Removed(p: Table, q: Table, all: set<Tx>, p': Table, q': Table, tx: Tx) {
    var a := tx.from;
    if tx !in all then p' == p && q' == q
    else if Holds(Get(p, a), tx) then
      && p' == Store(p, a, Below(Get(p, a), tx.nonce))
      && q' == Store(q, a, Get(q, a) + From(Get(p, a), tx.nonce + 1))
    else p' == p && q' == Store(q, a, Get(q, a) - {tx.nonce})
  }

  /** The lists and the lookup of the pool. */
  datatype Books = Books(pending: Table, queue: Table, all: set<Tx>)

  /** The books after removing a transaction. */
  ghost function Removal(b: Books, tx: Tx): (r: Books)
    ensures Removed(b.pending, b.queue, b.all, r.pending, r.queue, tx) && r.all == b.all - {tx}
  {
    var a := tx.from;
    if tx !in b.all then b
    else if Holds(Get(b.pending, a), tx) then
      Books(Store(b.pending, a, Below(Get(b.pending, a), tx.nonce)),
            Store(b.queue, a, Get(b.queue, a) + From(Get(b.pending, a), tx.nonce + 1)), b.all - {tx})
    else Books(b.pending, Store(b.queue, a, Get(b.queue, a) - {tx.nonce}), b.all - {tx})
  }

  ghost function Removals(b: Books, txs: seq<Tx>): Books {
    if txs == [] then b else Removal(Removals(b, txs[..|txs| - 1]), txs[|txs| - 1])
  }

  lemma RemovedIs(p: Table, q: Table, all: set<Tx>, p': Table, q': Table, tx: Tx)
    requires Removed(p, q, all, p', q', tx)
    ensures Removal(Books(p, q, all), tx) == Books(p', q', all - {tx})
  {
  }

  lemma StoreKeys(m: Table, a: Address, list: Items)
    ensures Store(m, a, list).Keys == if list == map[] then m.Keys - {a} else m.Keys + {a}
  {
  }

  /** Removing takes an account out of the pending table exactly when its list is emptied. */
  lemma RemovedKeys(p: Table, q: Table, all: set<Tx>, p': Table, q': Table, tx: Tx)
    requires Removed(p, q, all, p', q', tx)
    ensures p'.Keys == if tx in all && Holds(Get(p, tx.from), tx) && tx.from !in p' then p.Keys - {tx.from} else p.Keys
    ensures tx in all && Holds(Get(p, tx.from), tx) ==> tx.from in p
  {
  }

  lemma RemovalsNone(b: Books, txs: seq<Tx>)
    ensures Removals(b, txs[..0]) == b
  {
  }

  lemma RemovalsMore(b: Books, txs: seq<Tx>, i: nat)
    requires i < |txs|
    ensures Removals(b, txs[..i + 1]) == Removal(Removals(b, txs[..i]), txs[i])
  {
    assert txs[..i + 1][..i] == txs[..i];
  }

  lemma {:induction false} RemovalsAll(b: Books, txs: seq<Tx>)
    ensures Removals(b, txs).all == b.all - Elems(txs)
    decreases |txs|
  {
    if txs != [] {
      RemovalsAll(b, txs[..|txs| - 1]);
      PrefixElems(txs, |txs| - 1);
      assert txs[..|txs|] == txs;
    }
  }

  lemma RemovedAgree(p: Table, q: Table, all: set<Tx>, p': Table, q': Table, tx: Tx)
    requires Agree(p, q, all) && NoEmptyList(q) && tx in all && Removed(p, q, all, p', q', tx)
    ensures Agree(p', q', all - {tx}) && NoEmptyList(q')
  {
    var a := tx.from;
    assert AgreeAt(Get(p, a), Get(q, a), all, a);
    if Holds(Get(p, a), tx) {
      RemovePending(Get(p, a), Get(q, a), all, a, tx);
      StoreGet(p, a, Below(Get(p, a), tx.nonce));
      StoreGet(q, a, Get(q, a) + From(Get(p, a), tx.nonce + 1));
    } else {
      RemoveQueued(Get(p, a), Get(q, a), all, a, tx);
      StoreGet(q, a, Get(q, a) - {tx.nonce});
    }
    AccountStep(p, q, all, p', q', all - {tx}, a);
  }

  lemma StoreGet(m: Table, a: Address, list: Items)
    ensures Get(Store(m, a, list), a) == list
    ensures forall b :: b != a ==> Get(Store(m, a, list), b) == Get(m, b)
    ensures NoEmptyList(m) ==> NoEmptyList(Store(m, a, list))
  {
  }

  lemma RemovePendingParts(p: Items, q: Items, all: set<Tx>, a: Address, tx: Tx)
    requires AgreeAt(p, q, all, a) && tx in all && tx.from == a && tx.nonce in p
    ensures Holds(p, tx)
    ensures var above := From(p, tx.nonce + 1);
            Filed(above, a) && Keyed(above) && above.Values <= all - {tx} && above.Keys !! q.Keys
  {
    assert Holds(p, tx) || Holds(q, tx);
    var above := From(p, tx.nonce + 1);
    KeyedValues(above);
    forall t | t in above.Values ensures t in all - {tx} {
      assert Holds(p, t);
    }
  }

  /** keep is a part of list. */
  ghost predicate Part(keep: Items, list: Items) {
    keep.Keys <= list.Keys && forall n :: n in keep ==> keep[n] == list[n]
  }

  /** Taking transactions out of a list and out of the lookup keeps the account's agreement. */
  lemma ShrinkAgree(p: Items, q: Items, all: set<Tx>, a: Address, keep: Items)
    requires AgreeAt(p, q, all, a) && Part(keep, q)
    ensures AgreeAt(p, keep, all - (q - keep.Keys).Values, a)
    ensures Keyed(q - keep.Keys) && forall t :: t in (q - keep.Keys).Values ==> t.from == a
  {
    var gone := q - keep.Keys;
    KeyedValues(gone);
    forall t: Tx | t.from == a ensures t in all - gone.Values <==> Holds(p, t) || Holds(keep, t) {
      assert t in all <==> Holds(p, t) || Holds(q, t);
    }
  }

  lemma ShrinkQueueAgrees(p: Table, q: Table, all: set<Tx>, a: Address, keep: Items)
    requires Agree(p, q, all) && a in q && Part(keep, q[a])
    ensures Agree(p, q[a := keep], all - (q[a] - keep.Keys).Values) && Keyed(q[a] - keep.Keys)
  {
    assert AgreeAt(Get(p, a), Get(q, a), all, a);
    ShrinkAgree(Get(p, a), q[a], all, a, keep);
    AccountStep(p, q, all, p, q[a := keep], all - (q[a] - keep.Keys).Values, a);
  }

  lemma ShrinkPendingAgrees(p: Table, q: Table, all: set<Tx>, a: Address, keep: Items)
    requires Agree(p, q, all) && a in p && Part(keep, p[a])
    ensures Agree(p[a := keep], q, all - (p[a] - keep.Keys).Values) && Keyed(p[a] - keep.Keys)
  {
    assert AgreeAt(Get(p, a), Get(q, a), all, a);
    assert AgreeAt(Get(q, a), Get(p, a), all, a);
    ShrinkAgree(Get(q, a), p[a], all, a, keep);
    AccountStep(p, q, all, p[a := keep], q, all - (p[a] - keep.Keys).Values, a);
  }

  /** What is left of a queued list once stale and unaffordable transactions are gone. */
  function Payable(q: Items, stateNonce: nat, balance: int, maxGas: nat): Items {
    Unless(From(q, stateNonce), TooDear(balance, maxGas))
  }

  /** The run that Ready takes out of a list. */
  lemma ReadyRun(q: Items, start: nat)
    ensures var end := ReadyEnd(q, start);
            && (Below(q, end) != map[] ==> end > 0 && end - 1 in Below(q, end) && Least(q) <= start)
            && (forall n :: n in Below(q, end) ==> n < end)
            && (forall n :: n in Below(q, end) <==> n in q && n < end)
  {
  }

  /** Moving the low part of the queued list to the pending list keeps the agreement. */
  lemma MoveAgrees(p: Table, q: Table, all: set<Tx>, a: Address, end: nat)
    requires Agree(p, q, all) && a in q
    ensures var m := Below(q[a], end);
            && Keyed(m) && m.Values <= all && m.Keys !! Get(p, a).Keys
            && Agree(if m == map[] then p else p[a := Get(p, a) + m], q[a := From(q[a], end)], all)
  {
    hide Agree, AgreeAt, Holds, Filed, Below, From, Keyed;
    var m := Below(q[a], end);
    AgreesAt(p, q, all, a);
    MoveAgreesAt(Get(p, a), q[a], all, a, end);
    var p' := if m == map[] then p else p[a := Get(p, a) + m];
    var q' := q[a := From(q[a], end)];
    assert Get(p', a) == Get(p, a) + m;
    AccountStep(p, q, all, p', q', all, a);
  }

  lemma MoveAgreesAt(p: Items, q: Items, all: set<Tx>, a: Address, end: nat)
    requires AgreeAt(p, q, all, a)
    ensures var m := Below(q, end);
            && Keyed(m) && m.Values <= all && m.Keys !! p.Keys
            && AgreeAt(p + m, From(q, end), all, a)
  {
    var m := Below(q, end);
    KeyedValues(m);
    forall t | t in m.Values ensures t in all {
      assert Holds(q, t);
    }
    forall t: Tx | t.from == a ensures t in all <==> Holds(p + m, t) || Holds(From(q, end), t) {
      assert t in all <==> Holds(p, t) || Holds(q, t);
    }
  }

  /** An empty list is as good as no list. */
  lemma DropEmptyAgrees(p: Table, q: Table, all: set<Tx>, a: Address)
    requires Agree(p, q, all) && a in q && q[a] == map[]
    ensures Agree(p, q - {a}, all)
  {
    assert AgreeAt(Get(p, a), Get(q, a), all, a);
    AccountStep(p, q, all, p, q - {a}, all, a);
  }

  lemma FiledKeyed(m: Items, a: Address)
    requires Filed(m, a)
    ensures Keyed(m)
  {
  }

  lemma StoreIsUpdate(m: Table, a: Address, list: Items)
    ensures Store(m, a, list) == if list == map[] then m[a := list] - {a} else m[a := list]
  {
  }

  lemma StoreOver(m: Table, a: Address, x: Items, list: Items)
    ensures Store(m[a := x], a, list) == Store(m, a, list) && m[a := x] - {a} == m - {a}
    ensures NoEmptyList(m - {a}) ==> NoEmptyList(Store(m, a, list))
    ensures NoEmptyList(m) ==> NoEmptyList(m - {a})
  {
    if NoEmptyList(m - {a}) {
      forall b | b in Store(m, a, list) ensures Store(m, a, list)[b] != map[] {
        if b != a { assert b in m - {a}; }
      }
    }
  }

  /** The nonce the pending state reports: an override, or else the state nonce. */
  function NonceOf(nonces: map<Address, nat>, state: Address -> Uint64, a: Address): nat {
    if a in nonces then nonces[a] else state(a)
  }

  /** For every account, the pending list is a gap-free run of nonces from the state nonce up to
      the pending nonce. */
  ghost predicate GapFree(p: Table, nonces: map<Address, nat>, state: Address -> Uint64) {
    forall a {:trigger GapFreeAt(Get(p, a), state(a), NonceOf(nonces, state, a))} ::
      GapFreeAt(Get(p, a), state(a), NonceOf(nonces, state, a)) && NonceOf(nonces, state, a) < TWO_64
  }

  /** A step that touches a single account stays gap-free if that account does. */
  lemma GapFreeStep(p: Table, nonces: map<Address, nat>, state: Address -> Uint64,
                    p': Table, nonces': map<Address, nat>, a: Address)
    requires GapFree(p, nonces, state)
    requires forall b :: b != a ==> Get(p', b) == Get(p, b) && NonceOf(nonces', state, b) == NonceOf(nonces, state, b)
    requires GapFreeAt(Get(p', a), state(a), NonceOf(nonces', state, a)) && NonceOf(nonces', state, a) < TWO_64
    ensures GapFree(p', nonces', state)
  {
    forall b ensures GapFreeAt(Get(p', b), state(b), NonceOf(nonces', state, b))
      && NonceOf(nonces', state, b) < TWO_64 {
      if b != a {
        assert GapFreeAt(Get(p, b), state(b), NonceOf(nonces, state, b));
      }
    }
  }

  /** Removing a transaction leaves no gap. */
  lemma RemovedGapFree(p: Table, q: Table, all: set<Tx>, p': Table, q': Table, tx: Tx,
                       nonces: map<Address, nat>, state: Address -> Uint64)
    requires Removed(p, q, all, p', q', tx) && GapFree(p, nonces, state)
    ensures var nonces' := if Holds(Get(p, tx.from), tx) && NonceOf(nonces, state, tx.from) > tx.nonce
                           then nonces[tx.from := tx.nonce] else nonces;
            tx in all ==> GapFree(p', nonces', state)
  {
    if tx in all {
      var a := tx.from;
      assert GapFreeAt(Get(p, a), state(a), NonceOf(nonces, state, a));
      var fall := Holds(Get(p, a), tx) && NonceOf(nonces, state, a) > tx.nonce;
      GapFreeStep(p, nonces, state, p', if fall then nonces[a := tx.nonce] else nonces, a);
    }
  }

  /** A gap-free list that loses its upper part, with the nonce fallback, stays gap-free. */
  lemma CutGapFree(m: Items, m': Items, stateNonce: nat, n: nat, n': nat)
    requires GapFreeAt(m, stateNonce, n) && FallsTo(m, m', n, n')
    requires forall k, l :: k in m && l in m' && k < l ==> k in m'
    ensures GapFreeAt(m', stateNonce, n')
  {
    if n' == n {
      forall k | k in m ensures k in m' {
      }
    } else {
      forall k | k in m && k < n' ensures k in m' {
      }
    }
  }

  /** A list behind whose last nonce the counter has wrapped around to zero is not gap-free, and
      no cut makes it so, unless nothing of it is left. */
  lemma WrappedStays(m: Items, m': Items, stateNonce: nat, n': nat)
    requires FallsTo(m, m', 0, n')
    ensures GapFreeAt(m', stateNonce, n') <==> stateNonce == 0 && m' == map[]
  {
    assert n' == 0;
    assert m' != map[] ==> exists k :: k in m';
  }

  /** The ready run of a list that starts no earlier than pending ends continues it. */
  lemma RunContinues(p: Items, list: Items, stateNonce: nat, pn: nat)
    requires GapFreeAt(p, stateNonce, pn) && forall n :: n in list ==> stateNonce <= n && n !in p
    ensures var end := ReadyEnd(list, pn);
            Below(list, end) != map[] ==> end > 0 && end - 1 in list && GapFreeAt(p + Below(list, end), stateNonce, end)
  {
    var end := ReadyEnd(list, pn);
    ReadyRun(list, pn);
    if Below(list, end) != map[] {
      assert forall n :: n in list ==> pn <= n;
      assert Least(list) == pn;
      forall n ensures n in p + Below(list, end) <==> stateNonce <= n < end {
      }
    }
  }

  /** Promoting a non-empty ready run leaves no gap exactly if the run ends before the last 64-bit
      nonce: behind that one the pending nonce wraps around to zero. */
  lemma RunPromotes(p: Items, list: Items, stateNonce: nat, pn: nat)
    requires GapFreeAt(p, stateNonce, pn) && forall n :: n in list ==> stateNonce <= n < TWO_64 && n !in p
    ensures var end := ReadyEnd(list, pn);
            && end <= TWO_64 && (Below(list, end) == map[] ==> end != TWO_64)
            && (Below(list, end) != map[] ==>
                  end > 0 && (GapFreeAt(p + Below(list, end), stateNonce, Next(end - 1)) <==> end != TWO_64))
  {
    var end := ReadyEnd(list, pn);
    RunContinues(p, list, stateNonce, pn);
    if Below(list, end) != map[] {
      assert end - 1 in p + Below(list, end);
    } else {
      assert end > 0 ==> Least(list) in Below(list, end);
    }
  }

  /** The ready run of an account's queued list reaches the last 64-bit nonce. */
  ghost predicate ReachesLast(q: Table, nonces: map<Address, nat>, state: ChainState, a: Address) {
    var list := Payable(Get(q, a), state.nonce(a), state.balance(a), state.maxGas);
    ReadyEnd(list, NonceOf(nonces, state.nonce, a)) == TWO_64
  }

  lemma PayableIsPart(q: Items, stateNonce: nat, balance: int, maxGas: nat)
    ensures forall n :: n in Payable(q, stateNonce, balance, maxGas) ==> n in q && stateNonce <= n
  {
  }

  lemma LowestOfAllButOne(m: Items)
    requires m != map[]
    ensures Lowest(m, |m| - 1) == m - {Greatest(m)} && Part(Lowest(m, |m| - 1), m)
    ensures |m - {Greatest(m)}| == |m| - 1
  {
    assert (m - {Greatest(m)}).Keys == m.Keys - {Greatest(m)};
  }

  lemma RestFiled(m: Table, a: Address, rest: Items, n: nat)
    requires Filed(rest, a)
    ensures Filed(rest - {n}, a) && Store(Store(m, a, rest), a, rest - {n}) == Store(m, a, rest - {n})
    ensures Get(Store(m, a, rest - {n}), a) == rest - {n}
  {
  }

  /** Nothing changes for an account. */
  ghost predicate SameAt(p: Table, q: Table, nonces: map<Address, nat>, p': Table, q': Table,
                         nonces': map<Address, nat>, state: ChainState, a: Address)
  {
    Get(p', a) == Get(p, a) && Get(q', a) == Get(q, a)
      && NonceOf(nonces', state.nonce, a) == NonceOf(nonces, state.nonce, a)
  }

  /** The queued list of an account is tidied and its ready run promoted; what is left is capped
      unless the account is local. */
  ghost predicate PromotedAt(p: Table, q: Table, nonces: map<Address, nat>, p': Table, q': Table,
                             nonces': map<Address, nat>, state: ChainState, locals: set<Address>, cap: nat, a: Address)
  {
    var list := Payable(Get(q, a), state.nonce(a), state.balance(a), state.maxGas);
    var end := ReadyEnd(list, NonceOf(nonces, state.nonce, a));
    && Get(p', a) == Get(p, a) + Below(list, end)
    && Get(q', a) == (if a in locals then From(list, end) else Lowest(From(list, end), cap))
    && NonceOf(nonces', state.nonce, a) ==
         (if Below(list, end) == map[] then NonceOf(nonces, state.nonce, a) else Next(end - 1))
  }

  /** Promotion of a set of accounts. */
  ghost predicate Promotes(p: Table, q: Table, nonces: map<Address, nat>, p': Table, q': Table,
                           nonces': map<Address, nat>,
                           state: ChainState, locals: set<Address>, cap: nat, accounts: set<Address>)
  {
    forall a {:trigger PromotedAt(p, q, nonces, p', q', nonces', state, locals, cap, a)}
             {:trigger SameAt(p, q, nonces, p', q', nonces', state, a)} ::
      if a in accounts then PromotedAt(p, q, nonces, p', q', nonces', state, locals, cap, a)
      else SameAt(p, q, nonces, p', q', nonces', state, a)
  }

  /** One account has been promoted and the others left alone. */
  ghost predicate PromotesJust(p: Table, q: Table, nonces: map<Address, nat>, p': Table, q': Table,
                               nonces': map<Address, nat>,
                               state: ChainState, locals: set<Address>, cap: nat, a: Address)
  {
    && PromotedAt(p, q, nonces, p', q', nonces', state, locals, cap, a)
    && forall b {:trigger SameAt(p, q, nonces, p', q', nonces', state, b)} :: b != a ==>
         SameAt(p, q, nonces, p', q', nonces', state, b)
  }

  /** Promotion leaves an account gap-free unless its ready run reaches the last nonce. */
  lemma PromotedGapFree(p: Table, q: Table, all: set<Tx>, nonces: map<Address, nat>,
                        p': Table, q': Table, nonces': map<Address, nat>,
                        state: ChainState, locals: set<Address>, cap: nat, accounts: set<Address>, a: Address)
    requires Agree(p, q, all) && GapFree(p, nonces, state.nonce)
    requires Promotes(p, q, nonces, p', q', nonces', state, locals, cap, accounts)
    ensures GapFreeAt(Get(p', a), state.nonce(a), NonceOf(nonces', state.nonce, a))
            <==> !(a in accounts && ReachesLast(q, nonces, state, a))
    ensures NonceOf(nonces', state.nonce, a) < TWO_64
    ensures a in accounts && ReachesLast(q, nonces, state, a) ==> NonceOf(nonces', state.nonce, a) == 0
  {
    hide Payable, ReadyEnd, Below, Lowest, From;
    var list := Payable(Get(q, a), state.nonce(a), state.balance(a), state.maxGas);
    assert GapFreeAt(Get(p, a), state.nonce(a), NonceOf(nonces, state.nonce, a));
    if a in accounts {
      assert PromotedAt(p, q, nonces, p', q', nonces', state, locals, cap, a);
      assert AgreeAt(Get(p, a), Get(q, a), all, a);
      PayableIsPart(Get(q, a), state.nonce(a), state.balance(a), state.maxGas);
      QueuedNonces(Get(q, a), a);
      RunPromotes(Get(p, a), list, state.nonce(a), NonceOf(nonces, state.nonce, a));
      NothingAdded(Get(p, a));
    } else {
      assert SameAt(p, q, nonces, p', q', nonces', state, a);
    }
  }

  lemma QueuedNonces(list: Items, a: Address)
    requires Filed(list, a)
    ensures forall n :: n in list ==> n < TWO_64
  {
    forall n | n in list ensures n < TWO_64 {
      assert list[n].nonce == n;
    }
  }

  lemma NothingAdded(p: Items)
    ensures p + map[] == p
  {
  }

  /** Promoting a set of accounts leaves the pool gap-free exactly if no ready run among them
      reaches the last nonce. */
  lemma PromotesGapFree(p: Table, q: Table, all: set<Tx>, nonces: map<Address, nat>,
                        p': Table, q': Table, nonces': map<Address, nat>,
                        state: ChainState, locals: set<Address>, cap: nat, accounts: set<Address>)
    requires Agree(p, q, all) && GapFree(p, nonces, state.nonce)
    requires Promotes(p, q, nonces, p', q', nonces', state, locals, cap, accounts)
    ensures GapFree(p', nonces', state.nonce) <==> forall a :: a in accounts ==> !ReachesLast(q, nonces, state, a)
  {
    hide Agree, Promotes, ReachesLast, GapFreeAt;
    forall a ensures GapFreeAt(Get(p', a), state.nonce(a), NonceOf(nonces', state.nonce, a))
                     <==> !(a in accounts && ReachesLast(q, nonces, state, a))
             ensures NonceOf(nonces', state.nonce, a) < TWO_64
    {
      PromotedGapFree(p, q, all, nonces, p', q', nonces', state, locals, cap, accounts, a);
    }
    forall a | a in accounts && ReachesLast(q, nonces, state, a) ensures !GapFree(p', nonces', state.nonce) {
      assert !GapFreeAt(Get(p', a), state.nonce(a), NonceOf(nonces', state.nonce, a));
    }
  }

  /** The pending nonce falls to the least nonce that left the list, if it was above it. */
  ghost predicate FallsTo(m: Items, m': Items, n: nat, n': nat) {
    && m'.Keys <= m.Keys && n' <= n && (n' == n || (n' in m && n' !in m'))
    && forall k :: k in m && k !in m' ==> n' <= k
  }

  ghost predicate NoncesFall(p: Table, p': Table, nonces: map<Address, nat>, nonces': map<Address, nat>,
                             state: Address -> Uint64) {
    forall a {:trigger FallsTo(Get(p, a), Get(p', a), NonceOf(nonces, state, a), NonceOf(nonces', state, a))} ::
      FallsTo(Get(p, a), Get(p', a), NonceOf(nonces, state, a), NonceOf(nonces', state, a))
  }

  lemma NoncesStay(p: Table, nonces: map<Address, nat>, state: Address -> Uint64)
    ensures NoncesFall(p, p, nonces, nonces, state)
  {
  }

  lemma NoncesFallOn(p: Table, p1: Table, p2: Table, nonces: map<Address, nat>, nonces1: map<Address, nat>,
                     nonces2: map<Address, nat>, state: Address -> Uint64)
    requires NoncesFall(p, p1, nonces, nonces1, state) && NoncesFall(p1, p2, nonces1, nonces2, state)
    ensures NoncesFall(p, p2, nonces, nonces2, state)
  {
    hide Get, NonceOf;
    forall a ensures FallsTo(Get(p, a), Get(p2, a), NonceOf(nonces, state, a), NonceOf(nonces2, state, a)) {
      assert FallsTo(Get(p, a), Get(p1, a), NonceOf(nonces, state, a), NonceOf(nonces1, state, a));
      assert FallsTo(Get(p1, a), Get(p2, a), NonceOf(nonces1, state, a), NonceOf(nonces2, state, a));
    }
  }

  /** One account loses the upper part of its pending list, from some nonce on. */
  lemma NoncesFallAt(p: Table, p': Table, nonces: map<Address, nat>, nonces': map<Address, nat>,
                     state: Address -> Uint64, a: Address, from: nat)
    requires forall b :: b != a ==> Get(p', b) == Get(p, b)
    requires from in Get(p, a) && Get(p', a) == Below(Get(p, a), from)
    requires nonces' == if NonceOf(nonces, state, a) > from then nonces[a := from] else nonces
    ensures NoncesFall(p, p', nonces, nonces', state)
  {
    forall b ensures FallsTo(Get(p, b), Get(p', b), NonceOf(nonces, state, b), NonceOf(nonces', state, b)) {
      if b != a {
        assert Get(p', b) == Get(p, b);
      }
    }
  }

  lemma AllButTop(m: Items)
    requires m != map[]
    ensures Lowest(m, |m| - 1) == Below(m, Greatest(m))
  {
    LowestOfAllButOne(m);
  }

  lemma RemovedNoncesFall(p: Table, q: Table, all: set<Tx>, p': Table, q': Table, tx: Tx,
                          nonces: map<Address, nat>, nonces': map<Address, nat>, state: Address -> Uint64)
    requires Removed(p, q, all, p', q', tx)
    requires nonces' == if tx in all && Holds(Get(p, tx.from), tx) && NonceOf(nonces, state, tx.from) > tx.nonce
                        then nonces[tx.from := tx.nonce] else nonces
    ensures NoncesFall(p, p', nonces, nonces', state)
  {
    if tx in all && Holds(Get(p, tx.from), tx) {
      StoreGet(p, tx.from, Below(Get(p, tx.from), tx.nonce));
      NoncesFallAt(p, p', nonces, nonces', state, tx.from, tx.nonce);
    } else {
      NoncesStay(p, nonces, state);
    }
  }

  /** Exactly the accounts whose pending list changed have a new heartbeat. */
  ghost predicate Beaten(p: Table, p': Table, beats: map<Address, int>, beats': map<Address, int>, now: int) {
    && (forall a :: a in beats' <==> a in beats || Get(p', a) != Get(p, a))
    && (forall a :: a in beats' ==> beats'[a] == if Get(p', a) != Get(p, a) then now else beats[a])
  }

  lemma BeatenNone(p: Table, beats: map<Address, int>, now: int)
    ensures Beaten(p, p, beats, beats, now)
  {
  }

  lemma BeatenOne(p: Table, q: Table, nonces: map<Address, nat>, p1: Table, q1: Table, nonces1: map<Address, nat>,
                  p2: Table, q2: Table, nonces2: map<Address, nat>, state: ChainState, locals: set<Address>, cap: nat,
                  done: set<Address>, a: Address, beats: map<Address, int>, beats1: map<Address, int>,
                  beats2: map<Address, int>, now: int)
    requires Beaten(p, p1, beats, beats1, now) && a !in done
    requires Promotes(p, q, nonces, p1, q1, nonces1, state, locals, cap, done)
    requires PromotesJust(p1, q1, nonces1, p2, q2, nonces2, state, locals, cap, a)
    requires beats2 == if Get(p2, a) == Get(p1, a) then beats1 else beats1[a := now]
    ensures Beaten(p, p2, beats, beats2, now)
  {
    hide PromotedAt, Get;
    assert SameAt(p, q, nonces, p1, q1, nonces1, state, a);
    forall b | b != a ensures Get(p2, b) == Get(p1, b) {
      assert SameAt(p1, q1, nonces1, p2, q2, nonces2, state, b);
    }
  }

  lemma GrowsOrNot(p: Items, more: Items)
    requires p.Keys !! more.Keys
    ensures p + more == p <==> more == map[]
  {
    if more != map[] {
      var n :| n in more;
      assert n in p + more;
    }
  }

  lemma PromotesAt(p: Table, q: Table, nonces: map<Address, nat>, p': Table, q': Table, nonces': map<Address, nat>,
                   state: ChainState, locals: set<Address>, cap: nat, accounts: set<Address>, a: Address)
    requires Promotes(p, q, nonces, p', q', nonces', state, locals, cap, accounts)
    ensures a in accounts ==> PromotedAt(p, q, nonces, p', q', nonces', state, locals, cap, a)
    ensures a !in accounts ==> SameAt(p, q, nonces, p', q', nonces', state, a)
  {
    hide PromotedAt;
    var _ := PromotedAt(p, q, nonces, p', q', nonces', state, locals, cap, a);
  }

  lemma PromotesNone(p: Table, q: Table, nonces: map<Address, nat>, state: ChainState, locals: set<Address>, cap: nat)
    ensures Promotes(p, q, nonces, p, q, nonces, state, locals, cap, {})
  {
  }

  lemma PromotesOne(p: Table, q: Table, nonces: map<Address, nat>, p1: Table, q1: Table, nonces1: map<Address, nat>,
                    p2: Table, q2: Table, nonces2: map<Address, nat>,
                    state: ChainState, locals: set<Address>, cap: nat, done: set<Address>, a: Address)
    requires Promotes(p, q, nonces, p1, q1, nonces1, state, locals, cap, done) && a !in done
    requires PromotesJust(p1, q1, nonces1, p2, q2, nonces2, state, locals, cap, a)
    ensures Promotes(p, q, nonces, p2, q2, nonces2, state, locals, cap, done + {a})
  {
    hide SameAt, PromotedAt;
    forall b ensures if b in done + {a} then PromotedAt(p, q, nonces, p2, q2, nonces2, state, locals, cap, b)
                     else SameAt(p, q, nonces, p2, q2, nonces2, state, b)
    {
      AtMost(p, q, nonces, p1, q1, nonces1, p2, q2, nonces2, state, locals, cap, b);
      if b != a {
        assert SameAt(p1, q1, nonces1, p2, q2, nonces2, state, b);
      }
      if b !in done {
        assert SameAt(p, q, nonces, p1, q1, nonces1, state, b);
      } else {
        assert PromotedAt(p, q, nonces, p1, q1, nonces1, state, locals, cap, b);
      }
    }
  }

  /** At an account, a promotion and steps that change nothing compose to a promotion. */
  lemma AtMost(p: Table, q: Table, nonces: map<Address, nat>, p1: Table, q1: Table, nonces1: map<Address, nat>,
               p2: Table, q2: Table, nonces2: map<Address, nat>, state: ChainState, locals: set<Address>, cap: nat,
               a: Address)
    ensures SameAt(p, q, nonces, p1, q1, nonces1, state, a) && SameAt(p1, q1, nonces1, p2, q2, nonces2, state, a)
            ==> SameAt(p, q, nonces, p2, q2, nonces2, state, a)
    ensures SameAt(p, q, nonces, p1, q1, nonces1, state, a)
            && PromotedAt(p1, q1, nonces1, p2, q2, nonces2, state, locals, cap, a)
            ==> PromotedAt(p, q, nonces, p2, q2, nonces2, state, locals, cap, a)
    ensures PromotedAt(p, q, nonces, p1, q1, nonces1, state, locals, cap, a)
            && SameAt(p1, q1, nonces1, p2, q2, nonces2, state, a)
            ==> PromotedAt(p, q, nonces, p2, q2, nonces2, state, locals, cap, a)
  {
    hide Payable, ReadyEnd, Below, From, Lowest, Get, NonceOf, Next;
  }

  /** What the promotion of an account amounts to, list by list. */
  lemma AccountPromoted(p: Table, q: Table, nonces: map<Address, nat>, p': Table, q': Table, nonces': map<Address, nat>,
                        state: ChainState, locals: set<Address>, cap: nat, a: Address)
    requires a in q
    requires var list := Payable(q[a], state.nonce(a), state.balance(a), state.maxGas);
             var end := ReadyEnd(list, NonceOf(nonces, state.nonce, a));
             var none := Below(list, end) == map[];
             && q' == Store(q, a, if a in locals then From(list, end) else Lowest(From(list, end), cap))
             && p' == (if none then p else p[a := Get(p, a) + Below(list, end)])
             && nonces' == (if none then nonces else nonces[a := Next(end - 1)])
    ensures PromotesJust(p, q, nonces, p', q', nonces', state, locals, cap, a)
  {
    hide Payable, ReadyEnd, Below, From, Lowest, Next, Store, SameAt, NonceOf;
    var list := Payable(q[a], state.nonce(a), state.balance(a), state.maxGas);
    var end := ReadyEnd(list, NonceOf(nonces, state.nonce, a));
    var rest := From(list, end);
    ReadyRun(list, NonceOf(nonces, state.nonce, a));
    JustOne(p, q, nonces, p', q', nonces', state, a, Below(list, end), if a in locals then rest else Lowest(rest, cap),
            if Below(list, end) == map[] then 0 else Next(end - 1));
  }

  /** A step that extends the pending list of an account, sets its queued list, and its pending
      nonce if the pending list got longer. */
  lemma JustOne(p: Table, q: Table, nonces: map<Address, nat>, p': Table, q': Table, nonces': map<Address, nat>,
                state: ChainState, a: Address, run: Items, left: Items, next: nat)
    requires q' == Store(q, a, left) && p' == (if run == map[] then p else p[a := Get(p, a) + run])
    requires nonces' == if run == map[] then nonces else nonces[a := next]
    ensures Get(p', a) == Get(p, a) + run && Get(q', a) == left
    ensures NonceOf(nonces', state.nonce, a) == if run == map[] then NonceOf(nonces, state.nonce, a) else next
    ensures forall b {:trigger SameAt(p, q, nonces, p', q', nonces', state, b)} :: b != a ==>
              SameAt(p, q, nonces, p', q', nonces', state, b)
  {
    NothingAdded(Get(p, a));
  }

  lemma NothingToPromote(p: Table, q: Table, nonces: map<Address, nat>, state: ChainState, locals: set<Address>,
                         cap: nat, a: Address)
    requires a !in q
    ensures PromotesJust(p, q, nonces, p, q, nonces, state, locals, cap, a)
  {
    var list := Payable(Get(q, a), state.nonce(a), state.balance(a), state.maxGas);
    assert list == map[];
  }

  /** What stays pending of a list when the chain state changes: the affordable part from the
      state nonce on, provided it starts there. */
  function StillPending(p: Items, stateNonce: nat, dear: Tx -> bool): Items {
    var kept := Kept(From(p, stateNonce), true, dear);
    if stateNonce in kept then kept else map[]
  }

  /** What is queued again. */
  function Demoted(p: Items, stateNonce: nat, dear: Tx -> bool): Items {
    var list := From(p, stateNonce);
    var kept := Kept(list, true, dear);
    Invalidated(list, true, dear) + if stateNonce in kept then map[] else kept
  }

  /** Demotion keeps the agreement of an account once the rest of its list is forgotten. */
  lemma DemoteAgree(p: Items, q: Items, all: set<Tx>, a: Address, stay: Items, back: Items)
    requires AgreeAt(p, q, all, a) && Part(stay, p) && Part(back, p) && stay.Keys !! back.Keys
    ensures AgreeAt(stay, q + back, all - (p - stay.Keys - back.Keys).Values, a)
    ensures Keyed(p - stay.Keys - back.Keys) && back.Values <= all - (p - stay.Keys - back.Keys).Values
    ensures Filed(back, a) && back.Keys !! q.Keys
  {
    var gone := p - stay.Keys - back.Keys;
    KeyedValues(gone);
    forall t: Tx | t.from == a ensures t in all - gone.Values <==> Holds(stay, t) || Holds(q + back, t) {
      assert t in all <==> Holds(p, t) || Holds(q, t);
    }
    KeyedValues(back);
    forall t | t in back.Values ensures t in all - gone.Values {
      assert Holds(p, t);
    }
  }

  lemma FilterParts(list: Items, dear: Tx -> bool)
    ensures Part(Kept(list, true, dear), list) && Part(Invalidated(list, true, dear), list)
    ensures Kept(list, true, dear).Keys !! Invalidated(list, true, dear).Keys
  {
    FilterPartitions(list, true, dear);
  }

  lemma SplitAgrees(p: Table, q: Table, all: set<Tx>, a: Address, stay: Items, back: Items)
    requires Agree(p, q, all) && a in p && Part(stay, p[a]) && Part(back, p[a]) && stay.Keys !! back.Keys
    ensures var gone := p[a] - stay.Keys - back.Keys;
            && Keyed(gone) && Filed(back, a) && Keyed(back) && back.Values <= all - gone.Values
               && back.Keys !! Get(q, a).Keys
            && Agree(p[a := stay], Store(q, a, Get(q, a) + back), all - gone.Values)
  {
    assert AgreeAt(Get(p, a), Get(q, a), all, a);
    DemoteAgree(p[a], Get(q, a), all, a, stay, back);
    StoreGet(q, a, Get(q, a) + back);
    var gone := p[a] - stay.Keys - back.Keys;
    KeyedValues(gone);
    AccountStep(p, q, all, p[a := stay], Store(q, a, Get(q, a) + back), all - gone.Values, a);
  }

  /** The two steps of a demotion add up to StillPending and Demoted. */
  lemma DemoteTwice(q: Table, a: Address, p: Items, stateNonce: nat, dear: Tx -> bool)
    ensures var list := From(p, stateNonce);
            var kept, first := Kept(list, true, dear), Invalidated(list, true, dear);
            var once := Store(q, a, Get(q, a) + first);
            && (stateNonce in kept ==> once == Store(q, a, Get(q, a) + Demoted(p, stateNonce, dear)))
            && (stateNonce !in kept ==>
                Store(once, a, Get(once, a) + kept) == Store(q, a, Get(q, a) + Demoted(p, stateNonce, dear)))
            && (kept == map[] ==> once == Store(q, a, Get(q, a) + Demoted(p, stateNonce, dear)))
  {
    var list := From(p, stateNonce);
    var kept, first := Kept(list, true, dear), Invalidated(list, true, dear);
    StoreGet(q, a, Get(q, a) + first);
    assert first + map[] == first;
    assert Get(q, a) + first + kept == Get(q, a) + (first + kept);
    StoreOver2(q, a, Get(q, a) + first, Get(q, a) + first + kept);
  }

  lemma StoreOver2(m: Table, a: Address, x: Items, y: Items)
    ensures Store(Store(m, a, x), a, y) == Store(m, a, y)
  {
  }

  /** From the state nonce on, no nonce is missing between two of the list, and the last 64-bit
      nonce is not among them. */
  ghost predicate Unbroken(p: Items, stateNonce: nat) {
    && TWO_64 - 1 !in p
    && forall n, k {:trigger n in p, k in p} :: n in p && k in p && stateNonce <= n ==> forall m :: n <= m <= k ==>
         m in p
  }

  lemma GapFreeUnbroken(p: Items, low: nat, high: nat, stateNonce: nat)
    requires GapFreeAt(p, low, high) && high < TWO_64
    ensures Unbroken(p, stateNonce)
  {
  }

  /** A list without holes from the new state nonce on has none after its demotion. */
  lemma DemoteUnbroken(p: Items, stateNonce: nat, dear: Tx -> bool)
    requires Unbroken(p, stateNonce)
    ensures Unbroken(StillPending(p, stateNonce, dear), stateNonce)
  {
    var stay := StillPending(p, stateNonce, dear);
    var list := From(p, stateNonce);
    forall n, k, m | n in stay && k in stay && stateNonce <= n <= m <= k ensures m in stay {
      assert n in p && k in p;
      assert m in list;
      assert dear(list[m]) ==> m in Where(list, dear);
    }
  }

  /** What demotion leaves of a list, with the nonce behind its last, is gap-free exactly if it has
      no hole: it starts at the state nonce if it is not empty. */
  lemma DemoteGapFree(p: Items, stateNonce: nat, dear: Tx -> bool)
    requires forall n :: n in p ==> n < TWO_64
    ensures var stay := StillPending(p, stateNonce, dear);
            stay != map[] ==>
              (GapFreeAt(stay, stateNonce, Next(Greatest(stay))) <==> Unbroken(stay, stateNonce))
              && Next(Greatest(stay)) < TWO_64
  {
    var stay := StillPending(p, stateNonce, dear);
    if stay != map[] {
      var top := Greatest(stay);
      assert stateNonce in stay && top in stay && top in p;
      if top == TWO_64 - 1 {
      } else if Unbroken(stay, stateNonce) {
        assert forall n :: n in stay <==> stateNonce <= n <= top;
      } else if GapFreeAt(stay, stateNonce, Next(top)) {
        GapFreeUnbroken(stay, stateNonce, top + 1, stateNonce);
      }
    }
  }

  lemma FromIsPart(list: Items, n: nat)
    ensures Part(From(list, n), list)
  {
  }

  lemma DropEmptyPending(p: Table, q: Table, all: set<Tx>, a: Address)
    requires Agree(p, q, all) && a in p && p[a] == map[]
    ensures Agree(p - {a}, q, all)
  {
    assert AgreeAt(Get(p, a), Get(q, a), all, a);
    AccountStep(p, q, all, p - {a}, q, all, a);
  }

  /** The lists of an account are adjusted to the chain state. */
  ghost predicate DemotedAt(p: Table, q: Table, p': Table, q': Table, state: ChainState, a: Address) {
    var dear := TooDear(state.balance(a), state.maxGas);
    && Get(p', a) == StillPending(Get(p, a), state.nonce(a), dear)
    && Get(q', a) == Get(q, a) + Demoted(Get(p, a), state.nonce(a), dear)
  }

  /** The lists of all accounts outside todo are adjusted to the chain state; no pending list
      among them is empty. */
  ghost predicate Demotes(p: Table, q: Table, p': Table, q': Table, state: ChainState, todo: set<Address>) {
    && (forall a {:trigger DemotedAt(p, q, p', q', state, a)} ::
          if a in todo then Get(p', a) == Get(p, a) && Get(q', a) == Get(q, a) else DemotedAt(p, q, p', q', state, a))
    && (forall a :: a in p' ==> a in p && (a in todo || p'[a] != map[]))
    && todo <= p'.Keys
  }

  lemma DemotesAt(p: Table, q: Table, p': Table, q': Table, state: ChainState, a: Address)
    requires Demotes(p, q, p', q', state, {})
    ensures DemotedAt(p, q, p', q', state, a)
  {
    hide StillPending, Demoted, TooDear, Get;
    var _ := DemotedAt(p, q, p', q', state, a);
  }

  lemma DemotesNone(p: Table, q: Table, state: ChainState)
    ensures Demotes(p, q, p, q, state, p.Keys)
  {
    forall a | a !in p ensures DemotedAt(p, q, p, q, state, a) {
      var dear := TooDear(state.balance(a), state.maxGas);
      assert From(Get(p, a), state.nonce(a)) == map[];
      assert Where(map[], dear) == map[] && Unless(map[], dear) == map[];
      assert Get(q, a) + map[] == Get(q, a);
    }
  }

  lemma StoreIs(m: Table, a: Address, list: Items)
    ensures Get(Store(m, a, list), a) == list && forall b :: b != a ==> Get(Store(m, a, list), b) == Get(m, b)
    ensures forall b :: b in Store(m, a, list) <==> (b in m && b != a) || (b == a && list != map[])
    ensures forall b :: b in m && b != a ==> Store(m, a, list)[b] == m[b]
    ensures list != map[] ==> Store(m, a, list)[a] == list
  {
  }

  lemma GetIs(m: Table, a: Address)
    requires a in m
    ensures Get(m, a) == m[a]
  {
  }

  lemma DemotesOne(p: Table, q: Table, p1: Table, q1: Table, p2: Table, q2: Table, state: ChainState,
                   todo: set<Address>, a: Address)
    requires Demotes(p, q, p1, q1, state, todo) && a in todo && a in p1
    requires var dear := TooDear(state.balance(a), state.maxGas);
             && p2 == Store(p1, a, StillPending(p1[a], state.nonce(a), dear))
             && q2 == Store(q1, a, Get(q1, a) + Demoted(p1[a], state.nonce(a), dear))
    ensures Demotes(p, q, p2, q2, state, todo - {a}) && todo - {a} <= p2.Keys
  {
    hide StillPending, Demoted, TooDear, Store, Get, DemotedAt;
    var dear := TooDear(state.balance(a), state.maxGas);
    StoreIs(p1, a, StillPending(p1[a], state.nonce(a), dear));
    StoreIs(q1, a, Get(q1, a) + Demoted(p1[a], state.nonce(a), dear));
    GetIs(p1, a);
    var _ := DemotedAt(p, q, p1, q1, state, a);
    MeansDemoted(p, q, p2, q2, state, a);
    forall b ensures if b in todo - {a} then Get(p2, b) == Get(p, b) && Get(q2, b) == Get(q, b)
                     else DemotedAt(p, q, p2, q2, state, b)
    {
      var _ := DemotedAt(p, q, p1, q1, state, b);
      DemotedStays(p, q, p1, q1, p2, q2, state, b);
    }
  }

  lemma MeansDemoted(p: Table, q: Table, p': Table, q': Table, state: ChainState, a: Address)
    ensures var dear := TooDear(state.balance(a), state.maxGas);
            && Get(p', a) == StillPending(Get(p, a), state.nonce(a), dear)
            && Get(q', a) == Get(q, a) + Demoted(Get(p, a), state.nonce(a), dear)
            ==> DemotedAt(p, q, p', q', state, a)
  {
  }

  lemma DemotedStays(p: Table, q: Table, p1: Table, q1: Table, p2: Table, q2: Table, state: ChainState, b: Address)
    ensures DemotedAt(p, q, p1, q1, state, b) && Get(p2, b) == Get(p1, b) && Get(q2, b) == Get(q1, b) ==>
              DemotedAt(p, q, p2, q2, state, b)
  {
  }

  /** After the move to a new chain state an account is gap-free: what is pending of it has no
      hole, or nothing is and its pending nonce is its state nonce. */
  ghost predicate RecoveredAt(p: Table, nonces: map<Address, nat>, state: ChainState, a: Address) {
    if a in p then Unbroken(p[a], state.nonce(a)) else NonceOf(nonces, state.nonce, a) == state.nonce(a)
  }

  ghost predicate Recovered(p: Table, nonces: map<Address, nat>, state: ChainState) {
    forall a {:trigger RecoveredAt(p, nonces, state, a)} :: RecoveredAt(p, nonces, state, a)
  }

  /** The pool that has moved to a new chain state, with the pending nonces restarting behind what
      is still pending, is gap-free exactly if every account has recovered. */
  lemma ResetGapFree(p: Table, q: Table, nonces: map<Address, nat>,
                     p': Table, q': Table, nonces': map<Address, nat>, state: ChainState, all: set<Tx>)
    requires Demotes(p, q, p', q', state, {}) && Agree(p, q, all)
    requires nonces'.Keys == nonces.Keys + p'.Keys && forall a :: a in p' ==> p'[a] != map[]
    requires forall a :: a in nonces' ==> nonces'[a] == if a in p' then Next(Greatest(p'[a])) else nonces[a]
    ensures GapFree(p', nonces', state.nonce) <==> Recovered(p', nonces, state)
  {
    hide StillPending, Demoted, Unbroken, TooDear;
    forall a ensures GapFreeAt(Get(p', a), state.nonce(a), NonceOf(nonces', state.nonce, a)) <==>
        RecoveredAt(p', nonces, state, a)
             ensures RecoveredAt(p', nonces, state, a) ==> NonceOf(nonces', state.nonce, a) < TWO_64
    {
      assert DemotedAt(p, q, p', q', state, a);
      assert AgreeAt(Get(p, a), Get(q, a), all, a);
      QueuedNonces(Get(p, a), a);
      DemoteGapFree(Get(p, a), state.nonce(a), TooDear(state.balance(a), state.maxGas));
      NothingGapFree(state.nonce(a), NonceOf(nonces', state.nonce, a));
    }
  }

  lemma NothingGapFree(stateNonce: nat, pendingNonce: nat)
    ensures GapFreeAt(map[], stateNonce, pendingNonce) <==> stateNonce == pendingNonce
  {
    var none: Items := map[];
    assert stateNonce !in none;
  }

  /** A gap-free pool recovers from any move of the chain state. */
  lemma GapFreeRecovers(p: Table, q: Table, nonces: map<Address, nat>, before: Address -> Uint64,
                        p': Table, q': Table, state: ChainState)
    requires GapFree(p, nonces, before) && Demotes(p, q, p', q', state, {})
    ensures Recovered(p', map[], state)
  {
    hide StillPending, Demoted, Unbroken, TooDear, GapFreeAt;
    forall a ensures RecoveredAt(p', map[], state, a) {
      assert DemotedAt(p, q, p', q', state, a);
      assert GapFreeAt(Get(p, a), before(a), NonceOf(nonces, before, a));
      GapFreeUnbroken(Get(p, a), before(a), NonceOf(nonces, before, a), state.nonce(a));
      DemoteUnbroken(Get(p, a), state.nonce(a), TooDear(state.balance(a), state.maxGas));
    }
  }

  /** The list is a run of nonces from a given one on, if it is not empty. */
  ghost predicate RunFrom(p: Items, first: nat) {
    exists n: nat :: n < TWO_64 && GapFreeAt(p, first, n)
  }

  datatype TxError =
    | Known
    | OversizedData | NegativeValue | GasLimit | InvalidSender | Underpriced | NonceTooLow | InsufficientFunds
    | OutOfGas | IntrinsicGasTooLow
    | ReplaceUnderpriced

  const MAX_TX_SIZE := 32 * 1024

  /** The first objection to a transaction, if there is one. */
  ghost function Objection(tx: Tx, local: bool, gasPrice: nat, state: ChainState, homestead: bool): Option<TxError> {
    if tx.size > MAX_TX_SIZE then Some(OversizedData)
    else if tx.value < 0 then Some(NegativeValue)
    else if state.maxGas < tx.gas then Some(GasLimit)
    else if !tx.signed then Some(InvalidSender)
    else if !local && gasPrice > tx.gasPrice then Some(Underpriced)
    else if state.nonce(tx.from) > tx.nonce then Some(NonceTooLow)
    else if state.balance(tx.from) < tx.Cost() then Some(InsufficientFunds)
    else if ExactGas(tx.data, tx.create, homestead) >= TWO_64 then Some(OutOfGas)
    else if tx.gas < ExactGas(tx.data, tx.create, homestead) then Some(IntrinsicGasTooLow)
    else None
  }

  /** Nobody objects to a transaction exactly if it is of a size, signed and not of a negative value,
      covers its intrinsic gas within the block limit at a price that is asked of remote ones only, and
      its sender can pay for it at a nonce that is not used up. */
  lemma UnobjectedIsExecutable(tx: Tx, local: bool, gasPrice: nat, state: ChainState, homestead: bool)
    ensures Objection(tx, local, gasPrice, state, homestead) == None <==>
              && tx.size <= 32768 && tx.value >= 0 && tx.signed && (local || tx.gasPrice >= gasPrice)
              && state.nonce(tx.from) <= tx.nonce && !TooDear(state.balance(tx.from), state.maxGas)(tx)
              && ExactGas(tx.data, tx.create, homestead) <= tx.gas
  {
  }

  /** Every objection is right, and none is made while an earlier one could be. */
  lemma ObjectionIsRight(tx: Tx, local: bool, gasPrice: nat, state: ChainState, homestead: bool)
    requires Objection(tx, local, gasPrice, state, homestead) != None
    ensures match Objection(tx, local, gasPrice, state, homestead).value
            case OversizedData => tx.size > 32768
            case NegativeValue => tx.value < 0
            case GasLimit => tx.gas > state.maxGas
            case InvalidSender => !tx.signed && tx.gas <= state.maxGas
            case Underpriced => !local && tx.gasPrice < gasPrice && tx.signed
            case NonceTooLow => tx.nonce < state.nonce(tx.from) && (local || tx.gasPrice >= gasPrice)
            case InsufficientFunds => tx.gasPrice * tx.gas + tx.value > state.balance(tx.from)
                                      && tx.nonce >= state.nonce(tx.from)
            case OutOfGas => ExactGas(tx.data, tx.create, homestead) >= TWO_64
            case IntrinsicGasTooLow => tx.gas < ExactGas(tx.data, tx.create, homestead) < TWO_64
                                       && tx.gasPrice * tx.gas + tx.value <= state.balance(tx.from)
            case _ => false
  {
  }

  /** Filing a new transaction in the pending list, in place of one with its nonce. */
  lemma ReplacePendingAgrees(p: Table, q: Table, all: set<Tx>, tx: Tx)
    requires Agree(p, q, all) && tx !in all && tx.nonce in Get(p, tx.from)
    ensures Agree(p[tx.from := Plus(Get(p, tx.from), tx)], q, all - {Get(p, tx.from)[tx.nonce]} + {tx})
  {
    var a := tx.from;
    assert AgreeAt(Get(p, a), Get(q, a), all, a);
    var p', all' := Plus(Get(p, a), tx), all - {Get(p, a)[tx.nonce]} + {tx};
    forall t: Tx | t.from == a ensures t in all' <==> Holds(p', t) || Holds(Get(q, a), t) {
      assert t in all <==> Holds(Get(p, a), t) || Holds(Get(q, a), t);
    }
    AccountStep(p, q, all, p[a := p'], q, all', a);
  }

  /** Filing a new transaction in the queue, perhaps in place of one with its nonce. */
  lemma EnqueueAgrees(p: Table, q: Table, all: set<Tx>, tx: Tx)
    requires Agree(p, q, all) && tx !in all && tx.nonce !in Get(p, tx.from)
    ensures var list := Get(q, tx.from);
            Agree(p, q[tx.from := Plus(list, tx)],
                  if tx.nonce in list then all - {list[tx.nonce]} + {tx} else all + {tx})
  {
    var a := tx.from;
    var list := Get(q, a);
    assert AgreeAt(Get(p, a), list, all, a);
    var q', all' := Plus(list, tx), if tx.nonce in list then all - {list[tx.nonce]} + {tx} else all + {tx};
    forall t: Tx | t.from == a ensures t in all' <==> Holds(Get(p, a), t) || Holds(q', t) {
      assert t in all <==> Holds(Get(p, a), t) || Holds(list, t);
    }
    AccountStep(p, q, all, p, q[a := q'], all', a);
  }

  /** Filing a transaction: under its nonce, in the pending list if that nonce is pending and in
      the queue otherwise, unless the transaction there may not be replaced. */
  ghost predicate Files(p: Table, q: Table, all: set<Tx>, p': Table, q': Table, all': set<Tx>,
                        tx: Tx, priceBump: nat, replaced: bool, err: Option<TxError>)
  {
    var inPending := tx.nonce in Get(p, tx.from);
    var list := if inPending then Get(p, tx.from) else Get(q, tx.from);
    if tx.nonce in list && !Replaces(tx, list[tx.nonce], priceBump) then
      err == Some(ReplaceUnderpriced) && !replaced && p' == p && q' == q && all' == all
    else
      && err == None && replaced == (tx.nonce in list)
      && p' == (if inPending then p[tx.from := Plus(list, tx)] else p)
      && q' == (if inPending then q else q[tx.from := Plus(list, tx)])
      && all' == (if replaced then all - {list[tx.nonce]} + {tx} else all + {tx})
  }

  lemma FilesAgree(p: Table, q: Table, all: set<Tx>, p': Table, q': Table, all': set<Tx>,
                   tx: Tx, priceBump: nat, replaced: bool, err: Option<TxError>)
    requires Agree(p, q, all) && NoEmptyList(q) && tx !in all
             && Files(p, q, all, p', q', all', tx, priceBump, replaced, err)
    ensures Agree(p', q', all') && NoEmptyList(q') && all' <= all + {tx}
    ensures err == None ==> tx in all'
  {
    hide Agree, Replaces;
    if err == None {
      if tx.nonce in Get(p, tx.from) {
        ReplacePendingAgrees(p, q, all, tx);
      } else {
        EnqueueAgrees(p, q, all, tx);
        assert tx.nonce in Plus(Get(q, tx.from), tx);
      }
    }
  }

  /** Filing keeps the pending nonces: it replaces a pending transaction or goes to the queue. */
  lemma FilesGapFree(p: Table, q: Table, all: set<Tx>, p': Table, q': Table, all': set<Tx>,
                     tx: Tx, priceBump: nat, replaced: bool, err: Option<TxError>, nonces: map<Address, nat>,
                     state: Address -> Uint64)
    requires Files(p, q, all, p', q', all', tx, priceBump, replaced, err) && GapFree(p, nonces, state)
    ensures GapFree(p', nonces, state)
  {
    hide Replaces;
    forall b ensures GapFreeAt(Get(p', b), state(b), NonceOf(nonces, state, b)) && NonceOf(nonces, state, b) < TWO_64 {
      assert GapFreeAt(Get(p, b), state(b), NonceOf(nonces, state, b));
      assert Get(p', b).Keys == Get(p, b).Keys;
    }
  }

  /** What adding a transaction means for the capacity. A pool below it stays within it. A full pool
      that takes a new nonce ends within it exactly if as many entries were given up as asked for, all
      of different transactions; one that replaces a transaction shrinks by those it gave up. */
  ghost predicate Fits(cap: nat, before: nat, after: nat, drop: seq<Tx>, replaced: bool) {
    && (before < cap ==> after <= cap)
    && (before >= cap && !replaced ==> (after <= cap <==> |drop| == before + 1 - cap && OnceEach(drop)))
    && (before >= cap && replaced ==> after == before - |Elems(drop)|)
  }

  /** The pool is the same as before exactly if it was not full or held local transactions only. */
  ghost predicate DropsNothing(cap: nat, before: set<Tx>, after: set<Tx>, locals: set<Address>) {
    after == before <==> |before| < cap || forall t :: t in before ==> t.from in locals
  }

  /** A new transaction adds one to the pool unless it replaces one. */
  lemma FilesCount(p: Table, q: Table, all: set<Tx>, p': Table, q': Table, all': set<Tx>, tx: Tx, priceBump: nat,
                   replaced: bool)
    requires Files(p, q, all, p', q', all', tx, priceBump, replaced, None) && Agree(p, q, all)
    ensures tx !in all ==> |all'| == |all| + if replaced then 0 else 1
  {
    hide Replaces;
    var a := tx.from;
    assert AgreeAt(Get(p, a), Get(q, a), all, a);
    if replaced {
      var was := if tx.nonce in Get(p, a) then Get(p, a)[tx.nonce] else Get(q, a)[tx.nonce];
      assert was in all;
      assert all' == (all - {was}) + {tx};
    }
  }

  lemma FilesWithin(p: Table, q: Table, all: set<Tx>, p': Table, q': Table, all': set<Tx>,
                    tx: Tx, priceBump: nat, replaced: bool, err: Option<TxError>)
    requires Files(p, q, all, p', q', all', tx, priceBump, replaced, err)
    ensures all' <= all + {tx}
  {
    hide Replaces;
  }

  /** Filing removes nothing but the transaction it replaces. */
  lemma FilesNearly(p: Table, q: Table, all: set<Tx>, p': Table, q': Table, all': set<Tx>,
                    tx: Tx, priceBump: nat, replaced: bool, err: Option<TxError>)
    ensures Files(p, q, all, p', q', all', tx, priceBump, replaced, err) && Agree(p, q, all) ==>
              && all' <= all + {tx}
              && forall t :: t in all && t !in all' ==> t.from == tx.from && t.nonce == tx.nonce
  {
    hide Replaces;
    if Agree(p, q, all) {
      assert AgreeAt(Get(p, tx.from), Get(q, tx.from), all, tx.from);
    }
  }

  /** Why a transaction is refused outright, if it is: it is known or objectionable, or the pool
      is full and holds nothing cheaper. */
  ghost function Refusal(tx: Tx, local: bool, all: set<Tx>, locals: set<Address>, gasPrice: nat, state: ChainState,
                         homestead: bool, full: bool): Option<TxError>
  {
    var objection := Objection(tx, local || tx.from in locals, gasPrice, state, homestead);
    var cheapest := all != {} && forall t :: t in all ==> tx.gasPrice <= t.gasPrice;
    if tx in all then Some(Known)
    else if objection != None then objection
    else if full && !local && tx.from !in locals && cheapest then Some(Underpriced)
    else None
  }

  /** What a full pool takes from remote senders is dearer than something it holds, and what it calls
      underpriced is below its own limit or no dearer than anything it holds. */
  lemma RefusalMeans(tx: Tx, local: bool, all: set<Tx>, locals: set<Address>, gasPrice: nat, state: ChainState,
                     homestead: bool, full: bool)
    ensures var err := Refusal(tx, local, all, locals, gasPrice, state, homestead, full);
            && (err == Some(Known) <==> tx in all)
            && (err == None && full && !local && tx.from !in locals && all != {} ==>
                  exists t :: t in all && t.gasPrice < tx.gasPrice)
            && (err == Some(Underpriced) ==>
                  && !local && tx.from !in locals
                  && (tx.gasPrice < gasPrice
                      || (full && all != {} && forall t :: t in all ==> tx.gasPrice <= t.gasPrice)))
            && (err == None <==>
                  && tx !in all && Objection(tx, local || tx.from in locals, gasPrice, state, homestead) == None
                  && (full && !local && tx.from !in locals && all != {} ==>
                        exists t :: t in all && t.gasPrice < tx.gasPrice))
  {
    ObjectionMeans(tx, local || tx.from in locals, gasPrice, state, homestead);
    hide Objection;
  }

  lemma ObjectionMeans(tx: Tx, local: bool, gasPrice: nat, state: ChainState, homestead: bool)
    ensures Objection(tx, local, gasPrice, state, homestead) == Some(Underpriced) ==> !local && tx.gasPrice < gasPrice
    ensures Objection(tx, local, gasPrice, state, homestead) != Some(Known)
  {
  }

  lemma NotReplaceUnderpriced(tx: Tx, local: bool, all: set<Tx>, locals: set<Address>, gasPrice: nat, state: ChainState,
                              homestead: bool, full: bool)
    ensures Refusal(tx, local, all, locals, gasPrice, state, homestead, full) != Some(ReplaceUnderpriced)
  {
  }

  lemma NotKnown(tx: Tx, local: bool, all: set<Tx>, locals: set<Address>, gasPrice: nat, state: ChainState,
                 homestead: bool, full: bool)
    requires Refusal(tx, local, all, locals, gasPrice, state, homestead, full) == None
    ensures tx !in all
  {
  }

  lemma NoEmptyAfterDemotion(p: Table, q: Table, p': Table, q': Table, state: ChainState)
    requires Demotes(p, q, p', q', state, {})
    ensures NoEmptyList(p')
  {
  }
}
