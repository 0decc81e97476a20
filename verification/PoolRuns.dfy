/** Runs of the transaction pool that leave the pending nonces of an account with a gap. */
module PoolRuns {
  import opened Wrappers
  import opened Transactions
  import opened TxLists
  import opened PoolSpec
  import opened Truncation
  import opened Settling
  import opened TxPools
  import opened PricedLists

  /** The list of a single affordable transaction at the state nonce is ready in full. */
  lemma OneReady(tx: Tx, state: ChainState)
    requires tx.nonce == state.nonce(tx.from) && !TooDear(state.balance(tx.from), state.maxGas)(tx)
    ensures var list := Payable(map[tx.nonce := tx], tx.nonce, state.balance(tx.from), state.maxGas);
            list == map[tx.nonce := tx] && ReadyEnd(list, tx.nonce) == tx.nonce + 1
  {
    var one: Items := map[tx.nonce := tx];
    var list := Payable(one, tx.nonce, state.balance(tx.from), state.maxGas);
    assert From(one, tx.nonce) == one;
    assert list == one;
    assert tx.nonce in list;
    assert Least(list) == tx.nonce;
    assert RunEnd(list, tx.nonce + 1) == tx.nonce + 1;
  }

  /** Filing the first transaction of an empty pool with room for one. */
  lemma FirstFiled(pool: TxPool, tx: Tx, local: bool, room: Books, drop: seq<Tx>, now: Books, replaced: bool,
                   err: Option<TxError>, locals: set<Address>)
    requires pool.Added(tx, local, Books(map[], map[], {}), {}, room, drop, now, replaced, err, locals)
    requires Objection(tx, local, pool.gasPrice, pool.state, pool.homestead) == None
    requires pool.config.globalSlots + pool.config.globalQueue > 0
    ensures err == None && !replaced && room == Books(map[], map[], {}) && now.pending == map[]
    ensures now.queue == map[tx.from := map[tx.nonce := tx]] && now.all == {tx}
    ensures locals == if local then {tx.from} else {}
  {
    hide Objection, Replaces;
  }

  /** A pool whose state nonce is the last 64-bit nonce takes a transaction with that nonce; its
      pending nonce is zero then, below the state nonce. */
  method LastNonceRun(config: Config, state: ChainState, tx: Tx, now: int) returns (pool: TxPool)
    requires tx.nonce == TWO_64 - 1 == state.nonce(tx.from) && Objection(tx, true, 0, state, false) == None
    requires config.globalSlots + config.globalQueue > 0
    ensures fresh(pool) && fresh(pool.all) && fresh(pool.priced) && pool.Valid() && pool.state == state
    ensures pool.PendingNonce(tx.from) == 0 && !pool.Contiguous()
  {
    pool := new TxPool(config, 0, state, {});
    ghost var replaced, room, drop, added, pooled, mid, level;
    var err;
    err, replaced, room, drop, added, pooled, mid, level := pool.AddTx(tx, true, now);
    UnobjectedIsExecutable(tx, true, 0, state, false);
    FirstFiled(pool, tx, true, room, drop, Books(added.pending, added.queue, pooled), replaced, err, pool.locals);
    LastNonceWraps(added, mid, Snapshot(pool.pending, pool.queue, pool.pendingNonces, pool.beats), config, state,
                   pool.locals, level, now, tx);
  }

  lemma LastNonceWraps(added: Snapshot, mid: Snapshot, after: Snapshot, config: Config, state: ChainState,
                       locals: set<Address>, level: nat, now: int, tx: Tx)
    requires Settled(added, mid, after, config, state, locals, {tx.from}, level, now)
    requires added.queue == map[tx.from := map[tx.nonce := tx]]
             && NoncesFall(map[], map[], map[], added.nonces, state.nonce)
    requires tx.nonce == TWO_64 - 1 == state.nonce(tx.from) && !TooDear(state.balance(tx.from), state.maxGas)(tx)
    ensures ReachesLast(added.queue, added.nonces, state, tx.from) && NonceOf(after.nonces, state.nonce, tx.from) == 0
    ensures !Unwrapped(added.queue, added.nonces, after.pending, state, {tx.from})
  {
    hide Payable, ReadyEnd, WaterFilled, QueueTruncated, Beaten, TooDear;
    var a := tx.from;
    OneReady(tx, state);
    assert FallsTo(Get(map[], a), Get(map[], a), NonceOf(map[], state.nonce, a), NonceOf(added.nonces, state.nonce, a));
    assert NonceOf(added.nonces, state.nonce, a) == TWO_64 - 1;
    assert ReachesLast(added.queue, added.nonces, state, a);
    assert PromotedAt(added.pending, added.queue, added.nonces, mid.pending, mid.queue, mid.nonces,
                      state, locals, config.accountQueue, a);
    var list: Items := map[tx.nonce := tx];
    assert tx.nonce in Below(list, TWO_64);
    assert NonceOf(mid.nonces, state.nonce, a) == 0;
    assert FallsTo(Get(mid.pending, a), Get(after.pending, a), 0, NonceOf(after.nonces, state.nonce, a));
  }

  /** A list whose promoted part fits into the account limit comes out of a settlement in full. */
  lemma SettledShort(before: Snapshot, mid: Snapshot, after: Snapshot, config: Config, state: ChainState,
                     locals: set<Address>, accounts: set<Address>, level: nat, now: int, a: Address, list: Items,
                     run: Items)
    requires Settled(before, mid, after, config, state, locals, accounts, level, now)
    requires list == Payable(Get(before.queue, a), state.nonce(a), state.balance(a), state.maxGas)
    requires run == Below(list, ReadyEnd(list, NonceOf(before.nonces, state.nonce, a)))
    requires (a !in accounts ==> run == map[]) && |Get(before.pending, a) + run| <= config.accountSlots
    ensures Get(after.pending, a) == Get(before.pending, a) + run
  {
    hide Payable, ReadyEnd, Below, From, Lowest, QueueTruncated, Beaten, NoncesFall;
    if a in accounts {
      assert PromotedAt(before.pending, before.queue, before.nonces, mid.pending, mid.queue, mid.nonces,
                        state, locals, config.accountQueue, a);
    } else {
      assert SameAt(before.pending, before.queue, before.nonces, mid.pending, mid.queue, mid.nonces, state, a);
      NothingAdded(Get(before.pending, a));
    }
    WaterFillIsFair(mid.pending, after.pending, locals, config.accountSlots, config.globalSlots, level);
  }

  /** An account whose queued list is ready in full, or empty, has no queued list afterwards. */
  lemma SettledQueue(before: Snapshot, mid: Snapshot, after: Snapshot, config: Config, state: ChainState,
                     locals: set<Address>, accounts: set<Address>, level: nat, now: int, a: Address, list: Items)
    requires Settled(before, mid, after, config, state, locals, accounts, level, now) && a in accounts
    requires list == Payable(Get(before.queue, a), state.nonce(a), state.balance(a), state.maxGas)
    requires From(list, ReadyEnd(list, NonceOf(before.nonces, state.nonce, a))) == map[]
    ensures Get(after.queue, a) == map[]
  {
    hide Payable, ReadyEnd, Below, From, WaterFilled, Beaten, NoncesFall, Total;
    assert PromotedAt(before.pending, before.queue, before.nonces, mid.pending, mid.queue, mid.nonces,
                      state, locals, config.accountQueue, a);
    assert Get(mid.queue, a) == map[];
  }

  /** The first transaction of a pool, at the state nonce, is all that is pending. */
  lemma FirstPending(added: Snapshot, mid: Snapshot, after: Snapshot, config: Config, state: ChainState,
                     locals: set<Address>, level: nat, now: int, tx: Tx)
    requires Settled(added, mid, after, config, state, locals, {tx.from}, level, now) && config.accountSlots > 0
    requires added.pending == map[] && added.queue == map[tx.from := map[tx.nonce := tx]]
    requires NoncesFall(map[], map[], map[], added.nonces, state.nonce)
    requires tx.nonce == state.nonce(tx.from) && !TooDear(state.balance(tx.from), state.maxGas)(tx)
    ensures Get(after.pending, tx.from) == map[tx.nonce := tx]
  {
    hide Payable, ReadyEnd, Settled, TooDear;
    var a := tx.from;
    OneReady(tx, state);
    assert FallsTo(Get(map[], a), Get(map[], a), NonceOf(map[], state.nonce, a), NonceOf(added.nonces, state.nonce, a));
    var list: Items := map[tx.nonce := tx];
    assert Below(list, tx.nonce + 1) == list;
    assert map[] + list == list;
    SettledShort(added, mid, after, config, state, locals, {a}, level, now, a, list, list);
  }

  /** With a single pooled transaction that is pending, nothing of its sender is queued. */
  lemma NoneQueued(pool: TxPool, tx: Tx)
    requires pool.Valid() && pool.all.all <= {tx} && tx.nonce in Get(pool.pending, tx.from)
    ensures Get(pool.queue, tx.from) == map[]
  {
    var a := tx.from;
    assert AgreeAt(Get(pool.pending, a), Get(pool.queue, a), pool.all.all, a);
    forall n ensures n !in Get(pool.queue, a) {
      if n in Get(pool.queue, a) {
        assert Holds(Get(pool.queue, a), Get(pool.queue, a)[n]);
      }
    }
  }

  /** The first reinjected transaction, two nonces below the pending one, is added to the queue. */
  lemma BackInQueue(pool: TxPool, t: Tx, u: Tx, was: Standing, x: Adding, err: Option<TxError>)
    requires pool.AddedOne(t, false, was, x, err) && was.locals == {} && was.lists.nonces == map[]
    requires t.from == u.from && u.nonce == t.nonce + 2 && was.all <= {u} && t.nonce == pool.state.nonce(t.from)
    requires Get(was.lists.pending, t.from) == map[u.nonce := u] && Get(was.lists.queue, t.from) == map[]
    requires Objection(t, false, pool.gasPrice, pool.state, pool.homestead) == None
    requires pool.config.globalSlots + pool.config.globalQueue >= 2
    ensures err == None && !x.replaced && x.now.locals == {}
    ensures Get(x.now.lists.pending, t.from) == map[u.nonce := u] && Get(x.now.lists.queue, t.from) == map[t.nonce := t]
    ensures NonceOf(x.now.lists.nonces, pool.state.nonce, t.from) == t.nonce
  {
    hide Objection, Files, Discards, Removals, Get, NonceOf;
    var a := t.from;
    assert was.all == {} || was.all == {u};
    assert t !in was.all && |was.all| < 2;
    assert x.room == was.Booked();
    FiledBehind(was.Booked(), x.now.Booked(), t, u, pool.config.priceBump, x.replaced, err);
    FallsAt(was.lists.pending, x.room.pending, was.lists.nonces, x.now.lists.nonces, pool.state.nonce, a);
    NonceOfNone(pool.state.nonce, a);
  }

  lemma NonceOfNone(state: Address -> Uint64, a: Address)
    ensures NonceOf(map[], state, a) == state(a)
  {
  }

  lemma FiledBehind(b: Books, now: Books, t: Tx, u: Tx, priceBump: nat, replaced: bool, err: Option<TxError>)
    requires Files(b.pending, b.queue, b.all, now.pending, now.queue, now.all, t, priceBump, replaced, err)
    requires Get(b.pending, t.from) == map[u.nonce := u] && Get(b.queue, t.from) == map[] && t.nonce != u.nonce
    ensures err == None && !replaced && now.pending == b.pending && Get(now.queue, t.from) == map[t.nonce := t]
  {
  }

  /** The second one is refused, which changes nothing. */
  lemma RefusedBack(pool: TxPool, v: Tx, was: Standing, x: Adding, err: Option<TxError>)
    requires pool.AddedOne(v, false, was, x, err) && was.locals == {}
    requires Objection(v, false, pool.gasPrice, pool.state, pool.homestead) != None
    ensures err != None && !x.replaced && x.now.Booked() == was.Booked() && x.now.locals == {}
    ensures forall a ::
              NonceOf(x.now.lists.nonces, pool.state.nonce, a) == NonceOf(was.lists.nonces, pool.state.nonce, a)
  {
    hide Objection, Files, Discards, Removals;
    forall a ensures NonceOf(x.now.lists.nonces, pool.state.nonce, a) ==
        NonceOf(was.lists.nonces, pool.state.nonce, a) {
      assert FallsTo(Get(was.lists.pending, a), Get(x.room.pending, a), NonceOf(was.lists.nonces, pool.state.nonce, a),
                     NonceOf(x.now.lists.nonces, pool.state.nonce, a));
    }
  }

  lemma BothBack(pool: TxPool, t: Tx, v: Tx, u: Tx, was: Standing, r: Reinjection, injected: Snapshot, now: int)
    requires pool.Reinjected([t, v], was, r, injected, now) && pool.locals == was.locals == {}
    requires was.lists.nonces == map[] && t.from == u.from && u.nonce == t.nonce + 2 && was.all <= {u}
    requires t.nonce == pool.state.nonce(t.from)
    requires Get(was.lists.pending, t.from) == map[u.nonce := u] && Get(was.lists.queue, t.from) == map[]
    requires Objection(t, false, pool.gasPrice, pool.state, pool.homestead) == None
    requires Objection(v, false, pool.gasPrice, pool.state, pool.homestead) != None
    requires pool.config.globalSlots + pool.config.globalQueue >= 2
    ensures Get(r.added.lists.pending, t.from) == map[u.nonce := u]
            && Get(r.added.lists.queue, t.from) == map[t.nonce := t]
    ensures NonceOf(r.added.lists.nonces, pool.state.nonce, t.from) == t.nonce
    ensures Settled(r.added.lists, r.mid, injected, pool.config, pool.state, {}, {t.from}, r.level, now)
  {
    hide Objection, Settled, Get, NonceOf, pool.AddedOne;
    var x, y := r.trail[0], r.trail[1];
    assert r.trail[..0] == [] && LastOf(r.trail[..1], was) == x.now;
    assert pool.AddedOne([t, v][0], false, LastOf(r.trail[..0], was), x, r.errs[0]);
    assert pool.AddedOne([t, v][1], false, LastOf(r.trail[..1], was), y, r.errs[1]);
    BackInQueue(pool, t, u, was, x, r.errs[0]);
    RefusedBack(pool, v, x.now, y, r.errs[1]);
    assert r.added == y.now;
    assert Dirty([t, v], r.trail, r.errs) == {t.from};
  }

  /** An affordable list that starts at the state nonce stays pending as it is. */
  lemma NoneDemoted(p: Items, stateNonce: nat, dear: Tx -> bool)
    requires stateNonce in p && forall n :: n in p ==> stateNonce <= n && !dear(p[n])
    ensures StillPending(p, stateNonce, dear) == p && Demoted(p, stateNonce, dear) == map[]
  {
    assert From(p, stateNonce) == p;
    assert Where(p, dear) == map[];
    assert Unless(p, dear) == p;
  }

  /** What the reset leaves pending of the account: the reinjected transaction is promoted, and as
      the front of the list is executable then, the list is not demoted. */
  lemma GapLeft(pool: TxPool, t: Tx, v: Tx, u: Tx, was: Standing, r: Reinjection, injected: Snapshot,
                adjusted: Snapshot,
                mid: Snapshot, level: nat, now: int)
    requires pool.Moved(pool.state, [t, v], was, r, injected, adjusted, mid, level, now)
    requires pool.locals == was.locals == {} && was.lists.nonces == map[]
    requires t.from == u.from && u.nonce == t.nonce + 2 && was.all <= {u} && t.nonce == pool.state.nonce(t.from)
    requires Get(was.lists.pending, t.from) == map[u.nonce := u] && Get(was.lists.queue, t.from) == map[]
    requires Objection(t, false, pool.gasPrice, pool.state, pool.homestead) == None
    requires Objection(v, false, pool.gasPrice, pool.state, pool.homestead) != None
    requires !TooDear(pool.state.balance(t.from), pool.state.maxGas)(u)
    requires pool.config.globalSlots + pool.config.globalQueue >= 2 && pool.config.accountSlots >= 2
    ensures Get(pool.pending, t.from) == map[t.nonce := t, u.nonce := u]
  {
    hide Objection, Settled, TooDear, Payable, ReadyEnd, Below, From, StillPending, Demoted, Demotes, pool.Reinjected;
    var a, dear := t.from, TooDear(pool.state.balance(t.from), pool.state.maxGas);
    BothBack(pool, t, v, u, was, r, injected, now);
    UnobjectedIsExecutable(t, false, pool.gasPrice, pool.state, pool.homestead);
    BackInPending(r.added.lists, r.mid, injected, pool.config, pool.state, r.level, now, t, u);
    var both: Items := map[t.nonce := t, u.nonce := u];
    DemotesAt(injected.pending, injected.queue, adjusted.pending, adjusted.queue, pool.state, a);
    NoneDemoted(both, t.nonce, dear);
    NothingReady(pool.state, a, NonceOf(adjusted.nonces, pool.state.nonce, a));
    NothingAdded(both);
    TwoEntries(t, u);
    SettledShort(adjusted, mid, Snapshot(pool.pending, pool.queue, pool.pendingNonces, pool.beats), pool.config,
                 pool.state, {}, adjusted.queue.Keys, level, now, a, map[], map[]);
  }

  lemma BackInPending(added: Snapshot, mid: Snapshot, injected: Snapshot, config: Config, state: ChainState, level: nat,
                      now: int, t: Tx, u: Tx)
    requires Settled(added, mid, injected, config, state, {}, {t.from}, level, now) && config.accountSlots >= 2
    requires Get(added.pending, t.from) == map[u.nonce := u] && Get(added.queue, t.from) == map[t.nonce := t]
    requires t.from == u.from && u.nonce == t.nonce + 2 && NonceOf(added.nonces, state.nonce, t.from) == t.nonce
    requires t.nonce == state.nonce(t.from) && !TooDear(state.balance(t.from), state.maxGas)(t)
    ensures Get(injected.pending, t.from) == map[t.nonce := t, u.nonce := u] && Get(injected.queue, t.from) == map[]
  {
    hide Settled, TooDear, Payable, ReadyEnd;
    OneReady(t, state);
    var list: Items := map[t.nonce := t];
    var both: Items := map[t.nonce := t, u.nonce := u];
    assert Below(list, t.nonce + 1) == list && From(list, t.nonce + 1) == map[];
    assert map[u.nonce := u] + list == both;
    TwoEntries(t, u);
    SettledShort(added, mid, injected, config, state, {}, {t.from}, level, now, t.from, list, list);
    SettledQueue(added, mid, injected, config, state, {}, {t.from}, level, now, t.from, list);
  }

  lemma TwoEntries(t: Tx, u: Tx)
    requires t.nonce != u.nonce
    ensures |map[t.nonce := t, u.nonce := u]| == 2
  {
    var both: Items := map[t.nonce := t, u.nonce := u];
    assert both.Keys == {t.nonce, u.nonce};
  }

  lemma NothingReady(state: ChainState, a: Address, n: nat)
    ensures Payable(map[], state.nonce(a), state.balance(a), state.maxGas) == map[]
    ensures Below(map[], ReadyEnd(map[], n)) == map[]
  {
  }

  /** After a reorganisation to a state nonce two lower both transactions are put back, and the pool
      refuses the second, for its price or any other reason. Then a gap stays inside the pending list:
      demotion looks at the front of the list only. */
  method ReinjectionGap(config: Config, price: nat, high: ChainState, low: ChainState, t: Tx, v: Tx, u: Tx, now: int)
    returns (pool: TxPool)
    requires t.from == v.from == u.from && v.nonce == t.nonce + 1 && u.nonce == t.nonce + 2
    requires high.nonce(u.from) == u.nonce && low.nonce(t.from) == t.nonce
    requires Objection(u, false, price, high, false) == None && Objection(t, false, price, low, false) == None
    requires Objection(v, false, price, low, false) != None && !TooDear(low.balance(u.from), low.maxGas)(u)
    requires config.globalSlots + config.globalQueue >= 2 && config.accountSlots >= 2
    ensures fresh(pool) && fresh(pool.all) && fresh(pool.priced) && pool.Valid() && pool.state == low
    ensures Get(pool.pending, t.from) == map[t.nonce := t, u.nonce := u] && !pool.Contiguous()
  {
    hide Objection, Settled, TooDear, GapFree, Agree, NoEmptyList, Demotes;
    pool := new TxPool(config, price, high, {});
    UnobjectedIsExecutable(u, false, price, high, false);
    ghost var replaced, room, drop, added, pooled, mid, level;
    var err;
    err, replaced, room, drop, added, pooled, mid, level := pool.AddTx(u, false, now);
    FirstFiled(pool, u, false, room, drop, Books(added.pending, added.queue, pooled), replaced, err, pool.locals);
    FirstPending(added, mid, Snapshot(pool.pending, pool.queue, pool.pendingNonces, pool.beats), config, high, {},
                 level, now, u);
    NoneQueued(pool, u);
    ghost var was := pool.Stand().Renewed();
    ghost var r, injected, adjusted;
    r, injected, adjusted, mid, level := pool.Reset(Some(low), [t, v], now);
    GapLeft(pool, t, v, u, was, r, injected, adjusted, mid, level, now);
    GapSeen(pool, t, u);
  }

  lemma GapSeen(pool: TxPool, t: Tx, u: Tx)
    requires Get(pool.pending, t.from) == map[t.nonce := t, u.nonce := u] && u.nonce == t.nonce + 2
    requires t.nonce == pool.state.nonce(t.from)
    ensures !pool.Contiguous()
  {
    var list := Get(pool.pending, t.from);
    assert t.nonce + 1 !in list && u.nonce in list;
    assert !GapFreeAt(list, t.nonce, pool.PendingNonce(t.from));
  }

  /** Filing a second transaction, of another account, in a pool with room for two. */
  lemma SecondFiled(pool: TxPool, x: Tx, y: Tx, was: Books, room: Books, drop: seq<Tx>, now: Books, replaced: bool,
                    err: Option<TxError>, locals: set<Address>)
    requires was == Books(map[], map[x.from := map[x.nonce := x]], {x}) && x.from != y.from
    requires pool.Added(y, false, was, {}, room, drop, now, replaced, err, locals)
    requires Objection(y, false, pool.gasPrice, pool.state, pool.homestead) == None
    requires pool.config.globalSlots + pool.config.globalQueue == 2
    ensures err == None && now.pending == map[] && now.all == {x, y} && locals == {}
    ensures now.queue == map[x.from := map[x.nonce := x], y.from := map[y.nonce := y]]
  {
    hide Objection, Replaces;
    assert |was.all| == 1;
  }

  /** In the full pool the cheaper of the two goes, and the new transaction may not replace the other. */
  lemma DroppedForNothing(pool: TxPool, x: Tx, y: Tx, z: Tx, was: Books, room: Books, drop: seq<Tx>, now: Books,
                          replaced: bool, err: Option<TxError>, locals: set<Address>)
    requires was == Books(map[], map[x.from := map[x.nonce := x], y.from := map[y.nonce := y]], {x, y})
    requires x.from != y.from == z.from && y.nonce == z.nonce && z != y && x.gasPrice < y.gasPrice
    requires x.gasPrice < z.gasPrice && !Replaces(z, y, pool.config.priceBump)
    requires pool.Added(z, false, was, {}, room, drop, now, replaced, err, locals)
    requires Objection(z, false, pool.gasPrice, pool.state, pool.homestead) == None
    requires pool.config.globalSlots + pool.config.globalQueue == 2
    ensures err == Some(ReplaceUnderpriced) && now.all == {y}
  {
    hide Objection, Replaces, Removals;
    assert |was.all| == 2;
    assert Discards(was.all, drop, 1, {});
    OneDropped(x, y, drop);
    RemovedOnly(was, x);
  }

  lemma OneDropped(x: Tx, y: Tx, drop: seq<Tx>)
    requires Discards({x, y}, drop, 1, {}) && x.gasPrice < y.gasPrice
    ensures drop == [x]
  {
    assert |drop| < 1 ==> x in drop;
    assert |drop| == 1;
    assert drop[0] in drop && drop == [drop[0]];
    assert x !in drop ==> !PricedBefore(x, drop[0]);
  }

  lemma RemovedOnly(was: Books, x: Tx)
    requires was.pending == map[] && x in was.all
    ensures Removals(was, [x]).all == was.all - {x} && Removals(was, [x]).pending == map[]
    ensures forall a :: a != x.from ==> Get(Removals(was, [x]).queue, a) == Get(was.queue, a)
  {
    assert [x][..0] == [];
    assert Removals(was, [x][..0]) == was;
    StoreGet(was.queue, x.from, Get(was.queue, x.from) - {x.nonce});
  }

  /** A full pool gives up its cheapest transaction for one that it then refuses. */
  method RefusedYetDropped(config: Config, state: ChainState, x: Tx, y: Tx, z: Tx) returns (pool: TxPool)
    requires config.globalSlots + config.globalQueue == 2
    requires x.from != y.from == z.from && y.nonce == z.nonce && z != y && x.gasPrice < y.gasPrice
    requires x.gasPrice < z.gasPrice && !Replaces(z, y, config.priceBump)
    requires Objection(x, false, 0, state, false) == None && Objection(y, false, 0, state, false) == None
    requires Objection(z, false, 0, state, false) == None
    ensures fresh(pool) && fresh(pool.all) && fresh(pool.priced) && pool.Valid() && pool.all.all == {y}
  {
    hide Objection, Replaces, TxPool.Added, GapFree, Agree, NoEmptyList, NoncesFall;
    pool := new TxPool(config, 0, state, {});
    var replaced, err;
    ghost var room, drop, was;
    replaced, err, room, drop := pool.Add(x, false);
    FirstFiled(pool, x, false, room, drop, Books(pool.pending, pool.queue, pool.all.all), replaced, err, pool.locals);
    was := Books(pool.pending, pool.queue, pool.all.all);
    replaced, err, room, drop := pool.Add(y, false);
    SecondFiled(pool, x, y, was, room, drop, Books(pool.pending, pool.queue, pool.all.all), replaced, err, pool.locals);
    was := Books(pool.pending, pool.queue, pool.all.all);
    replaced, err, room, drop := pool.Add(z, false);
    DroppedForNothing(pool, x, y, z, was, room, drop, Books(pool.pending, pool.queue, pool.all.all), replaced, err,
                      pool.locals);
  }

  /** A cheap local transaction x lets z in, for which the dearer y has to go. */
  lemma DearerDropped(pool: TxPool, x: Tx, y: Tx, z: Tx, was: Books, room: Books, drop: seq<Tx>, now: Books,
                      replaced: bool, err: Option<TxError>, locals: set<Address>)
    requires was == Books(map[], map[x.from := map[x.nonce := x], y.from := map[y.nonce := y]], {x, y})
    requires x.from != y.from && z.from !in {x.from, y.from} && x.gasPrice < z.gasPrice < y.gasPrice
    requires pool.Added(z, false, was, {x.from}, room, drop, now, replaced, err, locals)
    requires Objection(z, false, pool.gasPrice, pool.state, pool.homestead) == None
    requires pool.config.globalSlots + pool.config.globalQueue == 2
    ensures err == None && now.all == {x, z} && drop == [y]
  {
    hide Objection, Replaces, Removals;
    assert |was.all| == 2;
    RefusalMeans(z, false, was.all, {x.from}, pool.gasPrice, pool.state, pool.homestead, true);
    hide Refusal;
    assert x in was.all && x.gasPrice < z.gasPrice;
    assert Discards(was.all, drop, 1, {x.from});
    RemoteDropped(x, y, drop);
    RemovedOnly(was, y);
  }

  lemma RemoteDropped(x: Tx, y: Tx, drop: seq<Tx>)
    requires Discards({x, y}, drop, 1, {x.from}) && x.from != y.from
    ensures drop == [y]
  {
    assert |drop| < 1 ==> y in drop;
    assert drop[0] in drop && drop == [drop[0]];
  }

  lemma SecondBesideLocal(pool: TxPool, x: Tx, y: Tx, was: Books, room: Books, drop: seq<Tx>, now: Books,
                          replaced: bool, err: Option<TxError>, locals: set<Address>)
    requires was == Books(map[], map[x.from := map[x.nonce := x]], {x}) && x.from != y.from
    requires pool.Added(y, false, was, {x.from}, room, drop, now, replaced, err, locals)
    requires Objection(y, false, pool.gasPrice, pool.state, pool.homestead) == None
    requires pool.config.globalSlots + pool.config.globalQueue == 2
    ensures err == None && now.pending == map[] && now.all == {x, y} && locals == {x.from}
    ensures now.queue == map[x.from := map[x.nonce := x], y.from := map[y.nonce := y]]
  {
    hide Objection, Replaces;
    assert |was.all| == 1;
  }

  /** A full pool gives up a transaction for one that pays less. */
  method DearerGivenUp(config: Config, state: ChainState, x: Tx, y: Tx, z: Tx) returns (pool: TxPool)
    requires config.globalSlots + config.globalQueue == 2
    requires x.from != y.from && z.from !in {x.from, y.from} && x.gasPrice < z.gasPrice < y.gasPrice
    requires Objection(x, true, 0, state, false) == None && Objection(y, false, 0, state, false) == None
    requires Objection(z, false, 0, state, false) == None
    ensures fresh(pool) && fresh(pool.all) && fresh(pool.priced) && pool.Valid() && pool.all.all == {x, z}
  {
    hide Objection, Replaces, TxPool.Added, GapFree, Agree, NoEmptyList, NoncesFall;
    pool := new TxPool(config, 0, state, {});
    var replaced, err;
    ghost var room, drop, was;
    replaced, err, room, drop := pool.Add(x, true);
    FirstFiled(pool, x, true, room, drop, Books(pool.pending, pool.queue, pool.all.all), replaced, err, pool.locals);
    was := Books(pool.pending, pool.queue, pool.all.all);
    replaced, err, room, drop := pool.Add(y, false);
    SecondBesideLocal(pool, x, y, was, room, drop, Books(pool.pending, pool.queue, pool.all.all), replaced, err,
                      pool.locals);
    was := Books(pool.pending, pool.queue, pool.all.all);
    replaced, err, room, drop := pool.Add(z, false);
    DearerDropped(pool, x, y, z, was, room, drop, Books(pool.pending, pool.queue, pool.all.all), replaced, err,
                  pool.locals);
  }
}
