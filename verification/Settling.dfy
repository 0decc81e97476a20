/** Promotion with truncation, and what it and the reinjection of transactions leave of the
    gap-free pending lists (kernel/tx_pool.go). */
module Settling {
  import opened Wrappers
  import opened Transactions
  import opened TxLists
  import opened PoolSpec
  import opened Truncation
  import opened Recovery

  /** The limits of TxPoolConfig. */
  datatype Config = Config(priceBump: nat, accountSlots: nat, globalSlots: nat, accountQueue: nat, globalQueue: nat)

  /** The lists, pending nonces and heartbeats of the pool at some moment. */
  datatype Snapshot = Snapshot(pending: Table, queue: Table, nonces: map<Address, nat>, beats: map<Address, int>)

  /** From `before`, the queued lists of the accounts are tidied and promoted, which leads to `mid`;
      then the pending lists are truncated fairly and the queue by heartbeat, which leads to `after`. */
  ghost predicate Settled(before: Snapshot, mid: Snapshot, after: Snapshot, config: Config, state: ChainState,
                          locals: set<Address>, accounts: set<Address>, level: nat, now: int)
  {
    && Promotes(before.pending, before.queue, before.nonces, mid.pending, mid.queue, mid.nonces,
                state, locals, config.accountQueue, accounts)
    && Beaten(before.pending, mid.pending, before.beats, mid.beats, now) && after.beats == mid.beats
    && WaterFilled(mid.pending, after.pending, locals, config.accountSlots, config.globalSlots, level)
    && NoncesFall(mid.pending, after.pending, mid.nonces, after.nonces, state.nonce)
    && QueueTruncated(mid.queue, after.queue, locals, mid.beats, config.globalQueue)
  }

  lemma MeansSettled(before: Snapshot, mid: Snapshot, after: Snapshot, config: Config, state: ChainState,
                     locals: set<Address>, accounts: set<Address>, level: nat, now: int)
    requires Promotes(before.pending, before.queue, before.nonces, mid.pending, mid.queue, mid.nonces,
                      state, locals, config.accountQueue, accounts)
    requires Beaten(before.pending, mid.pending, before.beats, mid.beats, now) && after.beats == mid.beats
    requires WaterFilled(mid.pending, after.pending, locals, config.accountSlots, config.globalSlots, level)
    requires NoncesFall(mid.pending, after.pending, mid.nonces, after.nonces, state.nonce)
    requires QueueTruncated(mid.queue, after.queue, locals, mid.beats, config.globalQueue)
    ensures Settled(before, mid, after, config, state, locals, accounts, level, now)
  {
  }

  /** Truncation keeps a gap-free pool gap-free. */
  lemma Levelled(m: Table, m': Table, nonces: map<Address, nat>, nonces': map<Address, nat>, state: Address -> Uint64,
                 locals: set<Address>, level: nat)
    requires m' == Level(m, locals, level) && NoncesFall(m, m', nonces, nonces', state) && GapFree(m, nonces, state)
    ensures GapFree(m', nonces', state)
  {
    hide GapFreeAt, Level, NoncesFall, Get, NonceOf;
    forall a ensures GapFreeAt(Get(m', a), state(a), NonceOf(nonces', state, a))
      && NonceOf(nonces', state, a) < TWO_64 {
      LevelGapFree(m, m', nonces, nonces', state, locals, level, a);
      assert GapFreeAt(Get(m, a), state(a), NonceOf(nonces, state, a));
    }
  }

  /** No ready run reaches the last nonce, except one from nonce zero of which nothing is left. */
  ghost predicate Unwrapped(q: Table, nonces: map<Address, nat>, p': Table, state: ChainState, accounts: set<Address>) {
    forall a :: a in accounts && ReachesLast(q, nonces, state, a) ==> state.nonce(a) == 0 && Get(p', a) == map[]
  }

  /** No ready run among the accounts reaches the last nonce. */
  ghost predicate NoneReachesLast(q: Table, nonces: map<Address, nat>, state: ChainState, accounts: set<Address>) {
    forall a :: a in accounts ==> !ReachesLast(q, nonces, state, a)
  }

  /** When every account may keep a transaction, something is left of every run. */
  lemma UnwrappedBefore(before: Snapshot, mid: Snapshot, after: Snapshot, config: Config, state: ChainState,
                        locals: set<Address>, accounts: set<Address>, level: nat, now: int)
    requires Settled(before, mid, after, config, state, locals, accounts, level, now)
    ensures config.accountSlots > 0 ==>
              (Unwrapped(before.queue, before.nonces, after.pending, state, accounts) <==>
               NoneReachesLast(before.queue, before.nonces, state, accounts))
  {
    hide *;
    if config.accountSlots > 0 {
      SettledMeans(before, mid, after, config, state, locals, accounts, level, now);
      forall a | a in accounts && ReachesLast(before.queue, before.nonces, state, a)
        ensures Get(after.pending, a) != map[] {
        PromotesTo(before.pending, before.queue, before.nonces, mid.pending, mid.queue, mid.nonces, state, locals,
                   config.accountQueue, accounts, a);
        SomethingReady(before.pending, before.queue, before.nonces, state, a);
        ReadyIs(before.queue, before.nonces, state, accounts, a);
        SomethingLeft(mid.pending, after.pending, locals, config.accountSlots, config.globalSlots, level, a);
      }
      UnwrappedIs(before.queue, before.nonces, after.pending, state, accounts);
    }
  }

  lemma UnwrappedIs(q: Table, nonces: map<Address, nat>, p': Table, state: ChainState, accounts: set<Address>)
    requires forall a :: a in accounts && ReachesLast(q, nonces, state, a) ==> Get(p', a) != map[]
    ensures Unwrapped(q, nonces, p', state, accounts) <==> NoneReachesLast(q, nonces, state, accounts)
  {
    hide ReachesLast, Get;
  }

  lemma ReadyIs(q: Table, nonces: map<Address, nat>, state: ChainState, accounts: set<Address>, a: Address)
    requires a in accounts
    ensures var list := Payable(Get(q, a), state.nonce(a), state.balance(a), state.maxGas);
            ReadyPart(list, NonceOf(nonces, state.nonce, a), a in accounts) ==
              Below(list, ReadyEnd(list, NonceOf(nonces, state.nonce, a)))
  {
  }

  lemma SomethingReady(p: Table, q: Table, nonces: map<Address, nat>, state: ChainState, a: Address)
    requires ReachesLast(q, nonces, state, a)
    ensures var list := Payable(Get(q, a), state.nonce(a), state.balance(a), state.maxGas);
            Get(p, a) + Below(list, ReadyEnd(list, NonceOf(nonces, state.nonce, a))) != map[]
  {
    hide Payable;
    var list := Payable(Get(q, a), state.nonce(a), state.balance(a), state.maxGas);
    var run := Below(list, ReadyEnd(list, NonceOf(nonces, state.nonce, a)));
    assert Least(list) in run;
    assert Least(list) in Get(p, a) + run;
  }

  lemma SomethingLeft(m: Table, m': Table, locals: set<Address>, slots: nat, limit: nat, level: nat, a: Address)
    requires WaterFilled(m, m', locals, slots, limit, level) && slots > 0 && Get(m, a) != map[]
    ensures Get(m', a) != map[]
  {
    hide Total, Lowest;
    LowestIsPart(m[a], level);
  }

  /** Promotion with truncation leaves a gap-free pool gap-free exactly if it is unwrapped. */
  lemma SettledGapFree(before: Snapshot, mid: Snapshot, after: Snapshot, config: Config, state: ChainState,
                       locals: set<Address>, accounts: set<Address>, level: nat, now: int, all: set<Tx>)
    requires Settled(before, mid, after, config, state, locals, accounts, level, now)
    requires Agree(before.pending, before.queue, all) && GapFree(before.pending, before.nonces, state.nonce)
    ensures GapFree(after.pending, after.nonces, state.nonce)
            <==> Unwrapped(before.queue, before.nonces, after.pending, state, accounts)
  {
    hide *;
    forall a ensures SettledAt(before, after, state, accounts, a) {
      SettledGapFreeAt(before, mid, after, config, state, locals, accounts, level, now, all, a);
    }
    SettledEverywhere(before, after, state, accounts);
  }

  ghost predicate SettledAt(before: Snapshot, after: Snapshot, state: ChainState, accounts: set<Address>, a: Address) {
    && NonceOf(after.nonces, state.nonce, a) < TWO_64
    && (GapFreeAt(Get(after.pending, a), state.nonce(a), NonceOf(after.nonces, state.nonce, a)) <==>
          (a in accounts && ReachesLast(before.queue, before.nonces, state, a) ==>
             state.nonce(a) == 0 && Get(after.pending, a) == map[]))
  }

  lemma SettledEverywhere(before: Snapshot, after: Snapshot, state: ChainState, accounts: set<Address>)
    requires forall a :: SettledAt(before, after, state, accounts, a)
    ensures GapFree(after.pending, after.nonces, state.nonce)
            <==> Unwrapped(before.queue, before.nonces, after.pending, state, accounts)
  {
    hide ReachesLast, GapFreeAt, Get, NonceOf;
    if GapFree(after.pending, after.nonces, state.nonce) {
      forall a | a in accounts && ReachesLast(before.queue, before.nonces, state, a)
        ensures state.nonce(a) == 0 && Get(after.pending, a) == map[]
      {
        assert SettledAt(before, after, state, accounts, a);
      }
    }
    if Unwrapped(before.queue, before.nonces, after.pending, state, accounts) {
      forall a ensures GapFreeAt(Get(after.pending, a), state.nonce(a), NonceOf(after.nonces, state.nonce, a))
                       && NonceOf(after.nonces, state.nonce, a) < TWO_64
      {
        assert SettledAt(before, after, state, accounts, a);
      }
    }
  }

  lemma SettledGapFreeAt(before: Snapshot, mid: Snapshot, after: Snapshot, config: Config, state: ChainState,
                         locals: set<Address>, accounts: set<Address>, level: nat, now: int, all: set<Tx>, a: Address)
    requires Settled(before, mid, after, config, state, locals, accounts, level, now)
    requires Agree(before.pending, before.queue, all) && GapFree(before.pending, before.nonces, state.nonce)
    ensures SettledAt(before, after, state, accounts, a)
  {
    hide Agree, GapFree, Promotes, Level, Beaten, Total, QueueTruncated, GapFreeAt, ReachesLast, Get, NonceOf;
    PromotedGapFree(before.pending, before.queue, all, before.nonces, mid.pending, mid.queue, mid.nonces,
                    state, locals, config.accountQueue, accounts, a);
    LevelGapFree(mid.pending, after.pending, mid.nonces, after.nonces, state.nonce, locals, level, a);
    var n, n' := NonceOf(mid.nonces, state.nonce, a), NonceOf(after.nonces, state.nonce, a);
    assert FallsTo(Get(mid.pending, a), Get(after.pending, a), n, n');
    if n == 0 {
      WrappedStays(Get(mid.pending, a), Get(after.pending, a), state.nonce(a), n');
    }
  }

  lemma NobodyUnwrapped(q: Table, nonces: map<Address, nat>, p': Table, state: ChainState)
    ensures Unwrapped(q, nonces, p', state, {}) && NoneReachesLast(q, nonces, state, {})
  {
  }

  /** No transaction has the last 64-bit nonce. */
  ghost predicate NoLast(all: set<Tx>) {
    forall t :: t in all ==> t.nonce < TWO_64 - 1
  }

  lemma NoLastHeld(all: set<Tx>, all': set<Tx>)
    requires all' <= all
    ensures NoLast(all) ==> NoLast(all')
  {
  }

  /** A ready run reaches the last nonce only if a pooled transaction has it. */
  lemma LastPooled(p: Table, q: Table, all: set<Tx>, nonces: map<Address, nat>, state: ChainState, a: Address)
    requires Agree(p, q, all) && ReachesLast(q, nonces, state, a)
    ensures !NoLast(all)
  {
    hide Payable;
    PayableIsPart(Get(q, a), state.nonce(a), state.balance(a), state.maxGas);
    var list := Payable(Get(q, a), state.nonce(a), state.balance(a), state.maxGas);
    assert Least(list) in list;
    assert TWO_64 - 1 in list;
    assert AgreeAt(Get(p, a), Get(q, a), all, a);
    assert Holds(Get(q, a), Get(q, a)[TWO_64 - 1]);
  }

  lemma NeverLast(p: Table, q: Table, all: set<Tx>, nonces: map<Address, nat>, state: ChainState,
                  accounts: set<Address>)
    requires Agree(p, q, all)
    ensures NoLast(all) ==> forall p' :: Unwrapped(q, nonces, p', state, accounts)
  {
    hide Agree, ReachesLast, NoLast;
    forall a | ReachesLast(q, nonces, state, a) ensures !NoLast(all) {
      LastPooled(p, q, all, nonces, state, a);
    }
  }

  /** What the pool holds at some moment. */
  datatype Standing = Standing(lists: Snapshot, all: set<Tx>, locals: set<Address>) {
    function Booked(): Books {
      Books(lists.pending, lists.queue, all)
    }

    /** Without pending nonces of its own. */
    function Renewed(): Standing {
      this.(lists := lists.(nonces := map[]))
    }
  }

  /** How one transaction was added: what room was made, and the pool after it. */
  datatype Adding = Adding(room: Books, drop: seq<Tx>, now: Standing, replaced: bool)

  /** How the transactions of a reorganisation went back into the pool. */
  datatype Reinjection = Reinjection(trail: seq<Adding>, errs: seq<Option<TxError>>, added: Standing, mid: Snapshot,
                                     level: nat)

  ghost function LastOf(trail: seq<Adding>, was: Standing): Standing {
    if trail == [] then was else trail[|trail| - 1].now
  }

  /** The account does not come out of the reset without a gap, in terms of the lists after the
      additions and of what truncation left of the promoted ones. */
  ghost predicate SpoiledAt(added: Snapshot, left: Table, state: ChainState, before: Address -> Uint64,
                            accounts: set<Address>, a: Address)
  {
    Spoiled(Get(added.pending, a), Payable(Get(added.queue, a), state.nonce(a), state.balance(a), state.maxGas),
            Get(left, a), before(a), NonceOf(added.nonces, state.nonce, a), state.nonce(a), a in accounts,
            TooDear(state.balance(a), state.maxGas))
  }

  ghost predicate Unspoiled(added: Snapshot, left: Table, state: ChainState, before: Address -> Uint64,
                            accounts: set<Address>)
  {
    forall a {:trigger SpoiledAt(added, left, state, before, accounts, a)} ::
      !SpoiledAt(added, left, state, before, accounts, a)
  }

  /** No account is spoiled by what was put back. */
  ghost predicate Intact(txs: seq<Tx>, r: Reinjection, left: Table, state: ChainState, before: Address -> Uint64) {
    && |r.trail| == |r.errs| <= |txs|
    && Unspoiled(r.added.lists, left, state, before, Dirty(txs, r.trail, r.errs))
  }

  /** The same when nothing is truncated, from the lists after the additions alone: the pending nonce has
      fallen; or the account is promoted and has its state nonce queued, and the run from there reaches
      the last nonce, or ends before the pending list begins with an affordable transaction. */
  ghost predicate Gapped(added: Snapshot, state: ChainState, before: Address -> Uint64, accounts: set<Address>,
                         a: Address)
  {
    var p, s := Get(added.pending, a), state.nonce(a);
    var list := Payable(Get(added.queue, a), s, state.balance(a), state.maxGas);
    var end := ReadyEnd(list, s);
    || NonceOf(added.nonces, state.nonce, a) != s
    || (a in accounts && s in list
        && (end == TWO_64
            || (before(a) in p && end < before(a) && !TooDear(state.balance(a), state.maxGas)(p[before(a)]))))
  }

  ghost predicate Ungapped(txs: seq<Tx>, r: Reinjection, state: ChainState, before: Address -> Uint64) {
    && |r.trail| == |r.errs| <= |txs|
    && forall a :: !Gapped(r.added.lists, state, before, Dirty(txs, r.trail, r.errs), a)
  }

  /** Truncation left the lists alone that what was put back made executable. */
  ghost predicate Uncut(txs: seq<Tx>, r: Reinjection, left: Table) {
    && |r.trail| == |r.errs| <= |txs|
    && (Dirty(txs, r.trail, r.errs) == {} || r.mid.pending == left)
  }

  ghost predicate RunsFrom(p: Table, before: Address -> Uint64) {
    forall a {:trigger RunFrom(Get(p, a), before(a))} :: RunFrom(Get(p, a), before(a))
  }

  lemma GapFreeRuns(p: Table, nonces: map<Address, nat>, before: Address -> Uint64)
    requires GapFree(p, nonces, before)
    ensures RunsFrom(p, before)
  {
    hide GapFreeAt;
    forall a ensures RunFrom(Get(p, a), before(a)) {
      assert GapFreeAt(Get(p, a), before(a), NonceOf(nonces, before, a));
    }
  }

  /** Removals and filings leave runs of nonces behind. */
  lemma {:induction false} RemovalsRuns(b: Books, txs: seq<Tx>, before: Address -> Uint64)
    requires RunsFrom(b.pending, before)
    ensures RunsFrom(Removals(b, txs).pending, before)
    decreases |txs|
  {
    if txs != [] {
      var c, tx := Removals(b, txs[..|txs| - 1]), txs[|txs| - 1];
      RemovalsRuns(b, txs[..|txs| - 1], before);
      forall a ensures RunFrom(Get(Removal(c, tx).pending, a), before(a)) {
        assert RunFrom(Get(c.pending, a), before(a));
        BelowRuns(Get(c.pending, a), tx.nonce, before(a));
      }
    }
  }

  lemma BelowRuns(p: Items, cut: nat, first: nat)
    requires RunFrom(p, first)
    ensures RunFrom(Below(p, cut), first)
  {
    var n: nat :| n < TWO_64 && GapFreeAt(p, first, n);
    assert GapFreeAt(Below(p, cut), first, if cut < first then first else if cut < n then cut else n);
  }

  lemma FilesRuns(b: Books, now: Books, tx: Tx, priceBump: nat, replaced: bool, err: Option<TxError>,
                  before: Address -> Uint64)
    requires Files(b.pending, b.queue, b.all, now.pending, now.queue, now.all, tx, priceBump, replaced, err)
    requires RunsFrom(b.pending, before)
    ensures RunsFrom(now.pending, before)
  {
    hide Replaces;
    forall a ensures RunFrom(Get(now.pending, a), before(a)) {
      assert RunFrom(Get(b.pending, a), before(a));
      assert Get(now.pending, a).Keys == Get(b.pending, a).Keys;
      SameRun(Get(b.pending, a), Get(now.pending, a), before(a));
    }
  }

  lemma SameRun(p: Items, p': Items, first: nat)
    requires RunFrom(p, first) && p'.Keys == p.Keys
    ensures RunFrom(p', first)
  {
    var n: nat :| n < TWO_64 && GapFreeAt(p, first, n);
    assert GapFreeAt(p', first, n);
  }

  /** For every account the pending nonce is the state nonce, or has fallen below it. */
  ghost predicate Sunk(p: Table, nonces: map<Address, nat>, state: Address -> Uint64) {
    forall a {:trigger SunkAt(Get(p, a), NonceOf(nonces, state, a), state(a))} ::
      SunkAt(Get(p, a), NonceOf(nonces, state, a), state(a))
  }

  lemma SunkNone(p: Table, state: Address -> Uint64)
    ensures Sunk(p, map[], state)
  {
  }

  /** Room was made, and a transaction was filed. */
  lemma SunkOn(p: Table, room: Table, p': Table, nonces: map<Address, nat>, nonces': map<Address, nat>,
               state: Address -> Uint64, before: Address -> Uint64)
    requires Sunk(p, nonces, state) && RunsFrom(p, before) && RunsFrom(room, before)
    requires NoncesFall(p, room, nonces, nonces', state) && forall a :: Get(p', a).Keys == Get(room, a).Keys
    ensures Sunk(p', nonces', state)
  {
    hide Get, NonceOf, RunFrom;
    forall a ensures SunkAt(Get(p', a), NonceOf(nonces', state, a), state(a)) {
      assert RunFrom(Get(p, a), before(a)) && RunFrom(Get(room, a), before(a));
      assert FallsTo(Get(p, a), Get(room, a), NonceOf(nonces, state, a), NonceOf(nonces', state, a));
      SunkFalls(Get(p, a), Get(room, a), NonceOf(nonces, state, a), NonceOf(nonces', state, a), state(a), before(a));
    }
  }

  lemma FilesKeys(b: Books, now: Books, tx: Tx, priceBump: nat, replaced: bool, err: Option<TxError>)
    requires Files(b.pending, b.queue, b.all, now.pending, now.queue, now.all, tx, priceBump, replaced, err)
    ensures forall a :: Get(now.pending, a).Keys == Get(b.pending, a).Keys
  {
    hide Replaces;
  }

  lemma FiledApart(p: Table, q: Table, all: set<Tx>, a: Address)
    requires Agree(p, q, all)
    ensures Filed(Get(q, a), a) && Get(p, a).Keys !! Get(q, a).Keys
  {
    assert AgreeAt(Get(p, a), Get(q, a), all, a);
  }

  /** Truncation cuts every list from the top. */
  ghost predicate Cuts(m: Table, m': Table) {
    forall a {:trigger Front(Get(m', a), Get(m, a))} :: Front(Get(m', a), Get(m, a))
  }

  lemma CutsNone(m: Table)
    ensures Cuts(m, m)
  {
  }

  lemma LevelCuts(m: Table, locals: set<Address>, level: nat)
    ensures Cuts(m, Level(m, locals, level))
  {
    forall a ensures Front(Get(Level(m, locals, level), a), Get(m, a)) {
      LowestIsPart(Get(m, a), level);
      LowestIsClosed(Get(m, a), level);
    }
  }

  /** What the additions, the promotion and the truncation leave of one account. */
  lemma InjectedAt(added: Snapshot, mid: Snapshot, injected: Snapshot, all: set<Tx>, state: ChainState,
                   before: Address -> Uint64, locals: set<Address>, cap: nat, accounts: set<Address>, a: Address)
    requires Promotes(added.pending, added.queue, added.nonces, mid.pending, mid.queue, mid.nonces, state, locals, cap,
                      accounts)
    requires Agree(added.pending, added.queue, all) && Cuts(mid.pending, injected.pending)
    requires NoncesFall(mid.pending, injected.pending, mid.nonces, injected.nonces, state.nonce)
    requires RunFrom(Get(added.pending, a), before(a)) && Sunk(added.pending, added.nonces, state.nonce)
    ensures Injected(Get(added.pending, a),
                     Payable(Get(added.queue, a), state.nonce(a), state.balance(a), state.maxGas),
                     Get(injected.pending, a), before(a), NonceOf(added.nonces, state.nonce, a),
                     NonceOf(injected.nonces, state.nonce, a), state.nonce(a), a in accounts,
                     TooDear(state.balance(a), state.maxGas))
  {
    hide *;
    FiledApart(added.pending, added.queue, all, a);
    SunkIs(added.pending, added.nonces, state.nonce, a);
    CutsAt(mid.pending, injected.pending, a);
    FallsAt(mid.pending, injected.pending, mid.nonces, injected.nonces, state.nonce, a);
    PromotesTo(added.pending, added.queue, added.nonces, mid.pending, mid.queue, mid.nonces, state, locals, cap,
               accounts, a);
    MeansInjected(Get(added.pending, a), Get(added.queue, a), Get(mid.pending, a), Get(injected.pending, a), before(a),
                  NonceOf(added.nonces, state.nonce, a), NonceOf(mid.nonces, state.nonce, a),
                  NonceOf(injected.nonces, state.nonce, a), a in accounts, a, state);
  }

  lemma SunkIs(p: Table, nonces: map<Address, nat>, state: Address -> Uint64, a: Address)
    requires Sunk(p, nonces, state)
    ensures SunkAt(Get(p, a), NonceOf(nonces, state, a), state(a))
  {
  }

  lemma CutsAt(m: Table, m': Table, a: Address)
    requires Cuts(m, m')
    ensures Front(Get(m', a), Get(m, a))
  {
  }

  lemma FallsAt(p: Table, p': Table, nonces: map<Address, nat>, nonces': map<Address, nat>, state: Address -> Uint64,
                a: Address)
    requires NoncesFall(p, p', nonces, nonces', state)
    ensures FallsTo(Get(p, a), Get(p', a), NonceOf(nonces, state, a), NonceOf(nonces', state, a))
  {
  }

  /** What a promotion does to an account that may not be among those promoted. */
  lemma PromotesTo(p: Table, q: Table, nonces: map<Address, nat>, p': Table, q': Table, nonces': map<Address, nat>,
                   state: ChainState, locals: set<Address>, cap: nat, accounts: set<Address>, a: Address)
    requires Promotes(p, q, nonces, p', q', nonces', state, locals, cap, accounts)
    ensures var list := Payable(Get(q, a), state.nonce(a), state.balance(a), state.maxGas);
            var pn := NonceOf(nonces, state.nonce, a);
            var run := ReadyPart(list, pn, a in accounts);
            && Get(p', a) == Get(p, a) + run
            && (run != map[] ==> ReadyEnd(list, pn) > 0)
            && NonceOf(nonces', state.nonce, a) == (if run == map[] then pn else Next(ReadyEnd(list, pn) - 1))
            && (a in accounts ==> Get(q', a).Keys <= list.Keys)
  {
    hide Promotes, Payable, ReadyEnd, Below, NonceOf, Get, PromotedAt;
    PromotesAt(p, q, nonces, p', q', nonces', state, locals, cap, accounts, a);
    if a in accounts {
      PromotedTo(p, q, nonces, p', q', nonces', state, locals, cap, a);
    } else {
      NothingAdded(Get(p, a));
    }
  }

  lemma PromotedTo(p: Table, q: Table, nonces: map<Address, nat>, p': Table, q': Table, nonces': map<Address, nat>,
                   state: ChainState, locals: set<Address>, cap: nat, a: Address)
    requires PromotedAt(p, q, nonces, p', q', nonces', state, locals, cap, a)
    ensures var list := Payable(Get(q, a), state.nonce(a), state.balance(a), state.maxGas);
            var pn := NonceOf(nonces, state.nonce, a);
            var run := Below(list, ReadyEnd(list, pn));
            && Get(p', a) == Get(p, a) + run
            && (run != map[] ==> ReadyEnd(list, pn) > 0)
            && NonceOf(nonces', state.nonce, a) == (if run == map[] then pn else Next(ReadyEnd(list, pn) - 1))
            && Get(q', a).Keys <= list.Keys
  {
    hide Payable, ReadyEnd, Below, Lowest, NonceOf, Get, From;
    var list, pn := Payable(Get(q, a), state.nonce(a), state.balance(a), state.maxGas), NonceOf(nonces, state.nonce, a);
    ReadyRun(list, pn);
    FromIsPart(list, ReadyEnd(list, pn));
    LowestIsPart(From(list, ReadyEnd(list, pn)), cap);
  }

  lemma MeansInjected(p: Items, q: Items, m: Items, cut: Items, first: nat, pn: nat, mn: nat, n: nat, promoted: bool,
                      a: Address, state: ChainState)
    requires RunFrom(p, first) && Filed(q, a) && p.Keys !! q.Keys && SunkAt(p, pn, state.nonce(a))
    requires Front(cut, m) && FallsTo(m, cut, mn, n)
    requires var list := Payable(q, state.nonce(a), state.balance(a), state.maxGas);
             var run := ReadyPart(list, pn, promoted);
             && m == p + run && (run != map[] ==> ReadyEnd(list, pn) > 0)
             && mn == if run == map[] then pn else Next(ReadyEnd(list, pn) - 1)
    ensures Injected(p, Payable(q, state.nonce(a), state.balance(a), state.maxGas), cut, first, pn, n, state.nonce(a),
                     promoted, TooDear(state.balance(a), state.maxGas))
  {
    hide RunFrom, Payable, ReadyPart, ReadyEnd, Front, FallsTo, TooDear;
    PayableMeans(q, a, state);
  }

  lemma PayableMeans(q: Items, a: Address, state: ChainState)
    requires Filed(q, a)
    ensures var list := Payable(q, state.nonce(a), state.balance(a), state.maxGas);
            list.Keys <= q.Keys && forall k :: k in list ==>
              state.nonce(a) <= k < TWO_64 && !TooDear(state.balance(a), state.maxGas)(list[k])
  {
    QueuedNonces(q, a);
  }

  /** An account recovers exactly if it is not spoiled. */
  lemma RecoveredExactly(added: Snapshot, mid: Snapshot, injected: Snapshot, p': Table, q': Table, all: set<Tx>,
                         state: ChainState, before: Address -> Uint64, locals: set<Address>, cap: nat,
                         accounts: set<Address>, a: Address)
    requires Promotes(added.pending, added.queue, added.nonces, mid.pending, mid.queue, mid.nonces, state, locals, cap,
                      accounts)
    requires Agree(added.pending, added.queue, all) && Cuts(mid.pending, injected.pending)
    requires NoncesFall(mid.pending, injected.pending, mid.nonces, injected.nonces, state.nonce)
    requires RunFrom(Get(added.pending, a), before(a)) && Sunk(added.pending, added.nonces, state.nonce)
    requires Demotes(injected.pending, injected.queue, p', q', state, {})
    ensures RecoveredAt(p', injected.nonces, state, a) <==>
              !SpoiledAt(added, injected.pending, state, before, accounts, a)
  {
    hide *;
    InjectedAt(added, mid, injected, all, state, before, locals, cap, accounts, a);
    var list := Payable(Get(added.queue, a), state.nonce(a), state.balance(a), state.maxGas);
    var dear := TooDear(state.balance(a), state.maxGas);
    RecoversExactly(Get(added.pending, a), list, Get(injected.pending, a), before(a),
                    NonceOf(added.nonces, state.nonce, a), NonceOf(injected.nonces, state.nonce, a), state.nonce(a),
                    a in accounts, dear);
    RecoveredIs(injected, p', q', state, a);
    SpoiledIs(added, injected.pending, state, before, accounts, a);
  }

  lemma RecoveredIs(injected: Snapshot, p': Table, q': Table, state: ChainState, a: Address)
    requires Demotes(injected.pending, injected.queue, p', q', state, {})
    ensures Get(p', a) ==
              StillPending(Get(injected.pending, a), state.nonce(a), TooDear(state.balance(a), state.maxGas))
    ensures RecoveredAt(p', injected.nonces, state, a) <==>
              Recovers(Get(injected.pending, a), NonceOf(injected.nonces, state.nonce, a), state.nonce(a),
                       TooDear(state.balance(a), state.maxGas))
  {
    hide StillPending, Demoted, TooDear, Unbroken, NonceOf;
    DemotesAt(injected.pending, injected.queue, p', q', state, a);
  }

  lemma SpoiledIs(added: Snapshot, left: Table, state: ChainState, before: Address -> Uint64, accounts: set<Address>,
                  a: Address)
    ensures SpoiledAt(added, left, state, before, accounts, a) <==>
              Spoiled(Get(added.pending, a),
                      Payable(Get(added.queue, a), state.nonce(a), state.balance(a), state.maxGas),
                      Get(left, a), before(a), NonceOf(added.nonces, state.nonce, a), state.nonce(a), a in accounts,
                      TooDear(state.balance(a), state.maxGas))
  {
    hide Spoiled;
  }

  /** The pool recovers exactly if no account is spoiled. */
  lemma RecoveredAll(added: Snapshot, mid: Snapshot, injected: Snapshot, p': Table, q': Table, all: set<Tx>,
                     state: ChainState, before: Address -> Uint64, locals: set<Address>, cap: nat,
                     accounts: set<Address>)
    requires Promotes(added.pending, added.queue, added.nonces, mid.pending, mid.queue, mid.nonces, state, locals, cap,
                      accounts)
    requires Agree(added.pending, added.queue, all) && Cuts(mid.pending, injected.pending)
    requires NoncesFall(mid.pending, injected.pending, mid.nonces, injected.nonces, state.nonce)
    requires RunsFrom(added.pending, before) && Sunk(added.pending, added.nonces, state.nonce)
    requires Demotes(injected.pending, injected.queue, p', q', state, {})
    ensures Recovered(p', injected.nonces, state) <==> Unspoiled(added, injected.pending, state, before, accounts)
  {
    hide Promotes, Agree, Cuts, NoncesFall, Sunk, Demotes, RunFrom, RecoveredAt, SpoiledAt, Get;
    forall a ensures RecoveredAt(p', injected.nonces, state, a) <==>
                       !SpoiledAt(added, injected.pending, state, before, accounts, a)
    {
      assert RunFrom(Get(added.pending, a), before(a));
      RecoveredExactly(added, mid, injected, p', q', all, state, before, locals, cap, accounts, a);
    }
  }

  lemma IntactIs(txs: seq<Tx>, r: Reinjection, left: Table, state: ChainState, before: Address -> Uint64)
    requires |r.trail| == |r.errs| <= |txs|
    ensures Intact(txs, r, left, state, before) <==>
              Unspoiled(r.added.lists, left, state, before, Dirty(txs, r.trail, r.errs))
    ensures Ungapped(txs, r, state, before) <==>
              forall a :: !Gapped(r.added.lists, state, before, Dirty(txs, r.trail, r.errs), a)
    ensures Uncut(txs, r, left) <==> Dirty(txs, r.trail, r.errs) == {} || r.mid.pending == left
  {
    hide Unspoiled, Gapped, Dirty;
  }

  lemma RunsAt(p: Table, before: Address -> Uint64, a: Address)
    requires RunsFrom(p, before)
    ensures RunFrom(Get(p, a), before(a))
  {
  }

  lemma UnspoiledIs(added: Snapshot, left: Table, state: ChainState, before: Address -> Uint64, accounts: set<Address>)
    requires forall a :: SpoiledAt(added, left, state, before, accounts, a) <==>
                           Gapped(added, state, before, accounts, a)
    ensures Unspoiled(added, left, state, before, accounts) <==>
              forall a :: !Gapped(added, state, before, accounts, a)
  {
    hide SpoiledAt, Gapped;
  }

  lemma SomeoneSpoiled(added: Snapshot, left: Table, state: ChainState, before: Address -> Uint64,
                       accounts: set<Address>)
    returns (a: Address)
    requires !Unspoiled(added, left, state, before, accounts)
    ensures SpoiledAt(added, left, state, before, accounts, a)
  {
    hide SpoiledAt;
    a :| SpoiledAt(added, left, state, before, accounts, a);
  }

  /** The pending nonces restart behind the lists; an account without one keeps its own. */
  lemma TornNonce(injected: Snapshot, adjusted: Snapshot, state: ChainState, a: Address)
    requires adjusted.nonces.Keys == injected.nonces.Keys + adjusted.pending.Keys
    requires forall a :: a in adjusted.nonces && a !in adjusted.pending ==> adjusted.nonces[a] == injected.nonces[a]
    requires forall a :: a in adjusted.pending ==> adjusted.pending[a] != map[]
    requires Torn(Get(adjusted.pending, a), Get(adjusted.queue, a), NonceOf(injected.nonces, state.nonce, a),
                  state.nonce(a))
    ensures Torn(Get(adjusted.pending, a), Get(adjusted.queue, a), NonceOf(adjusted.nonces, state.nonce, a),
                 state.nonce(a))
  {
  }

  /** When truncation leaves the promoted lists alone, the lists after the additions decide. */
  lemma GappedExactly(added: Snapshot, mid: Snapshot, all: set<Tx>, state: ChainState, before: Address -> Uint64,
                      locals: set<Address>, cap: nat, accounts: set<Address>, a: Address)
    requires Promotes(added.pending, added.queue, added.nonces, mid.pending, mid.queue, mid.nonces, state, locals, cap,
                      accounts)
    requires Agree(added.pending, added.queue, all) && Sunk(added.pending, added.nonces, state.nonce)
    requires RunFrom(Get(added.pending, a), before(a))
    ensures SpoiledAt(added, mid.pending, state, before, accounts, a) <==> Gapped(added, state, before, accounts, a)
  {
    hide Promotes, Agree, Sunk, RunFrom, Get, NonceOf, Payable, ReadyEnd, Spoiled, TooDear, ReadyPart;
    var list := Payable(Get(added.queue, a), state.nonce(a), state.balance(a), state.maxGas);
    FiledApart(added.pending, added.queue, all, a);
    PayableMeans(Get(added.queue, a), a, state);
    SunkIs(added.pending, added.nonces, state.nonce, a);
    PromotesTo(added.pending, added.queue, added.nonces, mid.pending, mid.queue, mid.nonces, state, locals, cap,
               accounts, a);
    SpoiledUncut(Get(added.pending, a), list, before(a), NonceOf(added.nonces, state.nonce, a), state.nonce(a),
                 a in accounts, TooDear(state.balance(a), state.maxGas));
  }

  /** The lists of a spoiled account show it. */
  lemma SpoiledShows(added: Snapshot, mid: Snapshot, injected: Snapshot, p': Table, q': Table, all: set<Tx>,
                     state: ChainState, before: Address -> Uint64, locals: set<Address>, cap: nat,
                     accounts: set<Address>, a: Address)
    requires Promotes(added.pending, added.queue, added.nonces, mid.pending, mid.queue, mid.nonces, state, locals, cap,
                      accounts)
    requires Agree(added.pending, added.queue, all) && Cuts(mid.pending, injected.pending)
    requires NoncesFall(mid.pending, injected.pending, mid.nonces, injected.nonces, state.nonce)
    requires RunFrom(Get(added.pending, a), before(a)) && Sunk(added.pending, added.nonces, state.nonce)
    requires Get(injected.queue, a).Keys <= Get(mid.queue, a).Keys
    requires Demotes(injected.pending, injected.queue, p', q', state, {})
    requires SpoiledAt(added, injected.pending, state, before, accounts, a)
    ensures Torn(Get(p', a), Get(q', a), NonceOf(injected.nonces, state.nonce, a), state.nonce(a))
  {
    hide *;
    InjectedAt(added, mid, injected, all, state, before, locals, cap, accounts, a);
    PromotesTo(added.pending, added.queue, added.nonces, mid.pending, mid.queue, mid.nonces, state, locals, cap,
               accounts, a);
    var list := Payable(Get(added.queue, a), state.nonce(a), state.balance(a), state.maxGas);
    RecoveredIs(injected, p', q', state, a);
    RequeuedIs(injected, p', q', state, a);
    SpoiledIs(added, injected.pending, state, before, accounts, a);
    SpoiledTears(Get(added.pending, a), list, Get(injected.pending, a), before(a),
                 NonceOf(added.nonces, state.nonce, a), NonceOf(injected.nonces, state.nonce, a), state.nonce(a),
                 a in accounts, TooDear(state.balance(a), state.maxGas), Get(q', a));
  }

  lemma RequeuedIs(injected: Snapshot, p': Table, q': Table, state: ChainState, a: Address)
    requires Demotes(injected.pending, injected.queue, p', q', state, {})
    ensures Get(q', a).Keys <= Get(injected.queue, a).Keys + Get(injected.pending, a).Keys
  {
    hide Kept, Invalidated, Demotes, TooDear;
    DemotesAt(injected.pending, injected.queue, p', q', state, a);
    FilterParts(From(Get(injected.pending, a), state.nonce(a)), TooDear(state.balance(a), state.maxGas));
  }

  /** A torn account stays torn in a promotion without truncation. */
  lemma TornStays(adjusted: Snapshot, mid: Snapshot, after: Snapshot, all: set<Tx>, config: Config, state: ChainState,
                  locals: set<Address>, accounts: set<Address>, level: nat, now: int, a: Address)
    requires Settled(adjusted, mid, after, config, state, locals, accounts, level, now) && mid.pending == after.pending
    requires Agree(adjusted.pending, adjusted.queue, all)
    requires Torn(Get(adjusted.pending, a), Get(adjusted.queue, a), NonceOf(adjusted.nonces, state.nonce, a),
                  state.nonce(a))
    ensures !GapFree(after.pending, after.nonces, state.nonce)
  {
    hide *;
    var list := Payable(Get(adjusted.queue, a), state.nonce(a), state.balance(a), state.maxGas);
    var pn := NonceOf(adjusted.nonces, state.nonce, a);
    SettledMeans(adjusted, mid, after, config, state, locals, accounts, level, now);
    FiledApart(adjusted.pending, adjusted.queue, all, a);
    PayableMeans(Get(adjusted.queue, a), a, state);
    FallsAt(mid.pending, after.pending, mid.nonces, after.nonces, state.nonce, a);
    PromotesTo(adjusted.pending, adjusted.queue, adjusted.nonces, mid.pending, mid.queue, mid.nonces, state, locals,
               config.accountQueue, accounts, a);
    TornItems(Get(adjusted.pending, a), Get(adjusted.queue, a), list, Get(mid.pending, a), pn,
              NonceOf(mid.nonces, state.nonce, a), NonceOf(after.nonces, state.nonce, a), state.nonce(a),
              a in accounts);
    NotGapFree(after.pending, after.nonces, state.nonce, a);
  }

  lemma SettledMeans(before: Snapshot, mid: Snapshot, after: Snapshot, config: Config, state: ChainState,
                     locals: set<Address>, accounts: set<Address>, level: nat, now: int)
    requires Settled(before, mid, after, config, state, locals, accounts, level, now)
    ensures Promotes(before.pending, before.queue, before.nonces, mid.pending, mid.queue, mid.nonces,
                     state, locals, config.accountQueue, accounts)
    ensures NoncesFall(mid.pending, after.pending, mid.nonces, after.nonces, state.nonce)
    ensures Cuts(mid.pending, after.pending) && forall a :: Get(after.queue, a).Keys <= Get(mid.queue, a).Keys
    ensures WaterFilled(mid.pending, after.pending, locals, config.accountSlots, config.globalSlots, level)
  {
    hide Promotes, NoncesFall, Cuts, Level, Lowest, Total;
    LevelCuts(mid.pending, locals, level);
    forall a ensures Get(after.queue, a).Keys <= Get(mid.queue, a).Keys {
      LowestIsPart(Get(mid.queue, a), |Get(after.queue, a)|);
    }
  }

  lemma NotGapFree(p: Table, nonces: map<Address, nat>, state: Address -> Uint64, a: Address)
    requires !(GapFreeAt(Get(p, a), state(a), NonceOf(nonces, state, a)) && NonceOf(nonces, state, a) < TWO_64)
    ensures !GapFree(p, nonces, state)
  {
    hide GapFreeAt, Get, NonceOf;
    var _ := GapFreeAt(Get(p, a), state(a), NonceOf(nonces, state, a));
  }

  lemma TornItems(p: Items, q: Items, list: Items, m: Items, pn: nat, mn: nat, n: nat, s: nat, promoted: bool)
    requires Torn(p, q, pn, s) && list.Keys <= q.Keys && forall k :: k in list ==> s <= k < TWO_64
    requires m == p + ReadyPart(list, pn, promoted) && FallsTo(m, m, mn, n)
    requires ReadyPart(list, pn, promoted) == map[] ==> mn == pn
    ensures !(GapFreeAt(m, s, n) && n < TWO_64)
  {
    if p == map[] && pn < s {
      ReadyShape(list, s, pn);
    } else if TWO_64 - 1 in p {
      assert TWO_64 - 1 in m;
    } else {
      var hole, k :| HoleAt(p, q, s, hole, k);
      assert k in m && hole !in m;
    }
  }

  /** The senders of transactions that were added and replaced none. */
  ghost function Dirty(txs: seq<Tx>, trail: seq<Adding>, errs: seq<Option<TxError>>): set<Address>
    requires |trail| == |errs| <= |txs|
  {
    set i | 0 <= i < |trail| && errs[i] == None && !trail[i].replaced :: txs[i].from
  }

  lemma DirtyMore(txs: seq<Tx>, trail: seq<Adding>, errs: seq<Option<TxError>>, x: Adding, err: Option<TxError>)
    requires |trail| == |errs| < |txs|
    ensures Dirty(txs, trail + [x], errs + [err]) ==
            Dirty(txs, trail, errs) + (if err == None && !x.replaced then {txs[|trail|].from} else {})
  {
    var trail', errs' := trail + [x], errs + [err];
    assert forall i :: 0 <= i < |trail| ==> trail'[i] == trail[i] && errs'[i] == errs[i];
    forall a | a in Dirty(txs, trail, errs) ensures a in Dirty(txs, trail', errs') {
      var i :| 0 <= i < |trail| && errs[i] == None && !trail[i].replaced && txs[i].from == a;
      assert errs'[i] == None && !trail'[i].replaced;
    }
  }

  lemma NobodyDirty(txs: seq<Tx>, trail: seq<Adding>, errs: seq<Option<TxError>>, was: Standing)
    requires |trail| == |errs| == |txs|
    ensures txs == [] ==> Dirty(txs, trail, errs) == {} && LastOf(trail, was) == was
  {
  }
}
