/** The tables of the transaction pool as the pool keeps them, a TxList object per account
    (kernel/tx_pool.go): every operation that the pool performs on them is the update of the table of
    contents that the model of the pool makes. */
module ListTables {
  import opened Wrappers
  import opened Transactions
  import opened SortedMap
  import opened TxLists
  import opened PoolSpec

  class ListTable {
    /** The lists of the pending table are strict, those of the queue are not. */
    const strict: bool
    var lists: map<Address, TxList>

    ghost function Repr(): set<object>
      reads this
    {
      (set a | a in lists :: lists[a] as object) + (set a | a in lists :: lists[a].txs as object)
    }

    /** Every list is in order, and no two accounts share one. */
    ghost predicate Valid()
      reads this, Repr()
    {
      && (forall a :: a in lists ==> lists[a].Valid() && lists[a].strict == strict)
      && forall a, b :: a in lists && b in lists && a != b ==> lists[a] != lists[b] && lists[a].txs != lists[b].txs
    }

    /** What the lists hold, by account and nonce. */
    ghost function Content(): Table
      reads this, Repr()
    {
      map a | a in lists :: lists[a].txs.items
    }

    constructor (strict: bool)
      ensures Valid() && this.strict == strict && lists == map[] && Content() == map[]
    {
      this.strict, lists := strict, map[];
    }

    /** A step on one list leaves the others alone. */
    twostate lemma OneTouched(a: Address)
      requires old(Valid()) && lists == old(lists) && a in lists && lists[a].Valid()
      requires forall b :: b in lists && b != a ==> unchanged(lists[b]) && unchanged(lists[b].txs)
      ensures Valid() && Content() == old(Content())[a := lists[a].txs.items]
    {
      hide TxList.Valid;
    }

    method Forward(a: Address, threshold: nat) returns (removed: seq<Tx>)
      requires Valid() && a in lists
      modifies lists[a], lists[a].txs
      ensures Valid() && Lists(removed, Below(old(Content())[a], threshold))
      ensures Content() == old(Content())[a := From(old(Content())[a], threshold)]
    {
      removed := lists[a].Forward(threshold);
      OneTouched(a);
    }

    method Filter(a: Address, costLimit: int, gasLimit: nat) returns (removed: seq<Tx>, invalids: seq<Tx>)
      requires Valid() && a in lists
      modifies lists[a], lists[a].txs
      ensures Valid()
      ensures var m, dear := old(Content())[a], TooDear(costLimit, gasLimit);
              && Elems(removed) == Where(m, dear).Values
              && Distinct(invalids) && Elems(invalids) == Invalidated(m, strict, dear).Values
              && Content() == old(Content())[a := Kept(m, strict, dear)]
    {
      removed, invalids := lists[a].Filter(costLimit, gasLimit);
      OneTouched(a);
    }

    method Ready(a: Address, start: nat) returns (ready: seq<Tx>)
      requires Valid() && a in lists
      modifies lists[a], lists[a].txs
      ensures Valid()
      ensures var m := old(Content())[a];
              && Lists(ready, Below(m, ReadyEnd(m, start)))
              && Content() == old(Content())[a := From(m, ReadyEnd(m, start))]
    {
      ready := lists[a].Ready(start);
      OneTouched(a);
    }

    method Cap(a: Address, threshold: nat) returns (drops: seq<Tx>)
      requires Valid() && a in lists
      modifies lists[a], lists[a].txs
      ensures Valid() && Descending(drops) && Elems(drops) == Beyond(old(Content())[a], threshold).Values
      ensures Content() == old(Content())[a := Lowest(old(Content())[a], threshold)]
    {
      drops := lists[a].Cap(threshold);
      OneTouched(a);
    }

    /** An account without transactions has no list. */
    method DropIfEmpty(a: Address)
      requires Valid() && a in lists
      modifies this
      ensures Valid() && Content() == Store(old(Content()), a, old(Content())[a])
      ensures lists == (if old(Content())[a] == map[] then old(lists) - {a} else old(lists)) && Repr() <= old(Repr())
    {
      hide TxList.Valid;
      if lists[a].txs.items == map[] {
        lists := lists - {a};
      }
      assert Content() == Store(old(Content()), a, old(Content())[a]);
    }

    /** Gives an account an empty list. */
    method NewList(a: Address)
      requires Valid() && a !in lists
      modifies this
      ensures Valid() && a in lists && fresh(lists[a]) && fresh(lists[a].txs) && lists == old(lists)[a := lists[a]]
      ensures Content() == old(Content())[a := map[]] && fresh(Repr() - old(Repr()))
    {
      hide TxList.Valid, Valid, Content;
      var list := new TxList(strict);
      lists := lists[a := list];
      Joins(a);
    }

    /** A new list joins the table. */
    twostate lemma Joins(a: Address)
      requires old(Valid()) && a !in old(lists) && a in lists && lists == old(lists)[a := lists[a]]
      requires lists[a].Valid() && lists[a].strict == strict && lists[a].txs.items == map[]
      requires fresh(lists[a]) && fresh(lists[a].txs)
      requires forall b :: b in old(lists) ==> unchanged(old(lists)[b]) && unchanged(old(lists)[b].txs)
      ensures Valid() && Content() == old(Content())[a := map[]]
    {
      hide TxList.Valid;
    }

    /** Files a transaction, in a new list if the account has none. */
    method Add(a: Address, tx: Tx, priceBump: nat) returns (inserted: bool, replaced: Option<Tx>)
      requires Valid()
      modifies this, if a in lists then {lists[a] as object, lists[a].txs} else {}
      ensures Valid() && fresh(Repr() - old(Repr()))
      ensures var m := Get(old(Content()), a);
              && inserted == (tx.nonce in m ==> Replaces(tx, m[tx.nonce], priceBump))
              && replaced == (if inserted && tx.nonce in m then Some(m[tx.nonce]) else None)
              && Content() == old(Content())[a := if inserted then Plus(m, tx) else m]
    {
      hide *;
      ContentHas(a);
      GetMeans(Content(), a);
      SetAgain(Content(), a, map[], map[]);
      if a !in lists {
        SetAgain(Content(), a, map[], Plus(map[], tx));
        NewList(a);
      }
      inserted, replaced := AddTo(a, tx, priceBump);
    }

    method AddTo(a: Address, tx: Tx, priceBump: nat) returns (inserted: bool, replaced: Option<Tx>)
      requires Valid() && a in lists
      modifies lists[a], lists[a].txs
      ensures Valid()
      ensures var m := old(Content())[a];
              && inserted == (tx.nonce in m ==> Replaces(tx, m[tx.nonce], priceBump))
              && replaced == (if inserted && tx.nonce in m then Some(m[tx.nonce]) else None)
              && Content() == old(Content())[a := if inserted then Plus(m, tx) else m]
    {
      hide TxList.Valid, Replaces;
      inserted, replaced := lists[a].Add(tx, priceBump);
      OneTouched(a);
    }

    /** Removes a transaction; a strict list gives up everything above it. */
    method Remove(a: Address, tx: Tx) returns (ok: bool, invalids: seq<Tx>)
      requires Valid() && a in lists
      modifies lists[a], lists[a].txs
      ensures Valid() && lists == old(lists) && ok == (tx.nonce in old(Content())[a])
      ensures var m := old(Content())[a];
              && Distinct(invalids) && Elems(invalids) == (if ok && strict then From(m, tx.nonce + 1).Values else {})
              && Content() == old(Content())[a := if ok && strict then Below(m, tx.nonce) else m - {tx.nonce}]
    {
      hide TxList.Valid, Below, From;
      ok, invalids := lists[a].Remove(tx);
      OneTouched(a);
    }

    /** What promotion does with the queued list of an account: stale and unaffordable transactions
        go, the ready run is taken out, and what is left is capped unless the account is local. */
    method Promotable(a: Address, stateNonce: nat, balance: int, maxGas: nat, start: nat, cap: nat, local: bool)
      returns (gone: seq<Tx>, ready: seq<Tx>)
      requires Valid() && !strict && a in lists
      modifies this, lists[a], lists[a].txs
      ensures Valid() && Repr() <= old(Repr())
      ensures var m := old(Content())[a];
              var list := Payable(m, stateNonce, balance, maxGas);
              var end := ReadyEnd(list, start);
              && Lists(ready, Below(list, end))
              && Content() == Store(old(Content()), a, if local then From(list, end) else Lowest(From(list, end), cap))
              && Elems(gone) ==
                   Below(m, stateNonce).Values + Where(From(m, stateNonce), TooDear(balance, maxGas)).Values
                                + if local then {} else Beyond(From(list, end), cap).Values
    {
      hide *;
      ghost var was := Content();
      ContentHas(a);
      ghost var live := From(was[a], stateNonce);
      ghost var list := Payable(was[a], stateNonce, balance, maxGas);
      ghost var left := From(list, ReadyEnd(list, start));
      var stale := Forward(a, stateNonce);
      var drops, none := Filter(a, balance, maxGas);
      PayableIs(was[a], stateNonce, balance, maxGas);
      SetAgain(was, a, live, list);
      ready := Ready(a, start);
      SetAgain(was, a, list, left);
      var over := [];
      if !local {
        over := Cap(a, cap);
        SetAgain(was, a, left, Lowest(left, cap));
        left := Lowest(left, cap);
      }
      DropIfEmpty(a);
      StoreOver(was, a, left, left);
      gone := stale + drops + over;
      Joined(stale, drops, over);
      ListsEnumerate(stale, Below(was[a], stateNonce));
    }

    lemma ContentHas(a: Address)
      ensures a in Content() <==> a in lists
      ensures a in lists ==> Content()[a] == lists[a].txs.items
    {
    }

    /** What demotion does with the pending list of an account: stale and unaffordable transactions
        go, and what is no longer executable is to be queued again. */
    method Demote(a: Address, stateNonce: nat, balance: int, maxGas: nat) returns (gone: seq<Tx>, back: seq<Tx>)
      requires Valid() && strict && a in lists && Keyed(Content()[a])
      modifies this, lists[a], lists[a].txs
      ensures Valid() && Repr() <= old(Repr())
      ensures var m, dear := old(Content())[a], TooDear(balance, maxGas);
              && Distinct(back) && Elems(back) == Demoted(m, stateNonce, dear).Values
              && Content() == Store(old(Content()), a, StillPending(m, stateNonce, dear))
              && Elems(gone) == Below(m, stateNonce).Values + Where(From(m, stateNonce), dear).Values
    {
      hide *;
      ghost var was, dear := Content(), TooDear(balance, maxGas);
      ContentHas(a);
      var stale := Forward(a, stateNonce);
      var drops, invalids := Filter(a, balance, maxGas);
      ghost var live := From(was[a], stateNonce);
      ghost var kept := Kept(live, true, dear);
      SetAgain(was, a, live, kept);
      var rest := CapUnlessAt(a, stateNonce);
      ghost var left := if stateNonce in kept then kept else map[];
      SetAgain(was, a, kept, left);
      DropIfEmpty(a);
      DemotedIs(was[a], stateNonce, dear);
      StoreOver(was, a, left, left);
      gone, back := stale + drops, invalids + rest;
      Joined(stale, drops, []);
      Joined(invalids, rest, []);
      JoinedDistinct(invalids, rest, was[a], stateNonce, dear);
      ListsEnumerate(stale, Below(was[a], stateNonce));
    }

    method CutTop(a: Address)
      requires Valid() && a in lists && a in Content() && Content()[a] != map[]
      modifies lists[a], lists[a].txs
      ensures Valid() && Content() == old(Content())[a := Lowest(old(Content())[a], |old(Content())[a]| - 1)]
    {
      hide TxList.Valid, Valid, Lowest, Beyond;
      var drops := Cap(a, |lists[a].txs.items| - 1);
    }

    /** Gives up a list that does not start at the given nonce. */
    method CapUnlessAt(a: Address, nonce: nat) returns (drops: seq<Tx>)
      requires Valid() && a in lists
      modifies lists[a], lists[a].txs
      ensures Valid() && lists == old(lists) && Distinct(drops)
      ensures var m := old(Content())[a];
              && Content() == old(Content())[a := if nonce in m then m else map[]]
              && Elems(drops) == if nonce in m then {} else m.Values
    {
      hide TxList.Valid, Valid, Lowest, Beyond, Elems, Lists;
      drops := [];
      Joined([], [], []);
      LowestNone(lists[a].txs.items);
      if lists[a].txs.items != map[] && nonce !in lists[a].txs.items {
        drops := Cap(a, 0);
      }
      assert old(Content())[a := old(Content())[a]] == old(Content());
    }
  }

  /** Two tables that share no list. */
  ghost predicate Apart(t: ListTable, u: ListTable)
    reads t, u, t.Repr(), u.Repr()
  {
    t != u && t.Valid() && u.Valid() && t.Repr() !! u.Repr()
  }

  lemma ApartMeans(t: ListTable, u: ListTable)
    requires Apart(t, u)
    ensures t != u && t.Valid() && u.Valid() && t.Repr() !! u.Repr() && u !in t.Repr() && t !in u.Repr() && Apart(u, t)
  {
    hide ListTable.Valid;
  }

  lemma MeansApart(t: ListTable, u: ListTable)
    requires t != u && t.Valid() && u.Valid() && t.Repr() !! u.Repr()
    ensures Apart(t, u)
  {
    hide ListTable.Valid;
  }

  method AddTo(t: ListTable, a: Address, tx: Tx, priceBump: nat) returns (inserted: bool, replaced: Option<Tx>)
    requires t.Valid()
    modifies t, t.Repr()
    ensures t.Valid() && fresh(t.Repr() - old(t.Repr()))
    ensures var m := Get(old(t.Content()), a);
            && inserted == (tx.nonce in m ==> Replaces(tx, m[tx.nonce], priceBump))
            && replaced == (if inserted && tx.nonce in m then Some(m[tx.nonce]) else None)
            && t.Content() == old(t.Content())[a := if inserted then Plus(m, tx) else m]
  {
    hide ListTable.Valid, Get, Replaces, ListTable.Content;
    inserted, replaced := t.Add(a, tx, priceBump);
  }

  /** Files a transaction in one table, next to the other. */
  method FileIn(t: ListTable, u: ListTable, a: Address, tx: Tx, priceBump: nat)
    returns (inserted: bool, replaced: Option<Tx>)
    requires Apart(t, u)
    modifies t, t.Repr()
    ensures Apart(t, u) && u.Content() == old(u.Content()) && u.Repr() == old(u.Repr())
    ensures fresh(t.Repr() - old(t.Repr()))
    ensures var m := Get(old(t.Content()), a);
            && inserted == (tx.nonce in m ==> Replaces(tx, m[tx.nonce], priceBump))
            && replaced == (if inserted && tx.nonce in m then Some(m[tx.nonce]) else None)
            && t.Content() == old(t.Content())[a := if inserted then Plus(m, tx) else m]
  {
    hide ListTable.Valid, Get, Replaces, Apart, ListTable.Content;
    ApartMeans(t, u);
    inserted, replaced := AddTo(t, a, tx, priceBump);
    assert t.Repr() == (t.Repr() - old(t.Repr())) + (t.Repr() * old(t.Repr()));
    MeansApart(t, u);
  }

  /** Gives an account a list if it has none. */
  method Prepare(t: ListTable, u: ListTable, a: Address)
    requires Apart(t, u)
    modifies t
    ensures Apart(t, u) && a in t.lists && u.Content() == old(u.Content()) && fresh(t.Repr() - old(t.Repr()))
    ensures u.Repr() == old(u.Repr())
    ensures t.Content() == old(t.Content())[a := Get(old(t.Content()), a)]
  {
    hide ListTable.Valid, Apart, ListTable.Content;
    ApartMeans(t, u);
    t.ContentHas(a);
    SetSame(t.Content(), a);
    if a !in t.lists {
      t.NewList(a);
      assert t.Repr() == (t.Repr() - old(t.Repr())) + (t.Repr() * old(t.Repr()));
    }
    MeansApart(t, u);
  }

  /** Files a transaction whose nonce is not in the list of the account yet. */
  method FileFresh(t: ListTable, u: ListTable, a: Address, tx: Tx, priceBump: nat)
    requires Apart(t, u) && a in t.lists && a in t.Content() && tx.nonce !in t.Content()[a]
    modifies t.lists[a], t.lists[a].txs
    ensures Apart(t, u) && u.Content() == old(u.Content()) && u.Repr() == old(u.Repr())
    ensures t.Content() == old(t.Content())[a := Plus(old(t.Content())[a], tx)]
  {
    hide ListTable.Valid, Replaces, Apart, ListTable.Content;
    ApartMeans(t, u);
    var inserted, replaced := t.AddTo(a, tx, priceBump);
    MeansApart(t, u);
  }

  /** Files listed transactions whose nonces are not in the table yet. */
  method FileAll(t: ListTable, u: ListTable, a: Address, txs: seq<Tx>, priceBump: nat, ghost m: Items)
    requires Apart(t, u) && Keyed(m) && Distinct(txs) && Elems(txs) == m.Values
    requires m.Keys !! Get(t.Content(), a).Keys
    modifies t, t.Repr()
    ensures Apart(t, u) && u.Content() == old(u.Content()) && fresh(t.Repr() - old(t.Repr()))
    ensures u.Repr() == old(u.Repr())
    ensures t.Content() == Extended(old(t.Content()), a, m)
  {
    hide Apart, ListTable.Valid, ListTable.Content, Filing, Get, Extended, Keyed, Distinct, Elems, Plus;
    ghost var was := t.Content();
    FilingBegins(txs, m);
    ghost var done: Items := map[];
    if txs == [] {
      ExtendedNone(was, a);
      FilingDone(txs, m, done);
      return;
    }
    Prepare(t, u, a);
    NothingAdded(Get(was, a));
    for i := 0 to |txs|
      invariant Apart(t, u) && a in t.lists && u.Content() == old(u.Content()) && fresh(t.Repr() - old(t.Repr()))
      invariant u.Repr() == old(u.Repr())
      invariant Filing(txs, i, m, done) && t.Content() == was[a := Get(was, a) + done]
    {
      FilingStep(txs, i, m, done);
      ExtendedMore(was, a, done, txs[i]);
      FileFresh(t, u, a, txs[i], priceBump);
      done := Plus(done, txs[i]);
    }
    FilingDone(txs, m, done);
    ExtendedBy(was, a, m, txs);
  }

  /** The table with more transactions of an account. */
  ghost function Extended(was: Table, a: Address, done: Items): Table {
    if done == map[] then was else was[a := Get(was, a) + done]
  }

  lemma ExtendedNone(was: Table, a: Address)
    ensures Extended(was, a, map[]) == was
  {
  }

  lemma ExtendedBy(was: Table, a: Address, m: Items, txs: seq<Tx>)
    requires txs != [] && Elems(txs) == m.Values
    ensures Extended(was, a, m) == was[a := Get(was, a) + m]
  {
    assert txs[0] in Elems(txs);
    assert m != map[];
  }

  lemma ExtendedMore(was: Table, a: Address, done: Items, tx: Tx)
    ensures was[a := Get(was, a) + done][a := Plus(Get(was, a) + done, tx)] == was[a := Get(was, a) + Plus(done, tx)]
  {
    assert Plus(Get(was, a) + done, tx) == Get(was, a) + Plus(done, tx);
  }

  /** In a table without empty lists, extending an account is storing its longer list. */
  lemma ExtendedStores(was: Table, a: Address, m: Items)
    requires NoEmptyList(was)
    ensures Extended(was, a, m) == Store(was, a, Get(was, a) + m)
  {
    NothingAdded(Get(was, a));
    GrowsOrNone(Get(was, a), m);
  }

  lemma GrowsOrNone(x: Items, m: Items)
    ensures x + m == map[] ==> m == map[] && x == map[]
  {
    forall n | n in x || n in m ensures x + m != map[] {
      assert n in x + m;
    }
  }

  /** The two tables of the pool. */
  class PoolLists {
    const pending: ListTable
    const queue: ListTable

    ghost predicate Valid()
      reads pending, queue, pending.Repr(), queue.Repr()
    {
      Apart(pending, queue) && pending.strict && !queue.strict
    }

    constructor ()
      ensures Valid() && pending.Content() == map[] && queue.Content() == map[]
      ensures fresh(pending) && fresh(queue) && pending.Repr() == {} && queue.Repr() == {}
    {
      pending := new ListTable(true);
      queue := new ListTable(false);
    }

    lemma ValidIs()
      ensures Valid() <==> Apart(pending, queue) && pending.strict && !queue.strict
    {
    }

    /** Promotable on the queue, next to the pending table. */
    method TakeReady(a: Address, stateNonce: nat, balance: int, maxGas: nat, start: nat, cap: nat, local: bool)
      returns (gone: seq<Tx>, ready: seq<Tx>)
      requires Valid() && a in queue.Content()
      modifies queue, queue.Repr()
      ensures Valid() && pending.Content() == old(pending.Content()) && queue.Repr() <= old(queue.Repr())
      ensures pending.Repr() == old(pending.Repr())
      ensures var list := Payable(old(queue.Content())[a], stateNonce, balance, maxGas);
              var end := ReadyEnd(list, start);
              && Lists(ready, Below(list, end))
              && queue.Content() ==
                   Store(old(queue.Content()), a, if local then From(list, end) else Lowest(From(list, end), cap))
    {
      hide ListTable.Valid, ListTable.Content, Apart, Payable, ReadyEnd, Below, From, Lowest, Lists, Store, TooDear,
           Where,
           Beyond, Elems;
      ApartMeans(pending, queue);
      queue.ContentHas(a);
      gone, ready := queue.Promotable(a, stateNonce, balance, maxGas, start, cap, local);
      MeansApart(pending, queue);
    }

    /** Promotes the queued list of an account: what the pool does to its two tables, done on the list
        objects. */
    method Promote(a: Address, state: ChainState, start: nat, cap: nat, local: bool, priceBump: nat)
      returns (gone: seq<Tx>)
      requires Valid() && a in queue.Content() && Keyed(queue.Content()[a])
      requires Get(pending.Content(), a).Keys !! queue.Content()[a].Keys
      modifies pending, queue, pending.Repr(), queue.Repr()
      ensures Valid() && fresh(pending.Repr() - old(pending.Repr())) && fresh(queue.Repr() - old(queue.Repr()))
      ensures var list := Payable(old(queue.Content())[a], state.nonce(a), state.balance(a), state.maxGas);
              var end := ReadyEnd(list, start);
              && pending.Content() == Extended(old(pending.Content()), a, Below(list, end))
              && queue.Content() ==
                   Store(old(queue.Content()), a, if local then From(list, end) else Lowest(From(list, end), cap))
    {
      hide Valid, Apart, ListTable.Valid, ListTable.Content, Get, Store, Payable, ReadyEnd, Below, From, Lowest, Lists,
           Keyed, Distinct, Elems, Extended, TooDear, StillPending, Demoted, NoEmptyList;
      ghost var q := queue.Content()[a];
      ghost var list := Payable(q, state.nonce(a), state.balance(a), state.maxGas);
      ghost var run := Below(list, ReadyEnd(list, start));
      RunIsPart(q, state.nonce(a), state.balance(a), state.maxGas, ReadyEnd(list, start));
      var ready;
      gone, ready := TakeReady(a, state.nonce(a), state.balance(a), state.maxGas, start, cap, local);
      ListsEnumerate(ready, run);
      ValidIs();
      ghost var held := pending.Repr();
      FileAll(pending, queue, a, ready, priceBump, run);
      assert fresh(pending.Repr() - held);
      ValidIs();
    }

    /** Adjusts the pending list of an account to the chain state: what the pool does to its two tables,
        done on the list objects. */
    method Demote(a: Address, state: ChainState, priceBump: nat) returns (gone: seq<Tx>)
      requires Valid() && a in pending.Content() && Keyed(pending.Content()[a]) && NoEmptyList(queue.Content())
      requires pending.Content()[a].Keys !! Get(queue.Content(), a).Keys
      modifies pending, queue, pending.Repr(), queue.Repr()
      ensures Valid() && fresh(pending.Repr() - old(pending.Repr())) && fresh(queue.Repr() - old(queue.Repr()))
      ensures var p, dear := old(pending.Content())[a], TooDear(state.balance(a), state.maxGas);
              && pending.Content() == Store(old(pending.Content()), a, StillPending(p, state.nonce(a), dear))
              && queue.Content() ==
                   Store(old(queue.Content()), a, Get(old(queue.Content()), a) + Demoted(p, state.nonce(a), dear))
    {
      hide Valid, Apart, ListTable.Valid, ListTable.Content, Get, Store, Payable, ReadyEnd, Below, From, Lowest, Lists,
           Keyed, Distinct, Elems, Extended, TooDear, StillPending, Demoted, NoEmptyList;
      ghost var p, dear := pending.Content()[a], TooDear(state.balance(a), state.maxGas);
      ghost var again := Demoted(p, state.nonce(a), dear);
      DemotedIsPart(p, state.nonce(a), dear);
      ExtendedStores(queue.Content(), a, again);
      var back;
      gone, back := TakeDemoted(a, state.nonce(a), state.balance(a), state.maxGas);
      ValidIs();
      ApartMeans(pending, queue);
      ghost var held := queue.Repr();
      FileAll(queue, pending, a, back, priceBump, again);
      assert fresh(queue.Repr() - held);
      ApartMeans(queue, pending);
      ValidIs();
    }

    /** Demote on the pending table, next to the queue. */
    method TakeDemoted(a: Address, stateNonce: nat, balance: int, maxGas: nat) returns (gone: seq<Tx>, back: seq<Tx>)
      requires Valid() && a in pending.Content() && Keyed(pending.Content()[a])
      modifies pending, pending.Repr()
      ensures Valid() && queue.Content() == old(queue.Content()) && queue.Repr() == old(queue.Repr())
      ensures pending.Repr() <= old(pending.Repr())
      ensures var p, dear := old(pending.Content())[a], TooDear(balance, maxGas);
              && Distinct(back) && Elems(back) == Demoted(p, stateNonce, dear).Values
              && pending.Content() == Store(old(pending.Content()), a, StillPending(p, stateNonce, dear))
    {
      hide ListTable.Valid, ListTable.Content, Apart, StillPending, Demoted, Below, From, Store, TooDear, Where, Elems,
           Distinct, Keyed;
      ApartMeans(pending, queue);
      pending.ContentHas(a);
      gone, back := pending.Demote(a, stateNonce, balance, maxGas);
      MeansApart(pending, queue);
    }

    /** Files a transaction in its pending list, if that has its nonce, and otherwise in the queue: what
        the pool does to its two tables, done on the list objects. */
    method File(tx: Tx, priceBump: nat, ghost all: set<Tx>)
      returns (replaced: bool, err: Option<TxError>, ghost all': set<Tx>)
      requires Valid()
      modifies pending, queue, pending.Repr(), queue.Repr()
      ensures Valid() && fresh(pending.Repr() - old(pending.Repr())) && fresh(queue.Repr() - old(queue.Repr()))
      ensures Files(old(pending.Content()), old(queue.Content()), all, pending.Content(), queue.Content(), all', tx,
                    priceBump, replaced, err)
    {
      hide *;
      var a := tx.from;
      ghost var p, q := pending.Content(), queue.Content();
      pending.ContentHas(a);
      GetMeans(p, a);
      GetMeans(q, a);
      SetSame(p, a);
      SetSame(q, a);
      ValidIs();
      var inserted, was;
      if a in pending.lists && tx.nonce in pending.lists[a].txs.items {
        inserted, was := FileIn(pending, queue, a, tx, priceBump);
      } else {
        ApartMeans(pending, queue);
        inserted, was := FileIn(queue, pending, a, tx, priceBump);
        ApartMeans(queue, pending);
      }
      ValidIs();
      replaced, err := inserted && was != None, if inserted then None else Some(ReplaceUnderpriced);
      all' := if !inserted then all else if was != None then all - {was.value} + {tx} else all + {tx};
      MeansFiles(p, q, all, pending.Content(), queue.Content(), tx, priceBump, inserted);
    }

    /** Gives up the highest nonce of a pending list. */
    method CutTop(a: Address)
      requires Valid() && a in pending.Content() && pending.Content()[a] != map[]
      modifies pending.Repr()
      ensures Valid() && queue.Content() == old(queue.Content())
      ensures pending.Repr() == old(pending.Repr()) && queue.Repr() == old(queue.Repr())
      ensures var m := old(pending.Content())[a];
              pending.Content() == old(pending.Content())[a := Lowest(m, |m| - 1)]
    {
      hide ListTable.Valid, ListTable.Content, Apart, Lowest, Beyond;
      ApartMeans(pending, queue);
      pending.ContentHas(a);
      pending.CutTop(a);
      MeansApart(pending, queue);
    }

    /** Removes a pooled transaction from its list: what the pool does to its two tables, done on the
        list objects. */
    method RemoveTx(tx: Tx, priceBump: nat, ghost all: set<Tx>)
      requires Valid() && Agree(pending.Content(), queue.Content(), all) && NoEmptyList(queue.Content()) && tx in all
      modifies pending, queue, pending.Repr(), queue.Repr()
      ensures Valid() && fresh(pending.Repr() - old(pending.Repr())) && fresh(queue.Repr() - old(queue.Repr()))
      ensures Removed(old(pending.Content()), old(queue.Content()), all, pending.Content(), queue.Content(), tx)
    {
      hide Valid, Apart, ListTable.Valid, ListTable.Content, Get, Store, Below, From, Lists, Keyed, Distinct, Elems,
           Extended, NoEmptyList, Agree, Removed, Holds;
      var a := tx.from;
      ghost var p, q := pending.Content(), queue.Content();
      RemovedHow(p, q, all, tx);
      pending.ContentHas(a);
      queue.ContentHas(a);
      GetMeans(p, a);
      GetMeans(q, a);
      if a in pending.lists {
        var ok, invalids := TakeOut(a, tx);
        if ok {
          ghost var above := From(p[a], tx.nonce + 1);
          ExtendedStores(q, a, above);
          ValidIs();
          ApartMeans(pending, queue);
          ghost var held := queue.Repr();
          FileAll(queue, pending, a, invalids, priceBump, above);
          assert fresh(queue.Repr() - held);
          ApartMeans(queue, pending);
          ValidIs();
          MeansRemoved(p, q, all, pending.Content(), queue.Content(), tx);
          return;
        }
      }
      queue.ContentHas(a);
      if a in queue.lists {
        TakeQueued(a, tx);
      }
      MeansRemoved(p, q, all, pending.Content(), queue.Content(), tx);
    }

    /** Removes from a pending list, next to the queue. */
    method TakeOut(a: Address, tx: Tx) returns (ok: bool, invalids: seq<Tx>)
      requires Valid() && a in pending.lists && a in pending.Content()
      modifies pending, pending.Repr()
      ensures Valid() && queue.Content() == old(queue.Content()) && queue.Repr() == old(queue.Repr())
      ensures pending.Repr() <= old(pending.Repr()) && ok == (tx.nonce in old(pending.Content())[a])
      ensures !ok ==> pending.Content() == old(pending.Content()) && pending.lists == old(pending.lists)
      ensures ok ==>
                && Distinct(invalids) && Elems(invalids) == From(old(pending.Content())[a], tx.nonce + 1).Values
                && pending.Content() == Store(old(pending.Content()), a, Below(old(pending.Content())[a], tx.nonce))
    {
      hide ListTable.Valid, ListTable.Content, Apart, Below, From, Store, Elems, Distinct;
      ApartMeans(pending, queue);
      ok, invalids := RemovePending(a, tx);
      MeansApart(pending, queue);
    }

    method RemovePending(a: Address, tx: Tx) returns (ok: bool, invalids: seq<Tx>)
      requires pending.Valid() && pending.strict && a in pending.lists && a in pending.Content()
      modifies pending, pending.lists[a], pending.lists[a].txs
      ensures pending.Valid() && pending.Repr() <= old(pending.Repr()) && ok == (tx.nonce in old(pending.Content())[a])
      ensures !ok ==> pending.Content() == old(pending.Content()) && pending.lists == old(pending.lists)
      ensures ok ==>
                && Distinct(invalids) && Elems(invalids) == From(old(pending.Content())[a], tx.nonce + 1).Values
                && pending.Content() == Store(old(pending.Content()), a, Below(old(pending.Content())[a], tx.nonce))
    {
      hide *;
      ghost var was := pending.Content();
      ok, invalids := pending.Remove(a, tx);
      if ok {
        SetAgain(was, a, Below(was[a], tx.nonce), map[]);
        pending.DropIfEmpty(a);
        StoreOver(was, a, Below(was[a], tx.nonce), Below(was[a], tx.nonce));
      } else {
        NotThere(was, a, tx.nonce);
      }
    }

    /** Removes from a queued list, next to the pending table. */
    method TakeQueued(a: Address, tx: Tx)
      requires Valid() && a in queue.lists && a in queue.Content()
      modifies queue, queue.Repr()
      ensures Valid() && pending.Content() == old(pending.Content())
      ensures pending.Repr() == old(pending.Repr()) && queue.Repr() <= old(queue.Repr())
      ensures queue.Content() == Store(old(queue.Content()), a, old(queue.Content())[a] - {tx.nonce})
    {
      hide ListTable.Valid, ListTable.Content, Apart, Store;
      ApartMeans(pending, queue);
      RemoveQueued(a, tx);
      MeansApart(pending, queue);
    }

    method RemoveQueued(a: Address, tx: Tx)
      requires queue.Valid() && !queue.strict && a in queue.lists && a in queue.Content()
      modifies queue, queue.lists[a], queue.lists[a].txs
      ensures queue.Valid() && queue.Repr() <= old(queue.Repr())
      ensures queue.Content() == Store(old(queue.Content()), a, old(queue.Content())[a] - {tx.nonce})
    {
      hide *;
      ghost var was := queue.Content();
      var ok, invalids := queue.Remove(a, tx);
      SetAgain(was, a, was[a] - {tx.nonce}, map[]);
      queue.DropIfEmpty(a);
      StoreOver(was, a, was[a] - {tx.nonce}, was[a] - {tx.nonce});
    }
  }

  lemma RunIsPart(q: Items, stateNonce: nat, balance: int, maxGas: nat, end: nat)
    requires Keyed(q)
    ensures var run := Below(Payable(q, stateNonce, balance, maxGas), end);
            Keyed(run) && run.Keys <= q.Keys
  {
  }

  lemma DemotedIsPart(p: Items, stateNonce: nat, dear: Tx -> bool)
    requires Keyed(p)
    ensures Keyed(Demoted(p, stateNonce, dear)) && Demoted(p, stateNonce, dear).Keys <= p.Keys
  {
    hide Kept, Invalidated;
    FilterParts(From(p, stateNonce), dear);
  }

  lemma NotThere(m: Table, a: Address, n: nat)
    requires a in m && n !in m[a]
    ensures m[a := m[a] - {n}] == m
  {
    assert m[a] - {n} == m[a];
  }

  /** Where a pooled transaction is: the pending list has its nonce exactly if it is there, and
      otherwise the queued list has it. */
  lemma RemovedHow(p: Table, q: Table, all: set<Tx>, tx: Tx)
    requires Agree(p, q, all) && tx in all
    ensures var a := tx.from;
            && (tx.nonce in Get(p, a) <==> Holds(Get(p, a), tx)) && (tx.nonce !in Get(p, a) ==> a in q)
            && Keyed(From(Get(p, a), tx.nonce + 1)) && From(Get(p, a), tx.nonce + 1).Keys !! Get(q, a).Keys
  {
    hide Agree;
    AgreeIs(p, q, all, tx.from);
  }

  lemma AgreeIs(p: Table, q: Table, all: set<Tx>, a: Address)
    requires Agree(p, q, all)
    ensures AgreeAt(Get(p, a), Get(q, a), all, a)
  {
  }

  lemma MeansRemoved(p: Table, q: Table, all: set<Tx>, p': Table, q': Table, tx: Tx)
    requires var a := tx.from;
             if Holds(Get(p, a), tx) then
               && p' == Store(p, a, Below(Get(p, a), tx.nonce))
               && q' == Store(q, a, Get(q, a) + From(Get(p, a), tx.nonce + 1))
             else p' == p && q' == Store(q, a, Get(q, a) - {tx.nonce})
    requires tx in all
    ensures Removed(p, q, all, p', q', tx)
  {
  }

  lemma SetSame(m: Table, a: Address)
    ensures a in m ==> m[a := m[a]] == m
  {
  }

  lemma MeansFiles(p: Table, q: Table, all: set<Tx>, p': Table, q': Table, tx: Tx, priceBump: nat, inserted: bool)
    requires var a := tx.from;
             var inPending := tx.nonce in Get(p, a);
             var m := if inPending then Get(p, a) else Get(q, a);
             && inserted == (tx.nonce in m ==> Replaces(tx, m[tx.nonce], priceBump))
             && p' == (if inPending then p[a := if inserted then Plus(m, tx) else m] else p)
             && q' == (if inPending then q else q[a := if inserted then Plus(m, tx) else m])
    ensures var a := tx.from;
            var m := if tx.nonce in Get(p, a) then Get(p, a) else Get(q, a);
            var replaced := inserted && tx.nonce in m;
            Files(p, q, all, p', q',
                  if !inserted then all else if tx.nonce in m then all - {m[tx.nonce]} + {tx} else all + {tx},
                  tx, priceBump, replaced, if inserted then None else Some(ReplaceUnderpriced))
  {
    hide Replaces;
    SetSame(p, tx.from);
    SetSame(q, tx.from);
  }

  lemma GetMeans(m: Table, a: Address)
    ensures Get(m, a) == if a in m then m[a] else map[]
  {
  }

  lemma SetAgain(m: Table, a: Address, x: Items, y: Items)
    ensures m[a := x][a] == x && m[a := x][a := y] == m[a := y]
  {
  }

  lemma PayableIs(m: Items, stateNonce: nat, balance: int, maxGas: nat)
    ensures Kept(From(m, stateNonce), false, TooDear(balance, maxGas)) == Payable(m, stateNonce, balance, maxGas)
  {
  }

  lemma Joined(x: seq<Tx>, y: seq<Tx>, z: seq<Tx>)
    ensures Elems(x + y + z) == Elems(x) + Elems(y) + Elems(z) && Elems([]) == {}
    ensures Elems(x + y) == Elems(x) + Elems(y)
  {
  }

  lemma LowestNone(m: Items)
    ensures Lowest(m, 0) == map[] && Beyond(m, 0) == m
  {
    LowestIsPart(m, 0);
    assert Lowest(m, 0).Keys == {};
  }

  /** The two parts of a demotion. */
  lemma DemotedIs(m: Items, stateNonce: nat, dear: Tx -> bool)
    ensures var kept := Kept(From(m, stateNonce), true, dear);
            && StillPending(m, stateNonce, dear) == (if stateNonce in kept then kept else map[])
            && Demoted(m, stateNonce, dear).Values ==
                 Invalidated(From(m, stateNonce), true, dear).Values + if stateNonce in kept then {} else kept.Values
  {
    hide Kept, Invalidated;
    var list := From(m, stateNonce);
    var kept, first := Kept(list, true, dear), Invalidated(list, true, dear);
    FilterParts(list, dear);
    ApartValues(first, kept);
    ApartValues(first, map[]);
  }

  lemma ApartValues(x: Items, y: Items)
    requires x.Keys !! y.Keys
    ensures (x + y).Values == x.Values + y.Values
  {
    forall t | t in x.Values + y.Values ensures t in (x + y).Values {
      if t in x.Values {
        var n :| n in x && x[n] == t;
        assert (x + y)[n] == t;
      } else {
        var n :| n in y && y[n] == t;
        assert (x + y)[n] == t;
      }
    }
  }

  /** What a strict filter invalidates is apart from what it keeps. */
  lemma JoinedDistinct(x: seq<Tx>, y: seq<Tx>, m: Items, stateNonce: nat, dear: Tx -> bool)
    requires Keyed(m) && Distinct(x) && Distinct(y)
    requires var list := From(m, stateNonce);
             Elems(x) == Invalidated(list, true, dear).Values && Elems(y) <= Kept(list, true, dear).Values
    ensures Distinct(x + y)
  {
    hide Kept, Invalidated;
    var list := From(m, stateNonce);
    FilterParts(list, dear);
    var first, kept := Invalidated(list, true, dear), Kept(list, true, dear);
    KeyedValues(first);
    KeyedValues(kept);
    forall i, j | 0 <= i < j < |x + y| ensures (x + y)[i].nonce != (x + y)[j].nonce {
      assert i < |x| ==> x[i] in Elems(x);
      assert j >= |x| ==> y[j - |x|] in Elems(y);
    }
  }
}
