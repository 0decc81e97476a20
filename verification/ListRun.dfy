/** Whole runs of the pool's two tables on list objects (kernel/tx_pool.go): whatever the pool does to
    them, in whatever order, the objects hold what the tables of contents say. */
module ListRuns {
  import opened Wrappers
  import opened Transactions
  import opened TxLists
  import opened PoolSpec
  import opened ListTables

  /** What the pool does to its tables. */
  datatype TableOp =
    | Take(tx: Tx)
    | File(tx: Tx)
    | Promote(a: Address, state: ChainState, start: nat, local: bool)
    | Demote(a: Address, state: ChainState)
    | Cut(a: Address)

  /** The parts of a queued list that a promotion moves and keeps. */
  ghost function Moved(q: Items, op: TableOp, cap: nat): (Items, Items)
    requires op.Promote?
  {
    var list := Payable(q, op.state.nonce(op.a), op.state.balance(op.a), op.state.maxGas);
    var end := ReadyEnd(list, op.start);
    (Below(list, end), if op.local then From(list, end) else Lowest(From(list, end), cap))
  }

  /** The books after an operation; one that cannot happen changes nothing. */
  ghost function Applied(b: Books, op: TableOp, priceBump: nat, cap: nat): Books {
    match op
    case Take(tx) => Removal(b, tx)
    case File(tx) => if tx in b.all then b else Filing(b, tx, priceBump)
    case Promote(a, state, start, local) =>
      if a !in b.queue then b
      else
        var (run, left) := Moved(b.queue[a], op, cap);
        Books(Extended(b.pending, a, run), Store(b.queue, a, left), b.all - (b.queue[a] - run.Keys - left.Keys).Values)
    case Demote(a, state) =>
      if a !in b.pending then b
      else
        var p, dear := b.pending[a], TooDear(state.balance(a), state.maxGas);
        var stay, back := StillPending(p, state.nonce(a), dear), Demoted(p, state.nonce(a), dear);
        Books(Store(b.pending, a, stay), Store(b.queue, a, Get(b.queue, a) + back),
              b.all - (p - stay.Keys - back.Keys).Values)
    case Cut(a) =>
      if a !in b.pending || b.pending[a] == map[] then b
      else
        var keep := Lowest(b.pending[a], |b.pending[a]| - 1);
        Books(b.pending[a := keep], b.queue, b.all - (b.pending[a] - keep.Keys).Values)
  }

  /** Filing a transaction in place of the one with its nonce, if the price rule allows, or as a new one
      in the queue. */
  ghost function Filing(b: Books, tx: Tx, priceBump: nat): (r: Books)
    ensures exists replaced, err ::
              Files(b.pending, b.queue, b.all, r.pending, r.queue, r.all, tx, priceBump, replaced, err)
  {
    var inPending := tx.nonce in Get(b.pending, tx.from);
    var list := if inPending then Get(b.pending, tx.from) else Get(b.queue, tx.from);
    var ok := tx.nonce in list ==> Replaces(tx, list[tx.nonce], priceBump);
    var r := if !ok then b
             else Books(if inPending then b.pending[tx.from := Plus(list, tx)] else b.pending,
                        if inPending then b.queue else b.queue[tx.from := Plus(list, tx)],
                        if tx.nonce in list then b.all - {list[tx.nonce]} + {tx} else b.all + {tx});
    assert Files(b.pending, b.queue, b.all, r.pending, r.queue, r.all, tx, priceBump, ok && tx.nonce in list,
                 if ok then None else Some(ReplaceUnderpriced));
    r
  }

  ghost function AllApplied(b: Books, ops: seq<TableOp>, priceBump: nat, cap: nat): Books
    decreases |ops|
  {
    if ops == [] then b else Applied(AllApplied(b, ops[..|ops| - 1], priceBump, cap), ops[|ops| - 1], priceBump, cap)
  }

  ghost predicate Consistent(b: Books) {
    Agree(b.pending, b.queue, b.all) && NoEmptyList(b.queue)
  }

  lemma FiledOnce(b: Books, tx: Tx, priceBump: nat, p': Table, q': Table, all': set<Tx>, replaced: bool,
                  err: Option<TxError>)
    requires Files(b.pending, b.queue, b.all, p', q', all', tx, priceBump, replaced, err)
    ensures Filing(b, tx, priceBump) == Books(p', q', all')
  {
    hide Replaces;
  }

  /** Moving a part of a queued list to the pending one and keeping another part. */
  lemma PromoteAgrees(p: Table, q: Table, all: set<Tx>, a: Address, run: Items, left: Items)
    requires Agree(p, q, all) && a in q && Part(run, q[a]) && Part(left, q[a]) && run.Keys !! left.Keys
    ensures Agree(Extended(p, a, run), Store(q, a, left), all - (q[a] - run.Keys - left.Keys).Values)
  {
    hide *;
    var gone := q[a] - run.Keys - left.Keys;
    AgreeIs(p, q, all, a);
    GetIs(q, a);
    AgreeSwaps(Get(p, a), q[a], all, a);
    DemoteAgree(q[a], Get(p, a), all, a, left, run);
    assert q[a] - left.Keys - run.Keys == gone;
    AgreeSwaps(left, Get(p, a) + run, all - gone.Values, a);
    StoreIs(q, a, left);
    ExtendedGet(p, a, run);
    assert Part(gone, q[a]) by {
      GonePart(q[a], run.Keys, left.Keys);
    }
    GoneOf(q[a], gone, a);
    AccountStep(p, q, all, Extended(p, a, run), Store(q, a, left), all - gone.Values, a);
  }

  lemma AgreeSwaps(p: Items, q: Items, all: set<Tx>, a: Address)
    requires AgreeAt(p, q, all, a)
    ensures AgreeAt(q, p, all, a) && Filed(q, a)
  {
  }

  lemma GonePart(q: Items, x: set<nat>, y: set<nat>)
    ensures Part(q - x - y, q)
  {
  }

  lemma GoneOf(q: Items, gone: Items, a: Address)
    requires Filed(q, a) && Part(gone, q)
    ensures forall t :: t in gone.Values ==> t.from == a
  {
  }

  lemma ExtendedGet(p: Table, a: Address, run: Items)
    ensures Get(Extended(p, a, run), a) == Get(p, a) + run
    ensures forall b :: b != a ==> Get(Extended(p, a, run), b) == Get(p, b)
  {
    NothingAdded(Get(p, a));
  }

  lemma MovedParts(q: Items, op: TableOp, cap: nat)
    requires op.Promote?
    ensures var (run, left) := Moved(q, op, cap); Part(run, q) && Part(left, q) && run.Keys !! left.Keys
  {
    hide ReadyEnd, Lowest;
    var list := Payable(q, op.state.nonce(op.a), op.state.balance(op.a), op.state.maxGas);
    LowestIsPart(From(list, ReadyEnd(list, op.start)), cap);
  }

  /** Every operation keeps the agreement of the two tables with the lookup. */
  lemma AppliedConsistent(b: Books, op: TableOp, priceBump: nat, cap: nat)
    requires Consistent(b)
    ensures Consistent(Applied(b, op, priceBump, cap))
  {
    hide Agree, NoEmptyList, Store, Get, Extended, Lowest, Moved, StillPending, Demoted, Filing, TooDear;
    match op
    case Take(tx) =>
      var r := Removal(b, tx);
      if tx in b.all {
        RemovedAgree(b.pending, b.queue, b.all, r.pending, r.queue, tx);
      } else {
        assert r == b;
      }
    case File(tx) =>
      if tx !in b.all {
        var r := Filing(b, tx, priceBump);
        var replaced, err :|
          Files(b.pending, b.queue, b.all, r.pending, r.queue, r.all, tx, priceBump, replaced, err);
        FilesAgree(b.pending, b.queue, b.all, r.pending, r.queue, r.all, tx, priceBump, replaced, err);
      }
    case Promote(a, state, start, local) =>
      if a in b.queue {
        var (run, left) := Moved(b.queue[a], op, cap);
        MovedParts(b.queue[a], op, cap);
        PromoteAgrees(b.pending, b.queue, b.all, a, run, left);
        StoreNoEmpty(b.queue, a, left);
      }
    case Demote(a, state) =>
      if a in b.pending {
        DemoteConsistent(b, a, state);
      }
    case Cut(a) =>
      if a in b.pending && b.pending[a] != map[] {
        LowestIsPart(b.pending[a], |b.pending[a]| - 1);
        ShrinkPendingAgrees(b.pending, b.queue, b.all, a, Lowest(b.pending[a], |b.pending[a]| - 1));
      }
  }

  lemma StoreNoEmpty(m: Table, a: Address, list: Items)
    requires NoEmptyList(m)
    ensures NoEmptyList(Store(m, a, list))
  {
  }

  lemma DemoteConsistent(b: Books, a: Address, state: ChainState)
    requires Consistent(b) && a in b.pending
    ensures var p, dear := b.pending[a], TooDear(state.balance(a), state.maxGas);
            var stay, back := StillPending(p, state.nonce(a), dear), Demoted(p, state.nonce(a), dear);
            Consistent(Books(Store(b.pending, a, stay), Store(b.queue, a, Get(b.queue, a) + back),
                             b.all - (p - stay.Keys - back.Keys).Values))
  {
    hide Agree, NoEmptyList, Store, Get, StillPending, Demoted, TooDear;
    var p, dear := b.pending[a], TooDear(state.balance(a), state.maxGas);
    var stay, back := StillPending(p, state.nonce(a), dear), Demoted(p, state.nonce(a), dear);
    DemotedParts(p, state.nonce(a), dear);
    SplitAgrees(b.pending, b.queue, b.all, a, stay, back);
    StoreNoEmpty(b.queue, a, Get(b.queue, a) + back);
    StoreIsUpdate(b.pending, a, stay);
    if stay == map[] {
      DropEmptyPending(b.pending[a := stay], Store(b.queue, a, Get(b.queue, a) + back),
                       b.all - (p - stay.Keys - back.Keys).Values, a);
    }
  }

  lemma DemotedParts(p: Items, stateNonce: nat, dear: Tx -> bool)
    ensures var stay, back := StillPending(p, stateNonce, dear), Demoted(p, stateNonce, dear);
            Part(stay, p) && Part(back, p) && stay.Keys !! back.Keys
  {
    hide Kept, Invalidated;
    FilterParts(From(p, stateNonce), dear);
  }

  /** The objects hold what the books say. */
  ghost predicate Holding(lists: PoolLists, b: Books)
    reads lists.pending, lists.queue, lists.pending.Repr(), lists.queue.Repr()
  {
    lists.Valid() && lists.pending.Content() == b.pending && lists.queue.Content() == b.queue
  }

  /** A list object holds exactly this transaction under its nonce. */
  method Has(t: ListTable, tx: Tx) returns (r: bool)
    ensures r == Holds(Get(t.Content(), tx.from), tx)
  {
    t.ContentHas(tx.from);
    r := tx.from in t.lists && tx.nonce in t.lists[tx.from].txs.items && t.lists[tx.from].txs.items[tx.nonce] == tx;
  }

  lemma PooledIs(b: Books, tx: Tx)
    requires Consistent(b)
    ensures tx in b.all <==> Holds(Get(b.pending, tx.from), tx) || Holds(Get(b.queue, tx.from), tx)
  {
    AgreeIs(b.pending, b.queue, b.all, tx.from);
  }

  /** Performs an operation on the list objects. */
  method Perform(lists: PoolLists, op: TableOp, priceBump: nat, cap: nat, ghost b: Books)
    requires Holding(lists, b) && Consistent(b)
    modifies lists.pending, lists.queue, lists.pending.Repr(), lists.queue.Repr()
    ensures Holding(lists, Applied(b, op, priceBump, cap))
    ensures fresh(lists.pending.Repr() - old(lists.pending.Repr()))
            && fresh(lists.queue.Repr() - old(lists.queue.Repr()))
  {
    match op
    case Take(tx) => PerformTake(lists, tx, priceBump, b);
    case File(tx) => PerformFile(lists, tx, priceBump, b);
    case Promote(a, state, start, local) => PerformPromote(lists, op, priceBump, cap, b);
    case Demote(a, state) => PerformDemote(lists, a, state, priceBump, b);
    case Cut(a) =>
      lists.pending.ContentHas(a);
      if a in lists.pending.lists && lists.pending.lists[a].txs.items != map[] {
        lists.CutTop(a);
      }
  }

  method PerformTake(lists: PoolLists, tx: Tx, priceBump: nat, ghost b: Books)
    requires Holding(lists, b) && Consistent(b)
    modifies lists.pending, lists.queue, lists.pending.Repr(), lists.queue.Repr()
    ensures Holding(lists, Removal(b, tx))
    ensures fresh(lists.pending.Repr() - old(lists.pending.Repr()))
            && fresh(lists.queue.Repr() - old(lists.queue.Repr()))
  {
    hide Agree, NoEmptyList, Get, Holds, Removed, Removal, PoolLists.Valid, ListTable.Content;
    PooledIs(b, tx);
    var pending := Has(lists.pending, tx);
    var queued := Has(lists.queue, tx);
    if pending || queued {
      lists.RemoveTx(tx, priceBump, b.all);
      RemovedIs(b.pending, b.queue, b.all, lists.pending.Content(), lists.queue.Content(), tx);
    } else {
      NotPooled(b, tx);
    }
  }

  lemma NotPooled(b: Books, tx: Tx)
    requires tx !in b.all
    ensures Removal(b, tx) == b
  {
  }

  method PerformFile(lists: PoolLists, tx: Tx, priceBump: nat, ghost b: Books)
    requires Holding(lists, b) && Consistent(b)
    modifies lists.pending, lists.queue, lists.pending.Repr(), lists.queue.Repr()
    ensures Holding(lists, if tx in b.all then b else Filing(b, tx, priceBump))
    ensures fresh(lists.pending.Repr() - old(lists.pending.Repr()))
            && fresh(lists.queue.Repr() - old(lists.queue.Repr()))
  {
    hide Agree, NoEmptyList, Get, Holds, Files, Filing, PoolLists.Valid, ListTable.Content;
    PooledIs(b, tx);
    var pending := Has(lists.pending, tx);
    var queued := Has(lists.queue, tx);
    if !pending && !queued {
      var replaced, err;
      ghost var all;
      replaced, err, all := lists.File(tx, priceBump, b.all);
      FiledOnce(b, tx, priceBump, lists.pending.Content(), lists.queue.Content(), all, replaced, err);
    }
  }

  method PerformPromote(lists: PoolLists, op: TableOp, priceBump: nat, cap: nat, ghost b: Books)
    requires Holding(lists, b) && Consistent(b) && op.Promote?
    modifies lists.pending, lists.queue, lists.pending.Repr(), lists.queue.Repr()
    ensures Holding(lists, Applied(b, op, priceBump, cap))
    ensures fresh(lists.pending.Repr() - old(lists.pending.Repr()))
            && fresh(lists.queue.Repr() - old(lists.queue.Repr()))
  {
    hide Agree, NoEmptyList, Store, Extended, Payable, ReadyEnd, Below, From, Lowest, PoolLists.Valid,
         ListTable.Content,
         AgreeAt, Keyed;
    var a := op.a;
    lists.queue.ContentHas(a);
    if a in lists.queue.lists {
      QueuedApart(b, a);
      var gone := lists.Promote(a, op.state, op.start, cap, op.local, priceBump);
    }
  }

  lemma QueuedApart(b: Books, a: Address)
    requires Consistent(b)
    ensures a in b.queue ==> Keyed(b.queue[a]) && Get(b.pending, a).Keys !! b.queue[a].Keys
    ensures a in b.pending ==> Keyed(b.pending[a]) && b.pending[a].Keys !! Get(b.queue, a).Keys
  {
    AgreeIs(b.pending, b.queue, b.all, a);
  }

  method PerformDemote(lists: PoolLists, a: Address, state: ChainState, priceBump: nat, ghost b: Books)
    requires Holding(lists, b) && Consistent(b)
    modifies lists.pending, lists.queue, lists.pending.Repr(), lists.queue.Repr()
    ensures Holding(lists, Applied(b, TableOp.Demote(a, state), priceBump, 0))
    ensures fresh(lists.pending.Repr() - old(lists.pending.Repr()))
            && fresh(lists.queue.Repr() - old(lists.queue.Repr()))
  {
    hide Agree, NoEmptyList, Store, StillPending, Demoted, TooDear, Get, PoolLists.Valid, ListTable.Content, AgreeAt,
         Keyed;
    lists.pending.ContentHas(a);
    if a in lists.pending.lists {
      QueuedApart(b, a);
      var gone := lists.Demote(a, state, priceBump);
    }
  }

  /** Over every run the list objects, with their heaps, caches and caps, hold what the tables of contents
      say, and the tables agree with the lookup. */
  method Run(ops: seq<TableOp>, priceBump: nat, cap: nat) returns (lists: PoolLists)
    ensures fresh(lists) && Holding(lists, AllApplied(Books(map[], map[], {}), ops, priceBump, cap))
    ensures Consistent(AllApplied(Books(map[], map[], {}), ops, priceBump, cap))
  {
    hide Agree, NoEmptyList, Applied, PoolLists.Valid, ListTable.Content, Holding, Consistent;
    lists := new PoolLists();
    ghost var b := Books(map[], map[], {});
    Empty(lists);
    for i := 0 to |ops|
      invariant fresh(lists) && fresh(lists.pending) && fresh(lists.queue)
      invariant fresh(lists.pending.Repr()) && fresh(lists.queue.Repr())
      invariant Holding(lists, b) && Consistent(b) && b == AllApplied(Books(map[], map[], {}), ops[..i], priceBump, cap)
    {
      assert ops[..i + 1][..i] == ops[..i];
      AppliedConsistent(b, ops[i], priceBump, cap);
      Perform(lists, ops[i], priceBump, cap, b);
      b := Applied(b, ops[i], priceBump, cap);
    }
    assert ops[..|ops|] == ops;
  }

  lemma Empty(lists: PoolLists)
    requires lists.Valid() && lists.pending.Content() == map[] && lists.queue.Content() == map[]
    ensures Holding(lists, Books(map[], map[], {})) && Consistent(Books(map[], map[], {}))
  {
  }
}
