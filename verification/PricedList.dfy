/** The price-ordered heap over all pooled transactions. Entries are deleted lazily: an entry
    whose transaction has left the lookup is stale, and a transaction that left and came back has
    several entries (kernel/tx_list.go). */
module PricedLists {
  import opened Transactions
  import Heap

  /** Ascending price; among equal prices, descending nonce. */
  predicate PricedBefore(a: Tx, b: Tx) {
    a.gasPrice < b.gasPrice || (a.gasPrice == b.gasPrice && a.nonce > b.nonce)
  }

  /** An integer that ranks transactions as PricedBefore does. */
  function PriceKey(t: Tx): int {
    t.gasPrice * TWO_64 + (TWO_64 - 1 - t.nonce)
  }

  lemma PriceKeyRanks(a: Tx, b: Tx)
    ensures PriceKey(a) < PriceKey(b) <==> PricedBefore(a, b)
  {
  }

  /** The hash lookup shared by the pool and its price heap. */
  class TxLookup {
    var all: set<Tx>

    constructor ()
      ensures all == {}
    {
      all := {};
    }
  }

  /** Every transaction of the set has an entry. */
  ghost predicate Covers(items: seq<Tx>, txs: set<Tx>) {
    forall t :: t in txs ==> t in multiset(items)
  }

  /** What a scan popped: `save` and `drop` were live, `dead` was stale. */
  ghost predicate Popped(before: seq<Tx>, items: seq<Tx>, save: seq<Tx>, drop: seq<Tx>, dead: multiset<Tx>,
                         all: set<Tx>) {
    && multiset(before) == multiset(items) + multiset(save) + multiset(drop) + dead
    && (forall t :: t in dead ==> t !in all)
    && (forall t :: t in save ==> t in all)
    && (forall t :: t in drop ==> t in all)
  }

  /** Nothing left on the heap ranks below anything dropped. */
  ghost predicate DroppedFirst(items: seq<Tx>, drop: seq<Tx>) {
    forall d, t :: d in drop && t in multiset(items) ==> PriceKey(d) <= PriceKey(t)
  }

  method PushAll(items0: seq<Tx>, save: seq<Tx>) returns (items: seq<Tx>)
    requires Heap.IsHeap(items0, PriceKey)
    ensures Heap.IsHeap(items, PriceKey) && multiset(items) == multiset(items0) + multiset(save)
  {
    items := items0;
    for i := 0 to |save|
      invariant Heap.IsHeap(items, PriceKey) && multiset(items) == multiset(items0) + multiset(save[..i])
    {
      assert save[..i + 1] == save[..i] + [save[i]];
      items := Heap.Push(items, save[i], PriceKey);
    }
    assert save[..|save|] == save;
  }

  /** Where a popped entry goes. */
  lemma PoppedOne(before: seq<Tx>, mid: seq<Tx>, items: seq<Tx>, tx: Tx,
                  save: seq<Tx>, drop: seq<Tx>, dead: multiset<Tx>, all: set<Tx>)
    requires Popped(before, mid, save, drop, dead, all)
    requires multiset(mid) == multiset(items) + multiset{tx}
    ensures |items| < |mid|
    ensures tx !in all ==> Popped(before, items, save, drop, dead + multiset{tx}, all)
    ensures tx in all ==> Popped(before, items, save + [tx], drop, dead, all)
    ensures tx in all ==> Popped(before, items, save, drop + [tx], dead, all)
  {
    assert |multiset(mid)| == |multiset(items)| + 1;
  }

  lemma NoCheaperLeft(mid: seq<Tx>, items: seq<Tx>, tx: Tx)
    requires multiset(mid) == multiset(items) + multiset{tx}
    requires forall y :: y in mid ==> PriceKey(tx) <= PriceKey(y)
    ensures forall t :: t in multiset(items) ==> PriceKey(tx) <= PriceKey(t) && tx.gasPrice <= t.gasPrice
  {
    forall t | t in multiset(items) ensures PriceKey(tx) <= PriceKey(t) && tx.gasPrice <= t.gasPrice {
      assert t in multiset(mid);
      assert t in mid;
      PriceKeyRanks(t, tx);
    }
  }

  /** The popping loop of Cap. */
  method PopCheap(items0: seq<Tx>, all: set<Tx>, threshold: nat, local: set<Address>)
    returns (items: seq<Tx>, save: seq<Tx>, drop: seq<Tx>, stale: nat, ghost dead: multiset<Tx>)
    requires Heap.IsHeap(items0, PriceKey)
    ensures Heap.IsHeap(items, PriceKey) && Popped(items0, items, save, drop, dead, all) && |dead| == stale
    ensures forall t :: t in drop ==> t.gasPrice < threshold && t.from !in local
    ensures forall t :: t in save || t in multiset(items) ==> t.gasPrice >= threshold || t.from in local
  {
    items, save, drop, stale, dead := items0, [], [], 0, multiset{};
    while |items| > 0
      invariant Heap.IsHeap(items, PriceKey) && Popped(items0, items, save, drop, dead, all) && |dead| == stale
      invariant forall t :: t in drop ==> t.gasPrice < threshold && t.from !in local
      invariant forall t :: t in save ==> t.from in local
      decreases |items|
    {
      var tx;
      ghost var mid := items;
      tx, items := Heap.Pop(items, PriceKey);
      PoppedOne(items0, mid, items, tx, save, drop, dead, all);
      if tx !in all {
        stale, dead := stale + 1, dead + multiset{tx};
        continue;
      }
      if tx.gasPrice >= threshold {
        NoCheaperLeft(mid, items, tx);
        save := save + [tx];
        break;
      }
      if tx.from in local {
        save := save + [tx];
      } else {
        drop := drop + [tx];
      }
    }
  }

  /** The popping loop of Discard. */
  method PopCount(items0: seq<Tx>, all: set<Tx>, count0: nat, local: set<Address>)
    returns (items: seq<Tx>, save: seq<Tx>, drop: seq<Tx>, stale: nat, ghost dead: multiset<Tx>)
    requires Heap.IsHeap(items0, PriceKey)
    ensures Heap.IsHeap(items, PriceKey) && Popped(items0, items, save, drop, dead, all) && |dead| == stale
    ensures |drop| <= count0 && (|drop| < count0 ==> items == [])
    ensures DroppedFirst(items, drop)
    ensures (forall t :: t in drop ==> t.from !in local) && (forall t :: t in save ==> t.from in local)
  {
    hide Heap.IsHeap, PriceKey, Heap.Ordered, DroppedFirst;
    items, save, drop, stale, dead := items0, [], [], 0, multiset{};
    NothingDropped(items);
    var count := count0;
    while |items| > 0 && count > 0
      invariant Heap.IsHeap(items, PriceKey) && Popped(items0, items, save, drop, dead, all) && |dead| == stale
      invariant |drop| + count == count0 && DroppedFirst(items, drop)
      invariant (forall t :: t in drop ==> t.from !in local) && (forall t :: t in save ==> t.from in local)
      decreases |items|
    {
      var tx;
      ghost var mid := items;
      tx, items := Heap.Pop(items, PriceKey);
      PoppedOne(items0, mid, items, tx, save, drop, dead, all);
      NoCheaperLeft(mid, items, tx);
      StillFirst(mid, items, tx, drop);
      if tx !in all {
        stale, dead := stale + 1, dead + multiset{tx};
        continue;
      }
      if tx.from in local {
        save := save + [tx];
      } else {
        drop := drop + [tx];
        count := count - 1;
      }
    }
  }

  lemma NothingDropped(items: seq<Tx>)
    ensures DroppedFirst(items, [])
  {
  }

  lemma StillFirst(mid: seq<Tx>, items: seq<Tx>, tx: Tx, drop: seq<Tx>)
    requires multiset(mid) == multiset(items) + multiset{tx} && DroppedFirst(mid, drop)
    requires forall t :: t in multiset(items) ==> PriceKey(tx) <= PriceKey(t)
    ensures DroppedFirst(items, drop) && DroppedFirst(items, drop + [tx])
  {
    forall t | t in multiset(items) ensures t in multiset(mid) {
    }
  }

  /** Restoring what was saved keeps every live entry that was not dropped. */
  lemma Restored(before: seq<Tx>, items: seq<Tx>, save: seq<Tx>, drop: seq<Tx>, dead: multiset<Tx>, all: set<Tx>,
                 after: seq<Tx>)
    requires Popped(before, items, save, drop, dead, all) && multiset(after) == multiset(items) + multiset(save)
    ensures multiset(after) <= multiset(before) && |before| == |after| + |drop| + |dead|
    ensures forall t :: t in all ==> multiset(after)[t] + multiset(drop)[t] == multiset(before)[t]
    ensures forall t :: t in all && t !in drop ==> multiset(after)[t] == multiset(before)[t]
  {
    assert |multiset(before)| == |multiset(after)| + |multiset(drop)| + |dead|;
    forall t | t in all ensures multiset(after)[t] + multiset(drop)[t] == multiset(before)[t] {
      assert t !in dead;
    }
    assert forall t :: t !in drop ==> multiset(drop)[t] == 0;
  }

  class TxPricedList {
    const lookup: TxLookup
    var items: seq<Tx>
    var stales: int

    ghost predicate Valid()
      reads this
    {
      Heap.IsHeap(items, PriceKey)
    }

    constructor (lookup: TxLookup)
      ensures Valid() && this.lookup == lookup && items == [] && stales == 0
    {
      this.lookup := lookup;
      items, stales := [], 0;
    }

    method Put(tx: Tx)
      requires Valid()
      modifies this
      ensures Valid() && multiset(items) == multiset(old(items)) + multiset{tx} && stales == old(stales)
    {
      items := Heap.Push(items, tx, PriceKey);
    }

    /** Notes that a transaction left the lookup; rebuilds the heap from the lookup once more
        than a quarter of the entries may be stale. */
    method Removed()
      requires Valid()
      modifies this
      ensures Valid()
      ensures if old(stales) + 1 <= |old(items)| / 4
              then items == old(items) && stales == old(stales) + 1
              else multiset(items) == multiset(lookup.all) && stales == 0
    {
      stales := stales + 1;
      if stales <= |items| / 4 {
        return;
      }
      var reheap := [];
      var todo := lookup.all;
      while todo != {}
        invariant todo <= lookup.all && multiset(reheap) == multiset(lookup.all - todo)
      {
        var t :| t in todo;
        assert lookup.all - (todo - {t}) == (lookup.all - todo) + {t};
        reheap, todo := reheap + [t], todo - {t};
      }
      assert lookup.all - todo == lookup.all;
      stales := 0;
      items := Heap.Init(reheap, PriceKey);
    }

    /** Takes the remote transactions below the threshold off the heap. On a heap that covers
        the lookup these are exactly those a scan of the lookup would find. */
    method Cap(threshold: nat, local: set<Address>) returns (drop: seq<Tx>)
      requires Valid() && Covers(items, lookup.all)
      modifies this
      ensures Valid() && multiset(items) <= multiset(old(items))
      ensures Elems(drop) == set t | t in lookup.all && t.gasPrice < threshold && t.from !in local
      ensures forall t :: t in lookup.all && t !in drop ==> multiset(items)[t] == multiset(old(items))[t]
      ensures stales == old(stales) - (|old(items)| - |items| - |drop|)
    {
      var rest, save, stale; ghost var dead;
      rest, save, drop, stale, dead := PopCheap(items, lookup.all, threshold, local);
      var after := PushAll(rest, save);
      Restored(items, rest, save, drop, dead, lookup.all, after);
      forall t | t in lookup.all && t.gasPrice < threshold && t.from !in local ensures t in drop {
        assert t in multiset(items);
      }
      items, stales := after, stales - stale;
    }

    /** Whether a remote transaction is no dearer than everything pooled. */
    method Underpriced(tx: Tx, local: set<Address>) returns (r: bool)
      requires Valid() && Covers(items, lookup.all)
      modifies this
      ensures Valid() && Covers(items, lookup.all) && multiset(items) <= multiset(old(items))
      ensures r <==> tx.from !in local && lookup.all != {} && forall t :: t in lookup.all ==> tx.gasPrice <= t.gasPrice
      ensures forall t :: t in lookup.all ==> multiset(items)[t] == multiset(old(items))[t]
      ensures stales == old(stales) - (|old(items)| - |items|)
    {
      if tx.from in local {
        return false;
      }
      while |items| > 0
        invariant Valid() && multiset(items) <= multiset(old(items))
        invariant forall t :: t in lookup.all ==> multiset(items)[t] == multiset(old(items))[t]
        invariant stales == old(stales) - (|old(items)| - |items|)
        decreases |items|
      {
        if items[0] in lookup.all {
          break;
        }
        stales := stales - 1;
        var stale;
        ghost var mid := items;
        stale, items := Heap.Pop(items, PriceKey);
        assert |multiset(mid)| == |multiset(items)| + 1;
      }
      if |items| == 0 {
        return false;
      }
      Heap.LeastOfAll(items, PriceKey);
      HeadIsCheapest(items, lookup.all);
      r := items[0].gasPrice >= tx.gasPrice;
    }

    /** Takes the `count` lowest-ranked entries of remote transactions off the heap, or all there
        are. A transaction that was removed and added again can have two entries; if none has, none
        is dropped twice. */
    method Discard(count: nat, local: set<Address>) returns (drop: seq<Tx>)
      requires Valid() && Covers(items, lookup.all)
      modifies this
      ensures Valid() && multiset(items) <= multiset(old(items))
      ensures Discards(lookup.all, drop, count, local)
      ensures forall t :: t in lookup.all ==> multiset(items)[t] + multiset(drop)[t] == multiset(old(items))[t]
      ensures forall d, t :: d in drop && t in multiset(items) && t in lookup.all && t.from !in local ==>
                PriceKey(d) <= PriceKey(t)
      ensures (forall t :: t in lookup.all ==> multiset(old(items))[t] == 1) ==> OnceEach(drop)
      ensures stales == old(stales) - (|old(items)| - |items| - |drop|)
    {
      var rest, save, stale; ghost var dead;
      rest, save, drop, stale, dead := PopCount(items, lookup.all, count, local);
      var after := PushAll(rest, save);
      Restored(items, rest, save, drop, dead, lookup.all, after);
      NoneBeforeDropped(items, rest, save, drop, dead, lookup.all, local);
      if forall t :: t in lookup.all ==> multiset(items)[t] == 1 {
        NotTwice(drop, multiset(items), multiset(after), lookup.all);
      }
      items, stales := after, stales - stale;
    }
  }

  lemma HeadIsCheapest(items: seq<Tx>, all: set<Tx>)
    requires items != [] && Covers(items, all) && forall y :: y in items ==> PriceKey(items[0]) <= PriceKey(y)
    ensures forall t :: t in all ==> items[0].gasPrice <= t.gasPrice
  {
    forall t | t in all ensures items[0].gasPrice <= t.gasPrice {
      assert t in multiset(items);
      assert t in items;
      PriceKeyRanks(t, items[0]);
    }
  }

  lemma NoneBeforeDropped(before: seq<Tx>, rest: seq<Tx>, save: seq<Tx>, drop: seq<Tx>, dead: multiset<Tx>,
                          all: set<Tx>, local: set<Address>)
    requires Popped(before, rest, save, drop, dead, all) && Covers(before, all) && DroppedFirst(rest, drop)
    requires forall t :: t in save ==> t.from in local
    ensures forall t :: t in all && t !in drop && t.from !in local ==> t in multiset(rest)
    ensures forall d, t :: d in drop && t in all && t !in drop && t.from !in local ==> !PricedBefore(t, d)
  {
    forall t | t in all && t !in drop && t.from !in local ensures t in multiset(rest) {
      assert t in multiset(before) && t !in save;
      assert t !in multiset(drop) && t !in multiset(save) && t !in dead;
    }
    forall d, t | d in drop && t in all && t !in drop && t.from !in local ensures !PricedBefore(t, d) {
      PriceKeyRanks(t, d);
    }
  }

  lemma NotTwice(drop: seq<Tx>, before: multiset<Tx>, after: multiset<Tx>, all: set<Tx>)
    requires forall t :: t in drop ==> t in all
    requires forall t :: t in all ==> before[t] == 1 && after[t] + multiset(drop)[t] == before[t]
    ensures OnceEach(drop)
  {
    forall i, j | 0 <= i < j < |drop| ensures drop[i] != drop[j] {
      assert drop == drop[..i] + [drop[i]] + drop[i + 1..j] + [drop[j]] + drop[j + 1..];
      assert drop[i] in all;
      assert drop[i] == drop[j] ==> multiset(drop)[drop[i]] >= 2;
    }
  }

  /** Up to `count` entries of remote transactions are given up, none of one that ranks after one
      that is kept, and fewer only if no remote one is left. */
  ghost predicate Discards(all: set<Tx>, drop: seq<Tx>, count: nat, local: set<Address>) {
    && |drop| <= count && (forall d :: d in drop ==> d in all && d.from !in local)
    && (forall d, t :: d in drop && t in all && t !in drop && t.from !in local ==> !PricedBefore(t, d))
    && (|drop| < count ==> forall t :: t in all && t.from !in local ==> t in drop)
  }

  lemma DiscardsCheap(all: set<Tx>, drop: seq<Tx>, count: nat, local: set<Address>)
    requires Discards(all, drop, count, local)
    ensures forall d :: d in Elems(drop) ==> d in all && d.from !in local
    ensures forall d, t :: d in Elems(drop) && t in all && t !in Elems(drop) && t.from !in local ==>
              d.gasPrice < t.gasPrice || (d.gasPrice == t.gasPrice && d.nonce >= t.nonce)
  {
  }

  /** In a full pool, one more fits in after the discarding exactly when all the entries asked for
      were found and no transaction was among them twice. */
  lemma RoomMade(all: set<Tx>, drop: seq<Tx>, cap: nat, local: set<Address>)
    requires |all| >= cap && Discards(all, drop, |all| + 1 - cap, local)
    ensures |all - Elems(drop)| == |all| - |Elems(drop)|
    ensures |all - Elems(drop)| + 1 <= cap <==> |drop| == |all| + 1 - cap && OnceEach(drop)
  {
    ElemsCount(drop);
    assert Elems(drop) <= all;
    assert all == (all - Elems(drop)) + Elems(drop);
  }

  /** A transaction that is removed and added again before the heap is rebuilt has two entries. */
  method AddedAgain(a: Tx, b: Tx, c: Tx, d: Tx) returns (priced: TxPricedList)
    ensures fresh(priced) && fresh(priced.lookup) && priced.Valid() && priced.lookup.all == {a, b, c, d}
    ensures multiset(priced.items) == multiset{a, b, c, d, a}
  {
    hide Heap.IsHeap, PriceKey;
    priced := AddedFour(a, b, c, d);
    priced.lookup.all := priced.lookup.all - {a};
    priced.Removed();
    priced.lookup.all := priced.lookup.all + {a};
    priced.Put(a);
  }

  method AddedFour(a: Tx, b: Tx, c: Tx, d: Tx) returns (priced: TxPricedList)
    ensures fresh(priced) && fresh(priced.lookup) && priced.Valid() && priced.lookup.all == {a, b, c, d}
    ensures multiset(priced.items) == multiset{a, b, c, d} && |priced.items| == 4 && priced.stales == 0
  {
    hide *;
    var lookup := new TxLookup();
    priced := new TxPricedList(lookup);
    lookup.all := {a, b, c, d};
    priced.Put(a);
    priced.Put(b);
    priced.Put(c);
    priced.Put(d);
    FourPlaces(priced.items, a, b, c, d);
  }

  lemma FourPlaces(items: seq<Tx>, a: Tx, b: Tx, c: Tx, d: Tx)
    requires multiset(items) == multiset{a} + multiset{b} + multiset{c} + multiset{d}
    ensures multiset(items) == multiset{a, b, c, d} && |items| == 4
  {
    assert |multiset(items)| == 4;
  }

  /** Such a transaction is dropped twice, and a dearer one that would have had to go stays. */
  method DroppedTwice(a: Tx, b: Tx, c: Tx, d: Tx) returns (priced: TxPricedList, drop: seq<Tx>)
    requires a.gasPrice < b.gasPrice < c.gasPrice < d.gasPrice
    ensures drop == [a, a] && priced.lookup.all == {a, b, c, d} && Discards(priced.lookup.all, drop, 2, {})
  {
    hide Heap.IsHeap, PriceKey, Discards;
    priced := AddedAgain(a, b, c, d);
    ghost var entries := multiset(priced.items);
    EachCovered(a, b, c, d, priced.items);
    drop := priced.Discard(2, {});
    OnlyTheFirst(a, b, c, d, entries, multiset(priced.items), drop);
  }

  lemma EachCovered(a: Tx, b: Tx, c: Tx, d: Tx, items: seq<Tx>)
    requires multiset(items) == multiset{a, b, c, d, a}
    ensures Covers(items, {a, b, c, d})
  {
  }

  lemma OnlyTheFirst(a: Tx, b: Tx, c: Tx, d: Tx, before: multiset<Tx>, after: multiset<Tx>, drop: seq<Tx>)
    requires a.gasPrice < b.gasPrice < c.gasPrice < d.gasPrice && before == multiset{a, b, c, d, a}
    requires Discards({a, b, c, d}, drop, 2, {})
    requires forall t :: t in {a, b, c, d} ==> after[t] + multiset(drop)[t] == before[t]
    requires forall x, t :: x in drop && t in after && t in {a, b, c, d} && t.from !in {} ==> PriceKey(x) <= PriceKey(t)
    ensures drop == [a, a]
  {
    hide PriceKey;
    TwoPlaces(drop, a, b);
    var x, y := drop[0], drop[1];
    assert drop == [x, y];
    assert multiset(drop) == multiset{x, y};
    PriceKeyRanks(a, b);
    PriceKeyRanks(a, c);
    PriceKeyRanks(a, d);
    assert multiset(drop)[a] < 2 ==> a in after;
    assert x in drop && y in drop;
    assert a in after ==> PriceKey(x) <= PriceKey(a) && PriceKey(y) <= PriceKey(a);
    assert a in after ==> x == a && y == a;
  }

  lemma TwoPlaces(txs: seq<Tx>, a: Tx, b: Tx)
    ensures a != b && a in txs && b in txs ==> |txs| >= 2
  {
  }
}
