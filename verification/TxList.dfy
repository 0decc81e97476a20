/** Transactions as the pool sees them. The hash of a transaction is taken to identify it, so
    the transaction value itself plays the role of its hash; the recovered sender is a field. */
module Transactions {
  import opened Wrappers

  const TWO_64 := 0x1_0000_0000_0000_0000

  type Uint64 = n: nat | n < TWO_64
  type Address = nat

  /** The increment of an unsigned 64-bit number, which wraps around. */
  function Next(n: nat): nat {
    if n == TWO_64 - 1 then 0 else n + 1
  }

  /** `signed` tells whether a sender could be recovered; `create` whether there is no recipient. */
  datatype Tx = Tx(id: nat, from: Address, signed: bool, nonce: Uint64, gasPrice: nat, gas: Uint64, value: int,
                   size: nat, create: bool, data: seq<nat>)
  {
    /** What the sender must hold to pay for the transaction. */
    function Cost(): int {
      gasPrice * gas + value
    }
  }

  /** The transactions of one account, by nonce. */
  type Items = map<nat, Tx>

  /** Every transaction is filed under its own nonce. */
  ghost predicate Keyed(m: Items) {
    forall n :: n in m ==> m[n].nonce == n
  }

  /** m with t filed under its nonce. */
  function Plus(m: Items, t: Tx): Items {
    m[t.nonce := t]
  }

  function Below(m: Items, limit: int): Items {
    map n | n in m && n < limit :: m[n]
  }

  function From(m: Items, limit: int): Items {
    map n | n in m && n >= limit :: m[n]
  }

  function Where(m: Items, f: Tx -> bool): Items {
    map n | n in m && f(m[n]) :: m[n]
  }

  function Unless(m: Items, f: Tx -> bool): Items {
    map n | n in m && !f(m[n]) :: m[n]
  }

  ghost function Elems(txs: seq<Tx>): set<Tx> {
    set t | t in txs
  }

  ghost predicate Distinct(txs: seq<Tx>) {
    forall i, j :: 0 <= i < j < |txs| ==> txs[i].nonce != txs[j].nonce
  }

  ghost predicate Ascending(txs: seq<Tx>) {
    forall i, j :: 0 <= i < j < |txs| ==> txs[i].nonce < txs[j].nonce
  }

  ghost predicate Descending(txs: seq<Tx>) {
    forall i, j :: 0 <= i < j < |txs| ==> txs[i].nonce > txs[j].nonce
  }

  /** txs holds each transaction of m exactly once, in ascending order of nonce. */
  ghost predicate Lists(txs: seq<Tx>, m: Items) {
    Ascending(txs) && Elems(txs) == m.Values
  }

  lemma GreatestExists(m: Items)
    requires m != map[]
    ensures exists n :: n in m && forall k :: k in m ==> k <= n
  {
    var a :| a in m;
    var top, rest := a, m.Keys - {a};
    while rest != {}
      invariant rest <= m.Keys && top in m && forall k :: k in m && k !in rest ==> k <= top
    {
      var b :| b in rest;
      top, rest := if b > top then b else top, rest - {b};
    }
    assert forall k :: k in m ==> k <= top;
  }

  function Greatest(m: Items): (n: nat)
    requires m != map[]
    ensures n in m && forall k :: k in m ==> k <= n
  {
    GreatestExists(m);
    var n :| n in m && forall k :: k in m ==> k <= n;
    n
  }

  /** The k transactions of lowest nonce; all of them when there are no more than k. */
  function Lowest(m: Items, k: nat): Items
    decreases |m|
  {
    if |m| <= k then m else
      var top := Greatest(m);
      assert |(m - {top}).Keys| == |m.Keys - {top}|;
      Lowest(m - {top}, k)
  }

  lemma {:induction false} LowestIsPart(m: Items, k: nat)
    ensures Lowest(m, k).Keys <= m.Keys && forall n :: n in Lowest(m, k) ==> Lowest(m, k)[n] == m[n]
    ensures |Lowest(m, k)| == if |m| <= k then |m| else k
    decreases |m|
  {
    if |m| > k {
      var top := Greatest(m);
      assert (m - {top}).Keys == m.Keys - {top};
      LowestIsPart(m - {top}, k);
    }
  }

  lemma {:induction false} LowestIsClosed(m: Items, k: nat)
    ensures forall x, y :: x in m && y in Lowest(m, k) && x < y ==> x in Lowest(m, k)
    decreases |m|
  {
    if |m| > k {
      var top := Greatest(m);
      assert (m - {top}).Keys == m.Keys - {top};
      LowestIsPart(m - {top}, k);
      LowestIsClosed(m - {top}, k);
    }
  }

  /** The transactions that Lowest leaves behind. */
  function Beyond(m: Items, k: nat): Items {
    m - Lowest(m, k).Keys
  }

  /** A downward closed part is what Lowest keeps at its size. */
  lemma {:induction false} BelowIsLowest(m: Items, cut: int)
    ensures Below(m, cut) == Lowest(m, |Below(m, cut)|)
    decreases |m|
  {
    var b := Below(m, cut);
    assert b.Keys <= m.Keys;
    if b.Keys == m.Keys {
      assert b == m;
    } else {
      ProperSubsetIsSmaller(b.Keys, m.Keys);
      var top := Greatest(m);
      TopIsNotBelow(m, cut, top);
      BelowIsLowest(m - {top}, cut);
    }
  }

  lemma TopIsNotBelow(m: Items, cut: int, top: nat)
    requires Below(m, cut).Keys != m.Keys && top in m && forall k :: k in m ==> k <= top
    ensures Below(m - {top}, cut) == Below(m, cut) && |m - {top}| < |m|
  {
    assert (m - {top}).Keys == m.Keys - {top};
    assert top < cut ==> forall k :: k in m ==> k in Below(m, cut);
  }

  lemma FromIsBeyond(m: Items, cut: int)
    ensures From(m, cut) == Beyond(m, |Below(m, cut)|)
  {
    BelowIsLowest(m, cut);
    assert From(m, cut) == m - Below(m, cut).Keys;
  }

  lemma ProperSubsetIsSmaller(a: set<nat>, b: set<nat>)
    requires a < b
    ensures |a| < |b|
  {
    assert b == a + (b - a) && b - a != {};
  }

  lemma LeastExists(m: Items)
    requires m != map[]
    ensures exists n :: n in m && forall k :: k in m ==> n <= k
  {
    var a :| a in m;
    var low, rest := a, m.Keys - {a};
    while rest != {}
      invariant rest <= m.Keys && low in m && forall k :: k in m && k !in rest ==> low <= k
    {
      var b :| b in rest;
      low, rest := if b < low then b else low, rest - {b};
    }
    assert forall k :: k in m ==> low <= k;
  }

  function Least(m: Items): (n: nat)
    requires m != map[]
    ensures n in m && forall k :: k in m ==> n <= k
  {
    LeastExists(m);
    var n :| n in m && forall k :: k in m ==> n <= k;
    n
  }

  /** The first nonce at or above n that m does not hold. */
  function RunEnd(m: Items, n: nat): (e: nat)
    ensures n <= e && e !in m && forall k :: n <= k < e ==> k in m
    decreases |From(m, n)|
  {
    if n in m then
      assert From(m, n + 1).Keys == From(m, n).Keys - {n};
      RunEnd(m, n + 1)
    else n
  }

  /** Where the run of consecutive nonces from the lowest one ends; nowhere when even the lowest
      nonce is above `start`. */
  function ReadyEnd(m: Items, start: nat): nat {
    if m == map[] || start < Least(m) then 0 else RunEnd(m, Least(m))
  }

  /** What a list keeps when it gives up the transactions f selects: a strict list keeps
      nothing above the lowest of them. */
  function Kept(m: Items, strict: bool, f: Tx -> bool): Items {
    if strict && Where(m, f) != map[] then Below(m, Least(Where(m, f))) else Unless(m, f)
  }

  /** The transactions f does not select that a strict list gives up all the same. */
  function Invalidated(m: Items, strict: bool, f: Tx -> bool): Items {
    if strict && Where(m, f) != map[] then Unless(From(m, Least(Where(m, f))), f) else map[]
  }

  /** Kept, selected and invalidated transactions partition the list. */
  lemma FilterPartitions(m: Items, strict: bool, f: Tx -> bool)
    ensures Kept(m, strict, f).Keys + Where(m, f).Keys + Invalidated(m, strict, f).Keys == m.Keys
    ensures Kept(m, strict, f).Keys !! Where(m, f).Keys !! Invalidated(m, strict, f).Keys
  {
    if strict && Where(m, f) != map[] {
      var low := Least(Where(m, f));
      forall n | n in m ensures n < low ==> !f(m[n]) {
        if f(m[n]) { assert n in Where(m, f); }
      }
    }
  }

  lemma NoElems(a: seq<Tx>)
    ensures Elems(a) == {} <==> a == []
  {
    if a != [] {
      assert a[0] in Elems(a);
    }
  }

  lemma TailElems(a: seq<Tx>)
    requires Ascending(a) && a != []
    ensures Elems(a[1..]) == Elems(a) - {a[0]}
  {
    assert a == [a[0]] + a[1..];
  }

  /** A set of transactions has at most one ascending listing, so Lists pins txs down. */
  lemma {:induction false} ListingIsUnique(a: seq<Tx>, b: seq<Tx>)
    requires Ascending(a) && Ascending(b) && Elems(a) == Elems(b)
    ensures a == b
  {
    NoElems(a);
    NoElems(b);
    if a != [] {
      assert a[0] in Elems(b) && b[0] in Elems(a);
      TailElems(a);
      TailElems(b);
      ListingIsUnique(a[1..], b[1..]);
    }
  }

  lemma KeyedValues(m: Items)
    requires Keyed(m)
    ensures forall t :: t in m.Values <==> t.nonce in m && m[t.nonce] == t
  {
  }

  lemma PrefixElems(a: seq<Tx>, i: nat)
    requires i < |a|
    ensures Elems(a[..i + 1]) == Elems(a[..i]) + {a[i]}
  {
    assert a[..i + 1] == a[..i] + [a[i]];
  }

  lemma SuffixElems(a: seq<Tx>, i: nat)
    requires i <= |a|
    ensures a[0..] == a
    ensures i < |a| ==> Elems(a[i..]) == Elems(a[i + 1..]) + {a[i]}
  {
    assert i < |a| ==> a[i..] == [a[i]] + a[i + 1..];
  }

  /** No transaction occurs twice. */
  ghost predicate OnceEach(txs: seq<Tx>) {
    forall i, j :: 0 <= i < j < |txs| ==> txs[i] != txs[j]
  }

  /** A sequence has as many members as places exactly when none occurs twice. */
  lemma {:induction false} ElemsCount(txs: seq<Tx>)
    ensures |Elems(txs)| <= |txs|
    ensures |Elems(txs)| == |txs| <==> OnceEach(txs)
    decreases |txs|
  {
    if txs != [] {
      var n := |txs| - 1;
      var front, last := txs[..n], txs[n];
      ElemsCount(front);
      assert txs == front + [last];
      assert Elems(txs) == Elems(front) + {last};
      if last in front {
        var i :| 0 <= i < n && front[i] == last;
        assert txs[i] == txs[n];
      } else {
        assert OnceEach(txs) <==> OnceEach(front) by {
          assert forall i :: 0 <= i < n ==> txs[i] == front[i];
        }
      }
    }
  }

  lemma EmptyPrefix(a: seq<Tx>)
    ensures Elems(a[..0]) == {}
  {
  }

  lemma NoValues(m: Items)
    ensures m.Values == {} <==> m == map[]
  {
    if m != map[] {
      var n :| n in m;
      assert m[n] in m.Values;
    }
  }

  /** Keyed maps with the same transactions are the same. */
  lemma ValuesDetermine(m: Items, m': Items)
    requires Keyed(m) && Keyed(m') && m.Values == m'.Values
    ensures m == m'
  {
    KeyedValues(m);
    KeyedValues(m');
    forall n | n in m ensures n in m' && m'[n] == m[n] {
      assert m[n] in m'.Values;
    }
    forall n | n in m' ensures n in m {
      assert m'[n] in m.Values;
    }
  }

  lemma PlusValues(m: Items, t: Tx)
    requires Keyed(m) && t.nonce !in m
    ensures Keyed(Plus(m, t)) && Plus(m, t).Values == m.Values + {t}
  {
    KeyedValues(m);
    KeyedValues(Plus(m, t));
  }

  /** done is what filing the first i of the listed transactions of m amounts to. */
  ghost predicate Filing(txs: seq<Tx>, i: nat, m: Items, done: Items) {
    && Keyed(m) && Distinct(txs) && Elems(txs) == m.Values
    && i <= |txs| && Keyed(done) && done.Values == Elems(txs[..i])
  }

  lemma FilingBegins(txs: seq<Tx>, m: Items)
    requires Keyed(m) && Distinct(txs) && Elems(txs) == m.Values
    ensures Filing(txs, 0, m, map[])
  {
  }

  lemma ListsEnumerate(txs: seq<Tx>, m: Items)
    requires Lists(txs, m)
    ensures Distinct(txs) && Elems(txs) == m.Values
  {
  }

  lemma ListingFiles(txs: seq<Tx>, m: Items)
    requires Keyed(m) && Lists(txs, m)
    ensures Filing(txs, 0, m, map[])
  {
  }

  lemma FilingStep(txs: seq<Tx>, i: nat, m: Items, done: Items)
    requires Filing(txs, i, m, done) && i < |txs|
    ensures txs[i].nonce in m && m[txs[i].nonce] == txs[i] && txs[i] in m.Values
    ensures txs[i].nonce !in done && Filing(txs, i + 1, m, Plus(done, txs[i]))
  {
    KeyedValues(m);
    assert txs[i] in Elems(txs);
    forall n | n in done ensures n != txs[i].nonce {
      assert done[n] in Elems(txs[..i]);
    }
    PlusValues(done, txs[i]);
    PrefixElems(txs, i);
  }

  lemma FilingDone(txs: seq<Tx>, m: Items, done: Items)
    requires Filing(txs, |txs|, m, done)
    ensures done == m
  {
    assert txs[..|txs|] == txs;
    ValuesDetermine(m, done);
  }

  lemma ListingEnds(txs: seq<Tx>, m: Items, end: nat)
    requires Keyed(m) && Lists(txs, m)
    requires m != map[] ==> end > 0 && end - 1 in m && forall n :: n in m ==> n < end
    ensures m == map[] <==> txs == []
    ensures txs != [] ==> txs[|txs| - 1].nonce + 1 == end
  {
    NoElems(txs);
    NoValues(m);
    if txs != [] {
      KeyedValues(m);
      assert m[end - 1] in Elems(txs) && txs[|txs| - 1] in Elems(txs);
    }
  }

  lemma AppendElems(a: seq<Tx>, t: Tx)
    ensures Elems(a + [t]) == Elems(a) + {t}
  {
  }
}

/** The nonce-sorted map of one account's transactions: a map, a heap of its keys and a cached
    sorted listing (kernel/tx_list.go). */
module SortedMap {
  import opened Wrappers
  import opened Transactions
  import Heap

  function NonceKey(n: nat): int {
    n
  }

  function TxNonceKey(t: Tx): int {
    t.nonce
  }

  /** A heap of distinct keys. */
  ghost predicate Indexes(index: seq<nat>, keys: set<nat>) {
    Heap.IsHeap(index, NonceKey) && multiset(index) == multiset(keys)
  }

  lemma IndexedKeys(index: seq<nat>, keys: set<nat>)
    requires multiset(index) == multiset(keys)
    ensures |index| == |keys| && forall n :: n in index <==> n in keys
  {
    assert |multiset(index)| == |multiset(keys)|;
    forall n ensures n in index <==> n in keys {
      assert n in index <==> n in multiset(index);
    }
  }

  /** The head of the heap is the least key. */
  lemma HeadIsLeast(index: seq<nat>, keys: set<nat>)
    requires Indexes(index, keys) && index != []
    ensures index[0] in keys && forall n :: n in keys ==> index[0] <= n
  {
    IndexedKeys(index, keys);
    Heap.LeastOfAll(index, NonceKey);
    assert index[0] in index;
    forall n | n in keys ensures index[0] <= n {
      assert NonceKey(index[0]) <= NonceKey(n);
    }
  }

  /** Pushes a new key on the heap. */
  method PushKey(index: seq<nat>, n: nat, ghost keys: set<nat>) returns (r: seq<nat>)
    requires Indexes(index, keys) && n !in keys
    ensures Indexes(r, keys + {n})
  {
    r := Heap.Push(index, n, NonceKey);
  }

  /** Pops the least key off the heap. */
  method PopKey(index: seq<nat>, ghost keys: set<nat>) returns (n: nat, r: seq<nat>)
    requires Indexes(index, keys) && index != []
    ensures n == index[0] && n in keys && (forall k :: k in keys ==> n <= k)
    ensures Indexes(r, keys - {n}) && |r| < |index|
  {
    HeadIsLeast(index, keys);
    n, r := Heap.Pop(index, NonceKey);
    assert |multiset(index)| == |multiset(r)| + 1;
    assert multiset(r) == multiset(index) - multiset{n};
  }

  /** Taking the least remaining nonce moves the cut between listed and remaining past it. */
  lemma CutAdvances(m: Items, cut: int, n: nat, listed: seq<Tx>)
    requires Keyed(m) && Lists(listed, Below(m, cut))
    requires n in m && cut <= n && forall k :: k in From(m, cut) ==> n <= k
    ensures From(m, n + 1) == From(m, cut) - {n} && Lists(listed + [m[n]], Below(m, n + 1))
  {
    forall k | k in m && cut <= k ensures n <= k {
      assert k in From(m, cut);
    }
    AppendElems(listed, m[n]);
    ValuesPlusOne(Below(m, cut), n, m[n], Below(m, n + 1));
    forall t | t in listed ensures t.nonce < n {
      assert t in Elems(listed);
    }
  }

  lemma NothingBetween(m: Items, cut: int, limit: int)
    requires cut <= limit && forall k :: k in From(m, cut) ==> limit <= k
    ensures Below(m, cut) == Below(m, limit) && From(m, cut) == From(m, limit)
  {
    forall k | k in m && cut <= k ensures limit <= k {
      assert k in From(m, cut);
    }
  }

  /** An ascending listing splits at a nonce into the listings of the two parts. */
  lemma ListingSplits(c: seq<Tx>, m: Items, limit: int, low: seq<Tx>)
    requires Keyed(m) && Lists(c, m) && Lists(low, Below(m, limit))
    ensures |low| <= |c| && c[..|low|] == low && Lists(c[|low|..], From(m, limit))
  {
    var k := 0;
    while k < |c| && c[k].nonce < limit
      invariant 0 <= k <= |c| && forall i :: 0 <= i < k ==> c[i].nonce < limit
    {
      k := k + 1;
    }
    PartValues(c[..k], c[k..], m, limit);
    ListingIsUnique(c[..k], low);
  }

  /** The same split, for a high part listed from the top. */
  lemma ListingSplitsHigh(c: seq<Tx>, m: Items, limit: int, high: seq<Tx>)
    requires Keyed(m) && Lists(c, m) && Descending(high) && Elems(high) == From(m, limit).Values
    ensures |high| <= |c| && Lists(c[..|c| - |high|], Below(m, limit))
  {
    var k := 0;
    while k < |c| && c[k].nonce < limit
      invariant 0 <= k <= |c| && forall i :: 0 <= i < k ==> c[i].nonce < limit
    {
      k := k + 1;
    }
    assert c == c[..k] + c[k..];
    PartValues(c[..k], c[k..], m, limit);
    SameLength(c[k..], high);
  }

  /** An ascending and a descending listing of the same set are equally long. */
  lemma {:induction false} SameLength(a: seq<Tx>, d: seq<Tx>)
    requires Ascending(a) && Descending(d) && Elems(a) == Elems(d)
    ensures |a| == |d|
  {
    NoElems(a);
    NoElems(d);
    if a != [] {
      var last := |d| - 1;
      assert a[0] in Elems(d) && d[last] in Elems(a);
      TailElems(a);
      assert d == d[..last] + [d[last]];
      SameLength(a[1..], d[..last]);
    }
  }

  lemma PartValues(a: seq<Tx>, b: seq<Tx>, m: Items, limit: int)
    requires Keyed(m) && Elems(a + b) == m.Values
    requires (forall t :: t in a ==> t.nonce < limit) && (forall t :: t in b ==> limit <= t.nonce)
    ensures Elems(a) == Below(m, limit).Values && Elems(b) == From(m, limit).Values
  {
    forall t ensures t in Elems(a) + Elems(b) <==> t.nonce in m && m[t.nonce] == t {
      assert t in Elems(a + b) <==> t in Elems(a) + Elems(b);
      assert t in m.Values <==> t.nonce in m && m[t.nonce] == t;
    }
    KeyedValues(Below(m, limit));
    KeyedValues(From(m, limit));
  }

  /** What Filter has dropped, and what it still holds, while `todo` is unvisited. */
  ghost function Dropped(m: Items, f: Tx -> bool, todo: set<nat>): Items {
    map n | n in m && n !in todo && f(m[n]) :: m[n]
  }

  ghost function Held(m: Items, f: Tx -> bool, todo: set<nat>): Items {
    map n | n in m && (n in todo || !f(m[n])) :: m[n]
  }

  lemma NothingDropped(m: Items, f: Tx -> bool)
    ensures Where(m, f).Values == {} ==> Unless(m, f) == m
  {
    if n :| n in m && f(m[n]) {
      assert Where(m, f)[n] in Where(m, f).Values;
    } else {
      assert Unless(m, f) == m;
    }
  }

  lemma VisitDropped(m: Items, f: Tx -> bool, todo: set<nat>, n: nat, removed: seq<Tx>)
    requires Keyed(m) && n in todo && n in m && f(m[n])
    requires Distinct(removed) && Elems(removed) == Dropped(m, f, todo).Values
    ensures Distinct(removed + [m[n]]) && Elems(removed + [m[n]]) == Dropped(m, f, todo - {n}).Values
  {
    AppendElems(removed, m[n]);
    ValuesPlusOne(Dropped(m, f, todo), n, m[n], Dropped(m, f, todo - {n}));
    forall t | t in removed ensures t.nonce != n {
      assert t in Elems(removed);
    }
  }

  /** Taking the greatest remaining nonce moves the cut down to it. */
  lemma CutRecedes(m: Items, cut: int, n: nat, drops: seq<Tx>)
    requires Keyed(m) && Descending(drops) && Elems(drops) == From(m, cut).Values
    requires n in m && n < cut && forall k :: k in Below(m, cut) ==> k <= n
    ensures Below(m, n) == Below(m, cut) - {n}
    ensures Descending(drops + [m[n]]) && Elems(drops + [m[n]]) == From(m, n).Values
  {
    forall k | k in m && k < cut ensures k <= n {
      assert k in Below(m, cut);
    }
    AppendElems(drops, m[n]);
    ValuesPlusOne(From(m, cut), n, m[n], From(m, n));
    forall t | t in drops ensures t.nonce > n {
      assert t in Elems(drops);
    }
  }

  lemma Twice<T>(s: seq<T>, i: nat, j: nat)
    requires i < j < |s|
    ensures s[i] == s[j] ==> multiset(s)[s[i]] >= 2
  {
    assert s == s[..i] + [s[i]] + s[i + 1..j] + [s[j]] + s[j + 1..];
  }

  /** The keys, each once, in ascending order. */
  ghost predicate SortedIndex(s: seq<nat>, keys: set<nat>) {
    && (forall i, j :: 0 <= i < j < |s| ==> s[i] < s[j])
    && multiset(s) == multiset(keys)
  }

  /** Sorts the heap of keys. */
  method SortKeys(index: seq<nat>, ghost keys: set<nat>) returns (s: seq<nat>)
    requires Indexes(index, keys)
    ensures SortedIndex(s, keys) && |s| == |keys|
  {
    s := Heap.Sort(index, NonceKey);
    forall i, j | 0 <= i < j < |s| ensures s[i] < s[j] {
      assert NonceKey(s[i]) <= NonceKey(s[j]);
      Twice(s, i, j);
    }
    IndexedKeys(s, keys);
  }

  /** The last of a sorted index is the greatest key; without it the rest is indexed. */
  lemma LastKey(s: seq<nat>, keys: set<nat>)
    requires SortedIndex(s, keys) && s != []
    ensures var top := s[|s| - 1];
            top in keys && (forall k :: k in keys ==> k <= top) && SortedIndex(s[..|s| - 1], keys - {top})
  {
    var top := s[|s| - 1];
    IndexedKeys(s, keys);
    assert top in s;
    WithoutLast(s);
    KeysWithout(keys, top);
    assert multiset(s[..|s| - 1]) == multiset(keys - {top});
  }

  lemma WithoutLast<T>(s: seq<T>)
    requires s != []
    ensures multiset(s[..|s| - 1]) == multiset(s) - multiset{s[|s| - 1]}
  {
    assert s == s[..|s| - 1] + [s[|s| - 1]];
  }

  lemma KeysWithout(keys: set<nat>, n: nat)
    requires n in keys
    ensures multiset(keys - {n}) == multiset(keys) - multiset{n}
  {
  }

  /** Takes the transactions of highest nonce out of the map, guided by its sorted keys. */
  method DropHighest(items: Items, sorted: seq<nat>, threshold: nat)
    returns (kept: Items, drops: seq<Tx>, ghost cut: nat)
    requires Keyed(items) && SortedIndex(sorted, items.Keys) && threshold <= |sorted|
    ensures kept == Below(items, cut) && SortedIndex(sorted[..threshold], kept.Keys)
    ensures Descending(drops) && Elems(drops) == From(items, cut).Values
  {
    kept, drops, cut := items, [], TWO_64;
    var size := |sorted|;
    assert sorted[..size] == sorted;
    assert Below(items, cut) == items && From(items, cut) == map[];
    while size > threshold
      invariant threshold <= size <= |sorted|
      invariant SortedIndex(sorted[..size], kept.Keys)
      invariant kept == Below(items, cut)
      invariant Descending(drops) && Elems(drops) == From(items, cut).Values
    {
      LastKey(sorted[..size], kept.Keys);
      assert sorted[..size][..size - 1] == sorted[..size - 1];
      CutRecedes(items, cut, sorted[size - 1], drops);
      drops := drops + [kept[sorted[size - 1]]];
      cut := sorted[size - 1];
      assert (kept - {cut}).Keys == kept.Keys - {cut};
      kept := kept - {sorted[size - 1]};
      size := size - 1;
    }
  }

  /** When the popping loop of Ready stops, it has consumed the whole run. */
  lemma RunStops(index: seq<nat>, m: Items, first: nat, cut: nat, next: nat)
    requires Keyed(m) && Indexes(index, From(m, cut).Keys) && next == (if cut == TWO_64 then 0 else cut)
    requires first <= cut <= TWO_64 && forall k :: first <= k < cut ==> k in m
    requires index == [] || index[0] != next
    ensures cut == RunEnd(m, first)
  {
    IndexedKeys(index, From(m, cut).Keys);
    if cut in m {
      assert cut in From(m, cut);
      HeadIsLeast(index, From(m, cut).Keys);
    }
  }

  lemma NothingReady(index: seq<nat>, m: Items, start: nat)
    requires Keyed(m) && Indexes(index, m.Keys) && (index == [] || index[0] > start)
    ensures ReadyEnd(m, start) == 0 && Below(m, 0) == map[] && From(m, 0) == m
  {
    IndexedKeys(index, m.Keys);
    if index != [] {
      HeadIsLeast(index, m.Keys);
    }
  }

  /** Takes the run of consecutive nonces that starts at the lowest one. */
  method TakeRun(items0: Items, index0: seq<nat>) returns (items: Items, index: seq<nat>, ready: seq<Tx>)
    requires Keyed(items0) && Indexes(index0, items0.Keys) && index0 != []
    ensures Indexes(index, items.Keys) && ready != [] && ready[0].nonce == index0[0]
    ensures var end := RunEnd(items0, index0[0]);
            Lists(ready, Below(items0, end)) && items == From(items0, end)
  {
    HeadIsLeast(index0, items0.Keys);
    ghost var cut := index0[0];
    assert From(items0, cut) == items0 && Below(items0, cut) == map[];
    items, index, ready := items0, index0, [];
    var next := index[0];
    while |index| > 0 && index[0] == next
      invariant Indexes(index, items.Keys) && next == (if cut == TWO_64 then 0 else cut)
      invariant index0[0] <= cut <= TWO_64 && forall k :: index0[0] <= k < cut ==> k in items0
      invariant items == From(items0, cut) && Lists(ready, Below(items0, cut))
      invariant if ready == [] then index == index0 && cut == index0[0] else ready[0].nonce == index0[0]
      decreases |index|
    {
      HeadIsLeast(index, items.Keys);
      CutAdvances(items0, cut, next, ready);
      ready := ready + [items[next]];
      var nonce;
      nonce, index := PopKey(index, items.Keys);
      assert (items - {next}).Keys == items.Keys - {next};
      items := items - {next};
      cut := cut + 1;
      next := Next(next);
    }
    RunStops(index, items0, index0[0], cut, next);
  }

  /** Builds a heap of the given keys, visiting them in any order. */
  method IndexKeys(keys: set<nat>) returns (index: seq<nat>)
    ensures Indexes(index, keys)
  {
    index := [];
    var todo := keys;
    while todo != {}
      invariant todo <= keys && multiset(index) == multiset(keys - todo)
    {
      var n :| n in todo;
      assert keys - (todo - {n}) == (keys - todo) + {n};
      index, todo := index + [n], todo - {n};
    }
    assert keys - todo == keys;
    index := Heap.Init(index, NonceKey);
  }

  /** Lists the transactions of a map by ascending nonce. */
  method SortItems(items: Items) returns (txs: seq<Tx>)
    requires Keyed(items)
    ensures Lists(txs, items)
  {
    var list := [];
    var todo := items.Keys;
    while todo != {}
      invariant todo <= items.Keys
      invariant Distinct(list) && Elems(list) == Dropped(items, t => true, todo).Values
    {
      var n :| n in todo;
      VisitDropped(items, t => true, todo, n, list);
      list, todo := list + [items[n]], todo - {n};
    }
    assert Dropped(items, t => true, {}) == items;
    txs := Heap.Sort(list, TxNonceKey);
    SortedListing(list, txs);
  }

  lemma SortedListing(list: seq<Tx>, txs: seq<Tx>)
    requires Distinct(list) && multiset(txs) == multiset(list)
    requires forall i, j :: 0 <= i < j < |txs| ==> TxNonceKey(txs[i]) <= TxNonceKey(txs[j])
    ensures Ascending(txs) && Elems(txs) == Elems(list)
  {
    forall t ensures t in txs <==> t in list {
      assert t in multiset(txs) <==> t in multiset(list);
    }
    forall i, j | 0 <= i < j < |txs| ensures txs[i].nonce < txs[j].nonce {
      if txs[i].nonce == txs[j].nonce {
        assert txs[i] in list && txs[j] in list;
        assert txs[i] == txs[j];
        OnceOnly(list, txs[i]);
        Twice(txs, i, j);
      }
    }
  }

  lemma {:induction false} OnceOnly(list: seq<Tx>, t: Tx)
    requires Distinct(list)
    ensures multiset(list)[t] <= 1
  {
    if list != [] {
      var last := |list| - 1;
      assert list == list[..last] + [list[last]];
      OnceOnly(list[..last], t);
      if list[last] == t {
        assert t !in list[..last];
        assert t !in multiset(list[..last]);
      }
    }
  }

  lemma ValuesPlusOne(m: Items, n: nat, t: Tx, m': Items)
    requires m'.Keys == m.Keys + {n} && n !in m && m'[n] == t
    requires forall k :: k in m ==> m'[k] == m[k]
    ensures m'.Values == m.Values + {t}
  {
    forall v | v in m.Values ensures v in m'.Values {
      var k :| k in m && m[k] == v;
      assert m'[k] == v;
    }
  }

  /** Finds a nonce in the heap and removes it. */
  method Unindex(index: seq<nat>, ghost keys: set<nat>, nonce: nat) returns (rest: seq<nat>)
    requires Indexes(index, keys) && nonce in keys
    ensures Indexes(rest, keys - {nonce})
  {
    IndexedKeys(index, keys);
    var i := 0;
    while i < |index|
      invariant 0 <= i <= |index| && nonce !in index[..i]
    {
      if index[i] == nonce {
        break;
      }
      i := i + 1;
    }
    var n;
    n, rest := Heap.Remove(index, i, NonceKey);
    assert multiset(rest) == multiset(index) - multiset{nonce};
  }

  class TxSortedMap {
    var items: Items
    var index: seq<nat>
    var cache: Option<seq<Tx>>

    ghost predicate ValidIndex()
      reads this
    {
      && Keyed(items)
      && Indexes(index, items.Keys)
    }

    /** The heap holds exactly the keys of the map, and a cache, when there is one, is the
        sorted listing of the map. */
    ghost predicate Valid()
      reads this
    {
      ValidIndex() && (cache.Some? ==> Lists(cache.value, items))
    }

    lemma KeyedIs()
      requires Valid()
      ensures Keyed(items)
    {
    }

    constructor ()
      ensures Valid() && items == map[]
    {
      items := map[];
      index := [];
      cache := None;
    }

    method Put(tx: Tx)
      requires Valid()
      modifies this
      ensures Valid() && items == Plus(old(items), tx)
    {
      if tx.nonce !in items {
        index := PushKey(index, tx.nonce, items.Keys);
      }
      assert items[tx.nonce := tx].Keys == items.Keys + {tx.nonce};
      items, cache := items[tx.nonce := tx], None;
    }

    /** Removes and returns the transactions whose nonce is below the threshold. */
    method Forward(threshold: nat) returns (removed: seq<Tx>)
      requires Valid()
      modifies this
      ensures Valid() && Lists(removed, Below(old(items), threshold)) && items == From(old(items), threshold)
    {
      removed := [];
      ghost var cut := 0;
      assert From(items, 0) == items && Below(items, 0) == map[];
      while |index| > 0 && index[0] < threshold
        invariant ValidIndex() && cache == old(cache)
        invariant cut <= threshold
        invariant items == From(old(items), cut) && Lists(removed, Below(old(items), cut))
        decreases |index|
      {
        var nonce;
        nonce, index := PopKey(index, items.Keys);
        CutAdvances(old(items), cut, nonce, removed);
        removed := removed + [items[nonce]];
        assert (items - {nonce}).Keys == items.Keys - {nonce};
        items := items - {nonce};
        cut := nonce + 1;
      }
      if index != [] {
        HeadIsLeast(index, items.Keys);
      } else {
        IndexedKeys(index, items.Keys);
      }
      NothingBetween(old(items), cut, threshold);
      if cache.Some? {
        ListingSplits(cache.value, old(items), threshold, removed);
        cache := Some(cache.value[|removed|..]);
      }
    }

    /** Removes and returns the transactions that f selects. */
    method Filter(f: Tx -> bool) returns (removed: seq<Tx>)
      requires Valid()
      modifies this
      ensures Valid() && items == Unless(old(items), f)
      ensures Distinct(removed) && Elems(removed) == Where(old(items), f).Values
    {
      removed := [];
      var todo := items.Keys;
      while todo != {}
        invariant todo <= old(items).Keys && index == old(index) && cache == old(cache)
        invariant items == Held(old(items), f, todo)
        invariant Distinct(removed) && Elems(removed) == Dropped(old(items), f, todo).Values
      {
        var nonce :| nonce in todo;
        var tx := items[nonce];
        if f(tx) {
          VisitDropped(old(items), f, todo, nonce, removed);
          removed := removed + [tx];
          items := items - {nonce};
        } else {
          assert Dropped(old(items), f, todo) == Dropped(old(items), f, todo - {nonce});
        }
        todo := todo - {nonce};
      }
      assert Dropped(old(items), f, {}) == Where(old(items), f);
      assert items == Unless(old(items), f);
      if |removed| > 0 {
        index := IndexKeys(items.Keys);
        cache := None;
      } else {
        NothingDropped(old(items), f);
      }
    }

    /** Drops the transactions of highest nonce until at most `threshold` are left. */
    method Cap(threshold: nat) returns (drops: seq<Tx>)
      requires Valid()
      modifies this
      ensures Valid() && items == Lowest(old(items), threshold)
      ensures Descending(drops) && Elems(drops) == Beyond(old(items), threshold).Values
    {
      drops := [];
      if |items| <= threshold {
        return;
      }
      var sorted := SortKeys(index, items.Keys);
      var kept; ghost var cut;
      kept, drops, cut := DropHighest(items, sorted, threshold);
      IndexedKeys(sorted[..threshold], kept.Keys);
      BelowIsLowest(items, cut);
      FromIsBeyond(items, cut);
      var heap := Heap.Init(sorted[..threshold], NonceKey);
      var trimmed := cache;
      if cache.Some? {
        ListingSplitsHigh(cache.value, items, cut, drops);
        trimmed := Some(cache.value[..|cache.value| - |drops|]);
      }
      items, index, cache := kept, heap, trimmed;
    }

    /** Removes the transaction with the given nonce, if there is one. */
    method Remove(nonce: nat) returns (ok: bool)
      requires Valid()
      modifies this
      ensures Valid() && ok == (nonce in old(items)) && items == old(items) - {nonce}
    {
      hide Indexes;
      ok := nonce in items;
      if !ok {
        return;
      }
      assert (items - {nonce}).Keys == items.Keys - {nonce};
      index := Unindex(index, items.Keys, nonce);
      items := items - {nonce};
      cache := None;
    }

    /** Removes and returns the run of consecutive nonces that starts at the lowest one, unless
        the lowest one is above `start`. */
    method Ready(start: nat) returns (ready: seq<Tx>)
      requires Valid()
      modifies this
      ensures Valid()
      ensures var end := ReadyEnd(old(items), start);
              Lists(ready, Below(old(items), end)) && items == From(old(items), end)
    {
      hide Indexes, RunEnd, Below;
      ready := [];
      if |index| == 0 || index[0] > start {
        NothingReady(index, items, start);
        return;
      }
      HeadIsLeast(index, items.Keys);
      items, index, ready := TakeRun(items, index);
      cache := None;
    }

    /** Lists the transactions by nonce, remembering the listing. */
    method Flatten() returns (txs: seq<Tx>)
      requires Valid()
      modifies this
      ensures Valid() && items == old(items) && Lists(txs, items)
    {
      if cache.None? {
        var c := SortItems(items);
        cache := Some(c);
      }
      txs := cache.value;
    }
  }
}

/** The list of one account's transactions, strict (executable) or not, with the two caps that
    let Filter exit early (kernel/tx_list.go). */
module TxLists {
  import opened Wrappers
  import opened Transactions
  import opened SortedMap

  /** A replacement must pay more than the transaction it replaces, and at least the bump. */
  predicate Replaces(tx: Tx, was: Tx, priceBump: nat) {
    was.gasPrice < tx.gasPrice && was.gasPrice * (100 + priceBump) / 100 <= tx.gasPrice
  }

  /** In other words: it pays more, and its price with everything below the next unit, in hundredths,
      is above the price it replaces with the bump in percent added. */
  lemma ReplacesExactly(tx: Tx, was: Tx, priceBump: nat)
    ensures Replaces(tx, was, priceBump) <==>
              tx.gasPrice > was.gasPrice && 100 * tx.gasPrice + 100 > 100 * was.gasPrice + was.gasPrice * priceBump
  {
    var wanted := was.gasPrice * (100 + priceBump);
    assert wanted == 100 * was.gasPrice + was.gasPrice * priceBump;
  }

  /** So prices rise along replacements, by the full percentage whenever that is a whole number. */
  lemma ReplacementsRise(tx: Tx, mid: Tx, was: Tx, priceBump: nat)
    requires Replaces(tx, mid, priceBump) && Replaces(mid, was, priceBump)
    ensures Replaces(tx, was, priceBump) && !Replaces(was, tx, priceBump) && tx.gasPrice >= was.gasPrice + 2
    ensures was.gasPrice * priceBump % 100 == 0 ==> 100 * (mid.gasPrice - was.gasPrice) >= was.gasPrice * priceBump
  {
    ReplacesExactly(tx, mid, priceBump);
    ReplacesExactly(mid, was, priceBump);
    ReplacesExactly(tx, was, priceBump);
  }

  function TooDear(costLimit: int, gasLimit: nat): Tx -> bool {
    (t: Tx) => t.Cost() > costLimit || t.gas > gasLimit
  }

  function Above(nonce: nat): Tx -> bool {
    (t: Tx) => t.nonce > nonce
  }

  ghost predicate Capped(m: Items, costcap: int, gascap: nat) {
    forall n :: n in m ==> m[n].Cost() <= costcap && m[n].gas <= gascap
  }

  lemma CappedMeansPayable(m: Items, costcap: int, gascap: nat, costLimit: int, gasLimit: nat)
    requires Capped(m, costcap, gascap) && costcap <= costLimit && gascap <= gasLimit
    ensures Where(m, TooDear(costLimit, gasLimit)) == map[] && Unless(m, TooDear(costLimit, gasLimit)) == m
  {
  }

  /** The least nonce of a listed set of transactions. */
  method LowestNonce(removed: seq<Tx>, ghost m: Items) returns (lowest: nat)
    requires Keyed(m) && removed != [] && Elems(removed) == m.Values
    ensures m != map[] && lowest == Least(m)
  {
    lowest := TWO_64 - 1;
    for i := 0 to |removed|
      invariant lowest < TWO_64 && forall j :: 0 <= j < i ==> lowest <= removed[j].nonce
      invariant lowest == TWO_64 - 1 || exists j :: 0 <= j < i && removed[j].nonce == lowest
    {
      if lowest > removed[i].nonce {
        lowest := removed[i].nonce;
      }
    }
    KeyedValues(m);
    forall k | k in m ensures lowest <= k {
      assert m[k] in Elems(removed);
    }
    assert removed[0] in Elems(removed);
    assert exists j :: 0 <= j < |removed| && removed[j].nonce == lowest;
    var j :| 0 <= j < |removed| && removed[j].nonce == lowest;
    assert removed[j] in Elems(removed);
  }

  /** After the two passes of a strict filter only the part below the lowest drop is left. */
  lemma StrictFilter(m: Items, f: Tx -> bool, lowest: nat)
    requires Keyed(m) && Where(m, f) != map[] && lowest == Least(Where(m, f))
    ensures Unless(Unless(m, f), Above(lowest)) == Below(m, lowest)
    ensures Where(Unless(m, f), Above(lowest)) == Unless(From(m, lowest), f)
  {
    forall n | n in m && f(m[n]) ensures lowest <= n {
      assert n in Where(m, f);
    }
    assert lowest in Where(m, f);
  }

  lemma StrictRemove(m: Items, nonce: nat)
    requires Keyed(m)
    ensures Unless(m - {nonce}, Above(nonce)) == Below(m, nonce)
    ensures Where(m - {nonce}, Above(nonce)) == From(m, nonce + 1)
  {
  }

  class TxList {
    const strict: bool
    const txs: TxSortedMap
    var costcap: int
    var gascap: nat

    ghost predicate Valid()
      reads this, txs
    {
      txs.Valid() && Capped(txs.items, costcap, gascap)
    }

    constructor (strict: bool)
      ensures Valid() && fresh(txs) && this.strict == strict && txs.items == map[]
    {
      this.strict := strict;
      txs := new TxSortedMap();
      costcap, gascap := 0, 0;
    }

    /** Files the transaction, unless one with its nonce is there that it may not replace. */
    method Add(tx: Tx, priceBump: nat) returns (inserted: bool, replaced: Option<Tx>)
      requires Valid()
      modifies this, txs
      ensures Valid()
      ensures inserted == (tx.nonce in old(txs.items) ==> Replaces(tx, old(txs.items)[tx.nonce], priceBump))
      ensures txs.items == if inserted then Plus(old(txs.items), tx) else old(txs.items)
      ensures replaced == if inserted && tx.nonce in old(txs.items) then Some(old(txs.items)[tx.nonce]) else None
    {
      inserted, replaced := true, None;
      if tx.nonce in txs.items {
        var was := txs.items[tx.nonce];
        var threshold := was.gasPrice * (100 + priceBump) / 100;
        if was.gasPrice >= tx.gasPrice || threshold > tx.gasPrice {
          inserted := false;
          return;
        }
        replaced := Some(was);
      }
      txs.Put(tx);
      if costcap < tx.Cost() {
        costcap := tx.Cost();
      }
      if gascap < tx.gas {
        gascap := tx.gas;
      }
    }

    method Forward(threshold: nat) returns (removed: seq<Tx>)
      requires Valid()
      modifies txs
      ensures Valid() && Lists(removed, Below(old(txs.items), threshold))
      ensures txs.items == From(old(txs.items), threshold)
    {
      removed := txs.Forward(threshold);
    }

    /** Removes what the account cannot pay for; a strict list also gives up everything above
        the lowest such transaction. The caps only save work: the outcome is that of a full scan. */
    method Filter(costLimit: int, gasLimit: nat) returns (removed: seq<Tx>, invalids: seq<Tx>)
      requires Valid()
      modifies this, txs
      ensures Valid()
      ensures var dear := TooDear(costLimit, gasLimit);
              && Distinct(removed) && Elems(removed) == Where(old(txs.items), dear).Values
              && Distinct(invalids) && Elems(invalids) == Invalidated(old(txs.items), strict, dear).Values
              && txs.items == Kept(old(txs.items), strict, dear)
    {
      removed, invalids := [], [];
      var dear := TooDear(costLimit, gasLimit);
      if costcap <= costLimit && gascap <= gasLimit {
        CappedMeansPayable(txs.items, costcap, gascap, costLimit, gasLimit);
        return;
      }
      costcap, gascap := costLimit, gasLimit;
      removed := txs.Filter(dear);
      NoElems(removed);
      NoValues(Where(old(txs.items), dear));
      if strict && |removed| > 0 {
        var lowest := LowestNonce(removed, Where(old(txs.items), dear));
        StrictFilter(old(txs.items), dear, lowest);
        invalids := txs.Filter(Above(lowest));
      }
    }

    method Cap(threshold: nat) returns (drops: seq<Tx>)
      requires Valid()
      modifies txs
      ensures Valid() && txs.items == Lowest(old(txs.items), threshold)
      ensures Descending(drops) && Elems(drops) == Beyond(old(txs.items), threshold).Values
    {
      drops := txs.Cap(threshold);
      LowestIsPart(old(txs.items), threshold);
    }

    /** Removes the transaction with the given one's nonce; a strict list also gives up
        everything above it. */
    method Remove(tx: Tx) returns (ok: bool, invalids: seq<Tx>)
      requires Valid()
      modifies txs
      ensures Valid() && ok == (tx.nonce in old(txs.items))
      ensures !ok || !strict ==> txs.items == old(txs.items) - {tx.nonce} && invalids == []
      ensures ok && strict ==> txs.items == Below(old(txs.items), tx.nonce) && Distinct(invalids)
                               && Elems(invalids) == From(old(txs.items), tx.nonce + 1).Values
    {
      hide Below, From, Distinct, Elems, TxSortedMap.Valid, Where;
      txs.KeyedIs();
      invalids := [];
      ok := txs.Remove(tx.nonce);
      if ok && strict {
        StrictRemove(old(txs.items), tx.nonce);
        invalids := txs.Filter(Above(tx.nonce));
      }
    }

    method Ready(start: nat) returns (ready: seq<Tx>)
      requires Valid()
      modifies txs
      ensures Valid()
      ensures var end := ReadyEnd(old(txs.items), start);
              Lists(ready, Below(old(txs.items), end)) && txs.items == From(old(txs.items), end)
    {
      ready := txs.Ready(start);
    }

    method Flatten() returns (list: seq<Tx>)
      requires Valid()
      modifies txs
      ensures Valid() && txs.items == old(txs.items) && Lists(list, txs.items)
    {
      list := txs.Flatten();
    }
  }
}
