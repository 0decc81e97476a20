/** Levels and totals of a table of transaction lists: the arithmetic behind the fair truncation
    of the pending lists (kernel/tx_pool.go). */
module Truncation {
  import opened Transactions
  import opened SortedMap
  import opened PoolSpec
  import Heap

  /** The number of transactions in all lists together. */
  ghost function Total(m: Table): nat {
    if m == map[] then 0 else
      var a :| a in m;
      assert (m - {a}).Keys == m.Keys - {a};
      |m[a]| + Total(m - {a})
  }

  /** The total does not depend on the order of counting. */
  lemma {:induction false} TotalSplits(m: Table, a: Address)
    requires a in m
    ensures Total(m) == |m[a]| + Total(m - {a})
    decreases |m|
  {
    var b := TotalTakes(m);
    hide Total;
    if b != a {
      WithoutBoth(m, a, b);
      TotalSplits(m - {b}, a);
      TotalSplits(m - {a}, b);
    }
  }

  lemma TotalTakes(m: Table) returns (b: Address)
    requires m != map[]
    ensures b in m && Total(m) == |m[b]| + Total(m - {b})
  {
    b :| b in m && Total(m) == |m[b]| + Total(m - {b});
  }

  lemma WithoutBoth(m: Table, a: Address, b: Address)
    requires a in m && b in m && a != b
    ensures |m - {b}| < |m| && |m - {a}| < |m| && m - {b} - {a} == m - {a} - {b}
  {
    assert (m - {b}).Keys == m.Keys - {b} && (m - {a}).Keys == m.Keys - {a};
  }

  lemma TotalUpdates(m: Table, a: Address, list: Items)
    requires a in m
    ensures Total(m[a := list]) == Total(m) - |m[a]| + |list|
  {
    TotalSplits(m, a);
    TotalSplits(m[a := list], a);
    assert m[a := list] - {a} == m - {a};
  }

  lemma ListWithinTotal(m: Table, a: Address)
    requires a in m
    ensures |m[a]| <= Total(m)
  {
    TotalSplits(m, a);
  }

  /** Every remote list cut down to the given length. */
  ghost function Level(m: Table, locals: set<Address>, level: nat): Table {
    map a | a in m :: if a in locals then m[a] else Lowest(m[a], level)
  }

  /** Cutting the lists down to a level, with the nonce fallback, keeps a gap-free account gap-free. */
  lemma LevelGapFree(m: Table, m': Table, nonces: map<Address, nat>, nonces': map<Address, nat>,
                     state: Address -> Uint64, locals: set<Address>, level: nat, a: Address)
    requires m' == Level(m, locals, level) && NoncesFall(m, m', nonces, nonces', state)
    ensures GapFreeAt(Get(m, a), state(a), NonceOf(nonces, state, a)) ==>
              GapFreeAt(Get(m', a), state(a), NonceOf(nonces', state, a))
    ensures NonceOf(nonces', state, a) <= NonceOf(nonces, state, a)
  {
    hide Lowest, GapFreeAt;
    assert FallsTo(Get(m, a), Get(m', a), NonceOf(nonces, state, a), NonceOf(nonces', state, a));
    LowestIsClosed(Get(m, a), level);
    if GapFreeAt(Get(m, a), state(a), NonceOf(nonces, state, a)) {
      CutGapFree(Get(m, a), Get(m', a), state(a), NonceOf(nonces, state, a), NonceOf(nonces', state, a));
    }
  }

  /** No remote list is longer than the level. */
  ghost predicate Under(m: Table, locals: set<Address>, level: nat) {
    forall a :: a in m && a !in locals ==> |m[a]| <= level
  }

  lemma LevelIsSame(m: Table, locals: set<Address>, level: nat)
    requires Under(m, locals, level)
    ensures Level(m, locals, level) == m
  {
  }

  /** Fair truncation: every remote list is cut down to one level, which is the highest that
      meets the limit, or else the account limit. */
  ghost predicate WaterFilled(m: Table, m': Table, locals: set<Address>, slots: nat, limit: nat, level: nat) {
    && m' == Level(m, locals, level) && slots <= level
    && (Total(m) <= limit ==> m' == m)
    && (Total(m') <= limit || level == slots)
    && (m' == m || Total(Level(m, locals, level + 1)) > limit)
  }

  /** What fair truncation means for each account: local lists and lists within the account limit
      are untouched, no list is cut below the account limit, lists lose their highest nonces, and
      the lists that were cut share a length that no other remote list exceeds. */
  lemma WaterFillIsFair(m: Table, m': Table, locals: set<Address>, slots: nat, limit: nat, level: nat)
    requires WaterFilled(m, m', locals, slots, limit, level)
    ensures m'.Keys == m.Keys
    ensures forall a :: a in m && (a in locals || |m[a]| <= slots) ==> m'[a] == m[a]
    ensures forall a :: a in m && m'[a] != m[a] ==> |m'[a]| == level >= slots && m'[a] == Lowest(m[a], |m'[a]|)
    ensures forall a, b :: a in m && b in m && m'[a] != m[a] && b !in locals ==> |m'[b]| <= |m'[a]|
    ensures Total(m') <= limit || forall a :: a in m && a !in locals ==> |m'[a]| <= slots
  {
    hide Lowest, Total;
    forall a | a in m && a !in locals
      ensures |m'[a]| <= level && m'[a] == Lowest(m[a], level)
      ensures |m[a]| <= level ==> m'[a] == m[a]
      ensures |m[a]| > level ==> |m'[a]| == level
    {
      LowestIsPart(m[a], level);
      ShortStays(m[a], level);
    }
  }

  lemma ShortStays(m: Items, k: nat)
    ensures |m| <= k ==> Lowest(m, k) == m
  {
  }

  /** Cutting to k + 1 and then to k is cutting to k. */
  lemma {:induction false} LowestTwice(m: Items, k: nat)
    ensures Lowest(Lowest(m, k + 1), k) == Lowest(m, k)
    decreases |m|
  {
    if |m| > k + 1 {
      var top := Greatest(m);
      assert (m - {top}).Keys == m.Keys - {top};
      LowestTwice(m - {top}, k);
    }
  }

  /** Distinct remote accounts that make up everything above the floor, none of them shorter
      than the level. */
  ghost predicate Tops(m: Table, locals: set<Address>, who: seq<Address>, level: nat, floor: nat) {
    && (forall i, j :: 0 <= i < j < |who| ==> who[i] != who[j])
    && (forall a :: a in who ==> a in m && a !in locals && |m[a]| >= level)
    && (forall a :: a in m && a !in locals && a !in who ==> |m[a]| <= floor)
  }

  /** Between two levels: the lists of `done` are one lower than the rest. */
  ghost function Between(m: Table, locals: set<Address>, done: set<Address>, level: nat): Table
    requires level > 0
  {
    map a | a in m :: if a in locals then m[a] else if a in done then Lowest(m[a], level - 1) else Lowest(m[a], level)
  }

  ghost function First(who: seq<Address>, i: nat): set<Address>
    requires i <= |who|
  {
    set k | 0 <= k < i :: who[k]
  }

  lemma RoundStarts(m: Table, locals: set<Address>, who: seq<Address>, level: nat)
    requires level > 0
    ensures Between(m, locals, First(who, 0), level) == Level(m, locals, level)
  {
  }

  lemma RoundSteps(m: Table, locals: set<Address>, who: seq<Address>, i: nat, level: nat, floor: nat)
    requires level > 0 && i < |who| && Tops(m, locals, who, level, floor)
    ensures var t := Between(m, locals, First(who, i), level);
            && who[i] in t && |t[who[i]]| == level && t[who[i]] != map[]
            && Between(m, locals, First(who, i + 1), level) == t[who[i] := Lowest(t[who[i]], level - 1)]
  {
    assert First(who, i + 1) == First(who, i) + {who[i]};
    assert who[i] !in First(who, i);
    OneLower(m, locals, First(who, i), who[i], level);
    LowestIsPart(m[who[i]], level);
  }

  lemma OneLower(m: Table, locals: set<Address>, done: set<Address>, a: Address, level: nat)
    requires level > 0 && a in m && a !in locals && a !in done
    ensures var t := Between(m, locals, done, level);
            t[a] == Lowest(m[a], level) && Between(m, locals, done + {a}, level) == t[a := Lowest(t[a], level - 1)]
  {
    hide Lowest;
    LowestTwice(m[a], level - 1);
  }

  lemma RoundEnds(m: Table, locals: set<Address>, who: seq<Address>, level: nat, floor: nat)
    requires level > floor && Tops(m, locals, who, level, floor)
    ensures Between(m, locals, First(who, |who|), level) == Level(m, locals, level - 1)
  {
    assert forall a :: a in First(who, |who|) <==> a in who;
  }

  lemma LevelLength(m: Table, locals: set<Address>, a: Address, level: nat)
    requires a in m && a !in locals && |m[a]| >= level
    ensures a in Level(m, locals, level) && |Level(m, locals, level)[a]| == level
  {
    LowestIsPart(m[a], level);
  }

  lemma TopsLower(m: Table, locals: set<Address>, who: seq<Address>, level: nat, floor: nat)
    requires Tops(m, locals, who, level, floor) && level > 0
    ensures Tops(m, locals, who, level - 1, floor)
  {
  }

  lemma TopLength(m: Table, locals: set<Address>, who: seq<Address>, level: nat, floor: nat)
    requires Tops(m, locals, who, level, floor) && who != []
    ensures var last := who[|who| - 1];
            last in Level(m, locals, level) && |Level(m, locals, level)[last]| == level
  {
    LevelLength(m, locals, who[|who| - 1], level);
  }

  /** An entry of the priority queue of the remote accounts above the account limit. */
  datatype Spammer = Spammer(addr: Address, len: nat)

  /** The longest list comes out of the heap first. */
  function SpamKey(s: Spammer): int {
    0 - s.len
  }

  ghost function Spammers(m: Table, locals: set<Address>, slots: nat): set<Spammer> {
    set a | a in m && a !in locals && |m[a]| > slots :: Spammer(a, |m[a]|)
  }

  /** The accounts above the limit are the offenders taken so far and those left in the queue;
      the latter are not above the level. */
  ghost predicate Taken(m: Table, locals: set<Address>, slots: nat, offenders: seq<Address>, left: set<Spammer>,
                        level: nat) {
    && (forall i, j :: 0 <= i < j < |offenders| ==> offenders[i] != offenders[j])
    && (forall a :: a in offenders ==> a in m && a !in locals && |m[a]| > slots)
    && (forall a :: a in m && a !in locals && |m[a]| > slots ==> a in offenders || Spammer(a, |m[a]|) in left)
    && (forall s :: s in left ==>
        s.addr in m && s.addr !in locals && s.len == |m[s.addr]| > slots && s.addr !in offenders)
    && (forall s :: s in left ==> s.len <= level)
    && slots <= level
  }

  ghost predicate AtLeast(m: Table, who: seq<Address>, level: nat) {
    forall a :: a in who ==> a in m && |m[a]| >= level
  }

  lemma TotalLevel(m: Table, locals: set<Address>, level: nat)
    requires Total(m) <= level
    ensures Under(m, locals, level) && Level(m, locals, level) == m
  {
    forall a | a in m ensures |m[a]| <= level {
      ListWithinTotal(m, a);
    }
    LevelIsSame(m, locals, level);
  }

  lemma TakenNone(m: Table, locals: set<Address>, slots: nat, level: nat)
    requires slots <= level && Under(m, locals, level)
    ensures Taken(m, locals, slots, [], Spammers(m, locals, slots), level) && AtLeast(m, [], level)
  {
  }

  /** Taking the longest list left makes its length the next floor. */
  lemma TakenOne(m: Table, locals: set<Address>, slots: nat, offenders: seq<Address>, left: set<Spammer>, level: nat,
                 x: Spammer)
    requires Taken(m, locals, slots, offenders, left, level) && AtLeast(m, offenders, level)
    requires x in left && forall s :: s in left ==> SpamKey(x) <= SpamKey(s)
    ensures slots < x.len <= level && x.addr in m && x.addr !in locals && |m[x.addr]| == x.len
    ensures Tops(m, locals, offenders, level, x.len)
    ensures Taken(m, locals, slots, offenders + [x.addr], left - {x}, x.len)
    ensures AtLeast(m, offenders + [x.addr], x.len)
  {
    forall s | s in left ensures s.len <= x.len {
      assert SpamKey(x) <= SpamKey(s);
    }
  }

  lemma TakenHigher(m: Table, locals: set<Address>, slots: nat, offenders: seq<Address>, left: set<Spammer>, level: nat,
                    level': nat)
    requires Taken(m, locals, slots, offenders, left, level) && level <= level'
    ensures Taken(m, locals, slots, offenders, left, level')
  {
  }

  lemma TakenAll(m: Table, locals: set<Address>, slots: nat, offenders: seq<Address>, level: nat)
    requires Taken(m, locals, slots, offenders, {}, level) && AtLeast(m, offenders, level)
    ensures Tops(m, locals, offenders, level, slots) && slots <= level
    ensures offenders == [] ==> Under(m, locals, slots) && Level(m, locals, slots) == m
  {
    if offenders == [] {
      LevelIsSame(m, locals, slots);
    }
  }

  /** With a single offender nothing has to be cut: its length is a level no list exceeds. */
  lemma FirstOffender(m: Table, locals: set<Address>, slots: nat, left: set<Spammer>, level: nat, x: Spammer)
    requires Taken(m, locals, slots, [], left, level) && x in left && forall s :: s in left ==> SpamKey(x) <= SpamKey(s)
    ensures Level(m, locals, x.len) == m
  {
    forall a | a in m && a !in locals ensures |m[a]| <= x.len {
      if |m[a]| > slots {
        assert SpamKey(x) <= SpamKey(Spammer(a, |m[a]|));
      }
    }
    LevelIsSame(m, locals, x.len);
  }

  lemma ShortList(m: Table, locals: set<Address>, a: Address, level: nat)
    requires a in m && a !in locals && |m[a]| <= level
    ensures a in Level(m, locals, level) && |Level(m, locals, level)[a]| == |m[a]|
  {
  }

  /** Counts the transactions of all lists. */
  method Count(m: Table) returns (n: nat)
    ensures n == Total(m)
  {
    n := 0;
    var rest := m;
    while rest != map[]
      invariant n + Total(rest) == Total(m)
      decreases |rest|
    {
      var a :| a in rest;
      TotalSplits(rest, a);
      assert (rest - {a}).Keys == rest.Keys - {a};
      n := n + |rest[a]|;
      rest := rest - {a};
    }
  }

  /** Queues the remote accounts above the limit by the length of their lists. */
  method CollectSpammers(m: Table, locals: set<Address>, slots: nat) returns (spammers: seq<Spammer>)
    ensures Heap.IsHeap(spammers, SpamKey) && multiset(spammers) == multiset(Spammers(m, locals, slots))
  {
    hide Among;
    spammers := [];
    var todo := m.Keys;
    AmongNone(m, m.Keys - todo, locals, slots);
    while todo != {}
      invariant todo <= m.Keys && Heap.IsHeap(spammers, SpamKey)
      invariant multiset(spammers) == multiset(Among(m, m.Keys - todo, locals, slots))
    {
      var a :| a in todo;
      AmongMore(m, m.Keys - todo, locals, slots, a);
      assert m.Keys - (todo - {a}) == (m.Keys - todo) + {a};
      if a !in locals && |m[a]| > slots {
        spammers := Heap.Push(spammers, Spammer(a, |m[a]|), SpamKey);
      }
      todo := todo - {a};
    }
    assert m.Keys - todo == m.Keys;
    AmongAll(m, locals, slots);
  }

  /** The spammers among some accounts. */
  ghost function Among(m: Table, accounts: set<Address>, locals: set<Address>, slots: nat): set<Spammer> {
    set a | a in m && a in accounts && a !in locals && |m[a]| > slots :: Spammer(a, |m[a]|)
  }

  lemma AmongNone(m: Table, accounts: set<Address>, locals: set<Address>, slots: nat)
    requires accounts == {}
    ensures multiset(Among(m, accounts, locals, slots)) == multiset{}
  {
    assert Among(m, accounts, locals, slots) == {};
  }

  lemma AmongMore(m: Table, accounts: set<Address>, locals: set<Address>, slots: nat, a: Address)
    requires a in m && a !in accounts
    ensures multiset(Among(m, accounts + {a}, locals, slots)) ==
            multiset(Among(m, accounts, locals, slots)) +
                (if a !in locals && |m[a]| > slots then multiset{Spammer(a, |m[a]|)} else multiset{})
  {
    var x := Spammer(a, |m[a]|);
    if a !in locals && |m[a]| > slots {
      assert x !in Among(m, accounts, locals, slots);
      assert Among(m, accounts + {a}, locals, slots) == Among(m, accounts, locals, slots) + {x};
    } else {
      assert Among(m, accounts + {a}, locals, slots) == Among(m, accounts, locals, slots);
    }
  }

  lemma AmongAll(m: Table, locals: set<Address>, slots: nat)
    ensures Among(m, m.Keys, locals, slots) == Spammers(m, locals, slots)
  {
  }

  method PopSpammer(spammers: seq<Spammer>, ghost left: set<Spammer>) returns (x: Spammer, rest: seq<Spammer>)
    requires Heap.IsHeap(spammers, SpamKey) && multiset(spammers) == multiset(left) && spammers != []
    ensures x in left && forall s :: s in left ==> SpamKey(x) <= SpamKey(s)
    ensures Heap.IsHeap(rest, SpamKey) && multiset(rest) == multiset(left - {x}) && |rest| < |spammers|
  {
    x, rest := Heap.Pop(spammers, SpamKey);
    assert x in multiset(spammers);
    forall s | s in left ensures SpamKey(x) <= SpamKey(s) {
      assert s in multiset(spammers);
      assert s in spammers;
    }
    assert multiset(rest) == multiset(spammers) - multiset{x};
    assert |multiset(spammers)| == |multiset(rest)| + 1;
  }

  lemma NoSpammerLeft(spammers: seq<Spammer>, left: set<Spammer>)
    requires multiset(spammers) == multiset(left) && spammers == []
    ensures left == {}
  {
    assert forall s :: s in left ==> s in multiset(left);
  }

  lemma LowestByOne(m: Items, k: nat)
    requires k < |m|
    ensures Lowest(m, k + 1) != map[] && Lowest(m, k) == Lowest(m, k + 1) - {Greatest(Lowest(m, k + 1))}
    ensures |Lowest(m, k + 1)| == k + 1
  {
    hide Lowest;
    LowestIsPart(m, k + 1);
    LowestTwice(m, k);
    LowestOfAllButOne(Lowest(m, k + 1));
  }

  /** The first k of an ascending listing are the k lowest. */
  lemma {:induction false} PrefixIsLowest(txs: seq<Tx>, m: Items, k: nat)
    requires Keyed(m) && Lists(txs, m) && k <= |txs|
    ensures |m| == |txs| && Lists(txs[..k], Lowest(m, k)) && Keyed(Lowest(m, k))
    decreases |txs| - k
  {
    hide Lowest, Greatest, Lists;
    LowestIsPart(m, k);
    if k == |txs| {
      ListingLength(txs, m);
      ShortStays(m, k);
      assert txs[..k] == txs;
    } else {
      PrefixIsLowest(txs, m, k + 1);
      LowestByOne(m, k);
      LastListed(txs[..k + 1], Lowest(m, k + 1));
      assert txs[..k + 1][..k] == txs[..k];
    }
  }

  lemma {:induction false} ListingLength(txs: seq<Tx>, m: Items)
    requires Keyed(m) && Lists(txs, m)
    ensures |txs| == |m|
    decreases |txs|
  {
    NoElems(txs);
    NoValues(m);
    if txs != [] {
      LastListed(txs, m);
      assert (m - {Greatest(m)}).Keys == m.Keys - {Greatest(m)};
      ListingLength(txs[..|txs| - 1], m - {Greatest(m)});
    }
  }

  /** An ascending listing ends with the greatest nonce. */
  lemma LastListed(txs: seq<Tx>, m: Items)
    requires Keyed(m) && Lists(txs, m) && txs != []
    ensures m != map[] && Holds(m, txs[|txs| - 1]) && txs[|txs| - 1].nonce == Greatest(m)
    ensures Lists(txs[..|txs| - 1], m - {Greatest(m)})
  {
    var last := txs[|txs| - 1];
    KeyedValues(m);
    assert last in Elems(txs);
    assert m[Greatest(m)] in Elems(txs);
    KeyedValues(m - {last.nonce});
    InitElems(txs);
  }

  lemma InitElems(txs: seq<Tx>)
    requires txs != [] && Distinct(txs)
    ensures Elems(txs[..|txs| - 1]) == Elems(txs) - {txs[|txs| - 1]}
  {
    var last := txs[|txs| - 1];
    forall t ensures t in Elems(txs[..|txs| - 1]) <==> t in Elems(txs) && t != last {
      assert txs == txs[..|txs| - 1] + [last];
    }
  }

  lemma HeadListed(txs: seq<Tx>, m: Items)
    requires Keyed(m) && Lists(txs, m) && txs != []
    ensures Holds(m, txs[0]) && Lists(txs[1..], m - {txs[0].nonce}) && Keyed(m - {txs[0].nonce})
  {
    KeyedValues(m);
    KeyedValues(m - {txs[0].nonce});
    assert txs[0] in Elems(txs);
    TailElems(txs);
  }

  /** The last of the first i + 1 listed transactions is the one to go next from the top. */
  lemma TopQueued(q: Table, a: Address, m: Items, txs: seq<Tx>, i: nat)
    requires Filed(m, a) && Lists(txs, m) && i < |txs| && i > 0
    ensures var list := Lowest(m, i + 1);
            && txs[i].from == a && Holds(list, txs[i]) && Get(q[a := list], a) == list
            && Store(q[a := list], a, list - {txs[i].nonce}) == q[a := Lowest(m, i)]
  {
    PrefixIsLowest(txs, m, i + 1);
    LowestIsPart(m, i + 1);
    LastListed(txs[..i + 1], Lowest(m, i + 1));
    LowestByOne(m, i);
    LowestIsPart(m, i);
  }

  lemma QueuedFacts(p: Table, q: Table, all: set<Tx>, a: Address)
    requires Agree(p, q, all) && a in q
    ensures Filed(q[a], a) && Keyed(q[a]) && Lowest(q[a], |q[a]|) == q[a] && q[a := q[a]] == q
  {
    assert AgreeAt(Get(p, a), Get(q, a), all, a);
  }

  /** An account of the queue with the time its last transaction was promoted. */
  datatype Heartbeat = Heartbeat(addr: Address, at: int)

  function BeatKey(h: Heartbeat): int {
    h.at
  }

  function BeatOf(beats: map<Address, int>, a: Address): int {
    if a in beats then beats[a] else 0
  }

  ghost function Heartbeats(m: Table, locals: set<Address>, beats: map<Address, int>): set<Heartbeat> {
    set a | a in m && a !in locals :: Heartbeat(a, BeatOf(beats, a))
  }

  /** The remote accounts of a table, each once, by ascending heartbeat. */
  ghost predicate ByHeartbeat(s: seq<Heartbeat>, m: Table, locals: set<Address>, beats: map<Address, int>) {
    && (forall i, j :: 0 <= i < j < |s| ==> s[i].at <= s[j].at && s[i].addr != s[j].addr)
    && (forall i :: 0 <= i < |s| ==> s[i].addr in m && s[i].addr !in locals && s[i].at == BeatOf(beats, s[i].addr))
    && (forall a :: a in m && a !in locals ==> Heartbeat(a, BeatOf(beats, a)) in s)
  }

  method SortByHeartbeat(m: Table, locals: set<Address>, beats: map<Address, int>) returns (s: seq<Heartbeat>)
    ensures ByHeartbeat(s, m, locals, beats)
  {
    var list := [];
    var todo := m.Keys;
    ghost var seen: set<Heartbeat> := {};
    while todo != {}
      invariant todo <= m.Keys && multiset(list) == multiset(seen)
      invariant seen == set a | a in m && a !in todo && a !in locals :: Heartbeat(a, BeatOf(beats, a))
    {
      var a :| a in todo;
      if a !in locals {
        assert Heartbeat(a, BeatOf(beats, a)) !in seen;
        list := list + [Heartbeat(a, BeatOf(beats, a))];
        seen := seen + {Heartbeat(a, BeatOf(beats, a))};
      }
      todo := todo - {a};
    }
    s := Heap.Sort(list, BeatKey);
    assert seen == Heartbeats(m, locals, beats);
    SortedHeartbeats(s, m, locals, beats);
  }

  lemma SortedHeartbeats(s: seq<Heartbeat>, m: Table, locals: set<Address>, beats: map<Address, int>)
    requires multiset(s) == multiset(Heartbeats(m, locals, beats))
    requires forall i, j :: 0 <= i < j < |s| ==> BeatKey(s[i]) <= BeatKey(s[j])
    ensures ByHeartbeat(s, m, locals, beats)
  {
    forall h ensures h in s <==> h in Heartbeats(m, locals, beats) {
      assert h in s <==> h in multiset(s);
    }
    forall i | 0 <= i < |s| ensures s[i].addr in m && s[i].addr !in locals && s[i].at == BeatOf(beats, s[i].addr) {
      assert s[i] in s;
    }
    forall i, j | 0 <= i < j < |s| ensures s[i].at <= s[j].at && s[i].addr != s[j].addr {
      assert BeatKey(s[i]) <= BeatKey(s[j]);
      Twice(s, i, j);
      assert s[i] != s[j];
    }
  }

  /** The accounts above position k are out of the queue, those below it are untouched, and the
      one at k has lost its highest nonces. */
  ghost predicate Cutting(q: Table, q': Table, s: seq<Heartbeat>, k: nat, locals: set<Address>) {
    && q'.Keys <= q.Keys
    && (forall a :: a in q && a in locals ==> a in q' && q'[a] == q[a])
    && (forall i :: 0 <= i < k && i < |s| ==> s[i].addr in q && s[i].addr in q' && q'[s[i].addr] == q[s[i].addr])
    && (forall i :: k < i < |s| ==> s[i].addr !in q')
    && (k < |s| && s[k].addr in q' ==> s[k].addr in q && q'[s[k].addr] == Lowest(q[s[k].addr], |q'[s[k].addr]|))
  }

  lemma OtherAccounts(s: seq<Heartbeat>, q: Table, locals: set<Address>, beats: map<Address, int>, k: nat)
    requires ByHeartbeat(s, q, locals, beats) && k < |s|
    ensures s[k].addr in q && s[k].addr !in locals && forall i :: 0 <= i < |s| && i != k ==> s[i].addr != s[k].addr
  {
    hide BeatOf;
  }

  lemma CutWhole(q: Table, q': Table, s: seq<Heartbeat>, k: nat, locals: set<Address>, beats: map<Address, int>)
    requires ByHeartbeat(s, q, locals, beats) && 0 < k <= |s| && Cutting(q, q', s, k, locals)
    requires k < |s| ==> s[k].addr !in q'
    ensures var a := s[k - 1].addr;
            && a in q' && Cutting(q, q' - {a}, s, k - 1, locals) && Total(q' - {a}) == Total(q') - |q'[a]|
  {
    hide Lowest, Total, ByHeartbeat;
    OtherAccounts(s, q, locals, beats, k - 1);
    TotalSplits(q', s[k - 1].addr);
  }

  lemma CutPart(q: Table, q': Table, s: seq<Heartbeat>, k: nat, locals: set<Address>, beats: map<Address, int>,
                drop: nat)
    requires ByHeartbeat(s, q, locals, beats) && 0 < k <= |s| && Cutting(q, q', s, k, locals)
    requires k < |s| ==> s[k].addr !in q'
    requires s[k - 1].addr in q' && drop < |q'[s[k - 1].addr]|
    ensures var a := s[k - 1].addr;
            var list := Lowest(q'[a], |q'[a]| - drop);
            Cutting(q, q'[a := list], s, k - 1, locals) && Total(q'[a := list]) == Total(q') - drop
  {
    hide Lowest, Total, ByHeartbeat;
    var a := s[k - 1].addr;
    OtherAccounts(s, q, locals, beats, k - 1);
    LowestIsPart(q'[a], |q'[a]| - drop);
    TotalUpdates(q', a, Lowest(q'[a], |q'[a]| - drop));
  }

  /** The outcome of truncating the queue: the limit is met exactly, or only local accounts are
      left; lists lose their highest nonces, local lists nothing; and no account lost anything
      while another remote one with a later heartbeat kept something. */
  ghost predicate QueueTruncated(q: Table, q': Table, locals: set<Address>, beats: map<Address, int>, limit: nat) {
    && (Total(q) <= limit ==> q' == q)
    && (Total(q) > limit ==> Total(q') >= limit && (Total(q') == limit || forall a :: a in q' ==> a in locals))
    && (forall a :: a in q' ==> a in q && q'[a] == Lowest(q[a], |q'[a]|))
    && (forall a :: a in q && a in locals ==> a in q' && q'[a] == q[a])
    && (forall a, b :: a in q && a !in locals && Get(q', a) != q[a] && b in q' && b !in locals && b != a
                       ==> BeatOf(beats, b) <= BeatOf(beats, a))
  }

  lemma CutDone(q: Table, q': Table, s: seq<Heartbeat>, k: nat, locals: set<Address>, beats: map<Address, int>,
                limit: nat)
    requires ByHeartbeat(s, q, locals, beats) && Cutting(q, q', s, k, locals) && k <= |s|
    requires Total(q) > limit && Total(q') >= limit
    requires Total(q') == limit || (k == 0 && (0 < |s| ==> s[0].addr !in q'))
    ensures QueueTruncated(q, q', locals, beats, limit)
  {
    hide Lowest, Total, ByHeartbeat;
    forall a | a in q' ensures q'[a] == Lowest(q[a], |q'[a]|) {
      CutAt(q, q', s, k, locals, beats, a);
    }
    if Total(q') != limit {
      forall a | a in q' ensures a in locals {
        CutAt(q, q', s, k, locals, beats, a);
      }
    }
    CutOrder(q, q', s, k, locals, beats);
  }

  lemma CutAt(q: Table, q': Table, s: seq<Heartbeat>, k: nat, locals: set<Address>, beats: map<Address, int>,
              a: Address)
    requires ByHeartbeat(s, q, locals, beats) && Cutting(q, q', s, k, locals) && a in q'
    ensures q'[a] == Lowest(q[a], |q'[a]|)
    ensures a !in locals && (k < |s| ==> s[k].addr !in q') ==> k > 0
  {
    hide Lowest, ByHeartbeat, BeatOf;
    UncutIsLowest(q[a]);
    if a !in locals {
      var i := Position(s, q, locals, beats, a);
    }
  }

  lemma CutOrder(q: Table, q': Table, s: seq<Heartbeat>, k: nat, locals: set<Address>, beats: map<Address, int>)
    requires ByHeartbeat(s, q, locals, beats) && Cutting(q, q', s, k, locals)
    ensures forall a, b :: a in q && a !in locals && Get(q', a) != q[a] && b in q' && b !in locals && b != a
                           ==> BeatOf(beats, b) <= BeatOf(beats, a)
  {
    hide Lowest, BeatOf;
    forall a, b | a in q && a !in locals && Get(q', a) != q[a] && b in q' && b !in locals && b != a
      ensures BeatOf(beats, b) <= BeatOf(beats, a)
    {
      var i, j := Position(s, q, locals, beats, a), Position(s, q, locals, beats, b);
      assert k <= i && j <= k && i != j;
    }
  }

  ghost function Position(s: seq<Heartbeat>, m: Table, locals: set<Address>, beats: map<Address, int>,
                          a: Address): (i: nat)
    requires ByHeartbeat(s, m, locals, beats) && a in m && a !in locals
    ensures i < |s| && s[i].addr == a && s[i].at == BeatOf(beats, a)
  {
    var i :| 0 <= i < |s| && s[i] == Heartbeat(a, BeatOf(beats, a));
    i
  }

  lemma UncutIsLowest(list: Items)
    ensures list == Lowest(list, |list|)
  {
  }

  lemma NothingTruncated(q: Table, locals: set<Address>, beats: map<Address, int>, limit: nat)
    ensures Total(q) <= limit ==> QueueTruncated(q, q, locals, beats, limit)
  {
    forall a | a in q ensures q[a] == Lowest(q[a], |q[a]|) {
      UncutIsLowest(q[a]);
    }
  }

  lemma CutNothing(q: Table, s: seq<Heartbeat>, locals: set<Address>, beats: map<Address, int>)
    requires ByHeartbeat(s, q, locals, beats)
    ensures Cutting(q, q, s, |s|, locals)
  {
  }
}
