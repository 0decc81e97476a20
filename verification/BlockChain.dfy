/** Blocks and the transactions in them, seen from the end of a chain. */
module Chains {
  import opened Ancestry

  type TxHash = nat

  /** Where a transaction is found. */
  datatype Entry = Entry(block: Hash, number: nat, index: nat)

  type Index = map<TxHash, Entry>

  type Bodies = map<Hash, seq<TxHash>>

  /** The entries of one block. */
  function EntriesOf(hash: Hash, number: nat, txs: seq<TxHash>): Index {
    if txs == [] then map[]
    else EntriesOf(hash, number, txs[..|txs| - 1])[txs[|txs| - 1] := Entry(hash, number, |txs| - 1)]
  }

  lemma {:induction false} EntryKeys(hash: Hash, number: nat, txs: seq<TxHash>, t: TxHash)
    ensures t in EntriesOf(hash, number, txs) <==> t in txs
    decreases |txs|
  {
    if txs != [] {
      EntryKeys(hash, number, txs[..|txs| - 1], t);
      assert txs == txs[..|txs| - 1] + [txs[|txs| - 1]];
    }
  }

  ghost predicate Stored(store: Store, bodies: Bodies, genesis: Hash) {
    Rooted(store, genesis) && bodies.Keys == store.Keys
  }

  function BlockEntries(store: Store, bodies: Bodies, h: Hash): Index
    requires h in store && h in bodies
  {
    EntriesOf(h, store[h].number, bodies[h])
  }

  /** A full scan of the chain that ends with a block. */
  function Scan(store: Store, bodies: Bodies, genesis: Hash, h: Hash): Index
    requires Stored(store, bodies, genesis) && h in store
    decreases store[h].number
  {
    (if h == genesis then map[] else assert Linked(store, genesis, h); Scan(store, bodies, genesis, store[h].parent))
    + BlockEntries(store, bodies, h)
  }

  /** The blocks from h down to the number above n, newest first. */
  ghost function Down(store: Store, genesis: Hash, h: Hash, n: nat): seq<Hash>
    requires Rooted(store, genesis) && h in store && n <= store[h].number
    decreases store[h].number
  {
    if store[h].number == n then []
    else assert Linked(store, genesis, h); [h] + Down(store, genesis, store[h].parent, n)
  }

  lemma {:induction false} DownAt(store: Store, genesis: Hash, h: Hash, n: nat)
    requires Rooted(store, genesis) && h in store && n <= store[h].number
    ensures |Down(store, genesis, h, n)| == store[h].number - n
    ensures forall i :: 0 <= i < store[h].number - n ==>
              Down(store, genesis, h, n)[i] == AncestorAt(store, genesis, h, store[h].number - i)
    ensures n < store[h].number ==> Down(store, genesis, h, n)[0] == h
    decreases store[h].number
  {
    if store[h].number != n {
      assert Linked(store, genesis, h);
      DownAt(store, genesis, store[h].parent, n);
    }
  }

  lemma {:induction false} DownOneMore(store: Store, genesis: Hash, h: Hash, n: nat)
    requires Rooted(store, genesis) && h in store && 0 < n <= store[h].number
    ensures Down(store, genesis, h, n - 1) == Down(store, genesis, h, n) + [AncestorAt(store, genesis, h, n)]
    decreases store[h].number
  {
    assert Linked(store, genesis, h);
    if store[h].number != n {
      DownOneMore(store, genesis, store[h].parent, n);
    } else {
      assert Down(store, genesis, store[h].parent, n - 1) == [];
    }
  }

  ghost predicate AllStored(store: Store, bodies: Bodies, chain: seq<Hash>) {
    forall i :: 0 <= i < |chain| ==> chain[i] in store && chain[i] in bodies
  }

  /** The entries of some blocks, newest first. */
  ghost function Added(store: Store, bodies: Bodies, chain: seq<Hash>): Index
    requires AllStored(store, bodies, chain)
  {
    if chain == [] then map[] else Added(store, bodies, chain[1..]) + BlockEntries(store, bodies, chain[0])
  }

  ghost predicate InChain(bodies: Bodies, chain: seq<Hash>, t: TxHash) {
    exists i :: 0 <= i < |chain| && chain[i] in bodies && t in bodies[chain[i]]
  }

  lemma {:induction false} AddedKeys(store: Store, bodies: Bodies, chain: seq<Hash>, t: TxHash)
    requires AllStored(store, bodies, chain)
    ensures t in Added(store, bodies, chain) <==> InChain(bodies, chain, t)
    decreases |chain|
  {
    if chain != [] {
      AddedKeys(store, bodies, chain[1..], t);
      EntryKeys(chain[0], store[chain[0]].number, bodies[chain[0]], t);
      InChainMore(bodies, chain);
    }
  }

  lemma InChainMore(bodies: Bodies, chain: seq<Hash>)
    requires chain != [] && chain[0] in bodies
    ensures forall t :: InChain(bodies, chain, t) <==> t in bodies[chain[0]] || InChain(bodies, chain[1..], t)
  {
    forall t ensures InChain(bodies, chain, t) <==> t in bodies[chain[0]] || InChain(bodies, chain[1..], t) {
      if i :| 0 <= i < |chain[1..]| && chain[1..][i] in bodies && t in bodies[chain[1..][i]] {
        assert chain[i + 1] == chain[1..][i];
      }
      if i :| 0 < i < |chain| && chain[i] in bodies && t in bodies[chain[i]] { assert chain[1..][i - 1] == chain[i]; }
    }
  }

  /** A scan is a scan of the lower part and the entries of the rest. */
  lemma {:induction false} ScanSplits(store: Store, bodies: Bodies, genesis: Hash, h: Hash, n: nat)
    requires Stored(store, bodies, genesis) && h in store && n <= store[h].number
    ensures AllStored(store, bodies, Down(store, genesis, h, n))
    ensures Scan(store, bodies, genesis, h) ==
            Scan(store, bodies, genesis, AncestorAt(store, genesis, h, n)) +
                Added(store, bodies, Down(store, genesis, h, n))
    decreases store[h].number
  {
    hide BlockEntries;
    if store[h].number != n {
      assert Linked(store, genesis, h);
      var p := store[h].parent;
      ScanSplits(store, bodies, genesis, p, n);
      assert Down(store, genesis, h, n)[1..] == Down(store, genesis, p, n);
      UnionsAssociate(Scan(store, bodies, genesis, AncestorAt(store, genesis, h, n)),
                      Added(store, bodies, Down(store, genesis, p, n)), BlockEntries(store, bodies, h));
    }
  }

  lemma UnionsAssociate(a: Index, b: Index, c: Index)
    ensures a + b + c == a + (b + c)
  {
  }

  lemma DownIsStored(store: Store, bodies: Bodies, genesis: Hash, a: Hash, b: Hash, c: nat)
    requires Stored(store, bodies, genesis) && a in store && b in store && c <= store[a].number && c <= store[b].number
    requires a == b ==> forall n :: c < n <= store[a].number ==>
               AncestorAt(store, genesis, a, n) != AncestorAt(store, genesis, b, n)
    ensures AllStored(store, bodies, Down(store, genesis, b, c))
    ensures Down(store, genesis, b, c) == [] <==> c == store[b].number
    ensures a == b ==> c == store[b].number
  {
    ScanSplits(store, bodies, genesis, b, c);
    DownAt(store, genesis, b, c);
    var _ := AncestorAt(store, genesis, a, store[a].number);
  }

  lemma AddedNone(store: Store, bodies: Bodies, chain: seq<Hash>)
    requires chain == []
    ensures AllStored(store, bodies, chain) && Added(store, bodies, chain) == map[]
            && forall t :: !InChain(bodies, chain, t)
  {
  }

  lemma AddedOne(store: Store, bodies: Bodies, chain: seq<Hash>, i: nat, index: Index)
    requires i < |chain| && AllStored(store, bodies, chain)
    ensures AllStored(store, bodies, chain[i..]) && AllStored(store, bodies, chain[i + 1..])
    ensures index + Added(store, bodies, chain[i..]) ==
            index + Added(store, bodies, chain[i + 1..]) + EntriesOf(chain[i], store[chain[i]].number, bodies[chain[i]])
    ensures forall t :: InChain(bodies, chain[i..], t) <==> t in bodies[chain[i]] || InChain(bodies, chain[i + 1..], t)
  {
    assert chain[i..][1..] == chain[i + 1..] && chain[i..][0] == chain[i];
    InChainMore(bodies, chain[i..]);
  }

  /** The canonical map has the path of a block above lo up to hi and is otherwise as before. */
  ghost predicate Grafted(store: Store, genesis: Hash, was: map<nat, Hash>, canon: map<nat, Hash>, top: Hash, lo: nat,
                          hi: nat)
    requires Rooted(store, genesis) && top in store && hi <= store[top].number
  {
    && (forall n :: n in canon <==> n in was || lo < n <= hi)
    && (forall n :: n in canon ==> canon[n] == if lo < n <= hi then AncestorAt(store, genesis, top, n) else was[n])
  }

  lemma GraftNone(store: Store, genesis: Hash, was: map<nat, Hash>, top: Hash, lo: nat)
    requires Rooted(store, genesis) && top in store && lo <= store[top].number
    ensures Grafted(store, genesis, was, was, top, lo, lo)
  {
  }

  lemma GraftOne(store: Store, genesis: Hash, was: map<nat, Hash>, canon: map<nat, Hash>, top: Hash, lo: nat, hi: nat)
    requires Rooted(store, genesis) && top in store && lo < hi <= store[top].number
    requires Grafted(store, genesis, was, canon, top, lo, hi - 1)
    ensures Grafted(store, genesis, was, canon[hi := AncestorAt(store, genesis, top, hi)], top, lo, hi)
    ensures hi in canon <==> hi in was
    ensures hi in canon ==> canon[hi] == was[hi]
  {
  }

  /** No transaction repeats in the chain that ends with a block. */
  ghost predicate Once(store: Store, bodies: Bodies, genesis: Hash, h: Hash)
    requires Stored(store, bodies, genesis)
  {
    h in store && h != genesis ==>
      assert Linked(store, genesis, h); forall t :: t in bodies[h] ==>
               t !in Scan(store, bodies, genesis, store[h].parent)
  }

  ghost predicate NoRepeats(store: Store, bodies: Bodies, genesis: Hash)
    requires Stored(store, bodies, genesis)
  {
    forall h {:trigger Once(store, bodies, genesis, h)} :: Once(store, bodies, genesis, h)
  }

  /** So what is in the upper part of a chain is not in the lower part. */
  lemma {:induction false} UpperIsNew(store: Store, bodies: Bodies, genesis: Hash, h: Hash, n: nat, t: TxHash)
    requires Stored(store, bodies, genesis) && NoRepeats(store, bodies, genesis) && h in store && n <= store[h].number
    requires InChain(bodies, Down(store, genesis, h, n), t)
    ensures t !in Scan(store, bodies, genesis, AncestorAt(store, genesis, h, n))
    decreases store[h].number
  {
    if store[h].number != n {
      assert Linked(store, genesis, h) && Once(store, bodies, genesis, h);
      var p := store[h].parent;
      var chain := Down(store, genesis, h, n);
      assert chain[1..] == Down(store, genesis, p, n);
      InChainMore(bodies, chain);
      if InChain(bodies, chain[1..], t) {
        UpperIsNew(store, bodies, genesis, p, n, t);
      } else {
        ScanSplits(store, bodies, genesis, p, n);
      }
    }
  }

  /** Blocks stored later change no scan of earlier ones. */
  lemma {:induction false} ScanKeeps(store: Store, bodies: Bodies, store': Store, bodies': Bodies, genesis: Hash,
                                     h: Hash)
    requires Stored(store, bodies, genesis) && Stored(store', bodies', genesis) && h in store
    requires forall k :: k in store ==> k in store' && store'[k] == store[k] && bodies'[k] == bodies[k]
    ensures Scan(store', bodies', genesis, h) == Scan(store, bodies, genesis, h)
    decreases store[h].number
  {
    if h != genesis {
      assert Linked(store, genesis, h);
      ScanKeeps(store, bodies, store', bodies', genesis, store[h].parent);
    }
  }

  /** With A scanned below the fork, O the entries that go and N the entries that come, adding N
      and then deleting what is only in O leaves A and N. */
  lemma SwapBranch(a: Index, o: Index, n: Index)
    requires a.Keys !! o.Keys
    ensures (a + o + n) - (o.Keys - n.Keys) == a + n
  {
  }

  /** The scan finds every transaction of the chain, at a place where it really is. */
  lemma {:induction false} ScanFinds(store: Store, bodies: Bodies, genesis: Hash, h: Hash, n: nat, i: nat)
    requires Stored(store, bodies, genesis) && NoRepeats(store, bodies, genesis) && h in store && n <= store[h].number
    requires var b := AncestorAt(store, genesis, h, n); i < |bodies[b]| && forall j :: i < j < |bodies[b]| ==>
               bodies[b][j] != bodies[b][i]
    ensures var b := AncestorAt(store, genesis, h, n);
            bodies[b][i] in Scan(store, bodies, genesis, h)
              && Scan(store, bodies, genesis, h)[bodies[b][i]] == Entry(b, n, i)
    decreases store[h].number
  {
    var b := AncestorAt(store, genesis, h, n);
    var t := bodies[b][i];
    assert Linked(store, genesis, h);
    if store[h].number == n {
      LastEntry(h, n, bodies[h], i);
    } else {
      ScanFinds(store, bodies, genesis, store[h].parent, n, i);
      assert Once(store, bodies, genesis, h);
      EntryKeys(h, store[h].number, bodies[h], t);
    }
  }

  lemma {:induction false} LastEntry(hash: Hash, number: nat, txs: seq<TxHash>, i: nat)
    requires i < |txs| && forall j :: i < j < |txs| ==> txs[j] != txs[i]
    ensures txs[i] in EntriesOf(hash, number, txs) && EntriesOf(hash, number, txs)[txs[i]] == Entry(hash, number, i)
    decreases |txs|
  {
    if i < |txs| - 1 {
      LastEntry(hash, number, txs[..|txs| - 1], i);
    }
  }

  /** Every entry of the scan names a place on the chain that holds the transaction. */
  lemma {:induction false} ScanIsRight(store: Store, bodies: Bodies, genesis: Hash, h: Hash, t: TxHash)
    requires Stored(store, bodies, genesis) && h in store && t in Scan(store, bodies, genesis, h)
    ensures var e := Scan(store, bodies, genesis, h)[t];
            && e.number <= store[h].number && e.block == AncestorAt(store, genesis, h, e.number)
            && e.index < |bodies[e.block]| && bodies[e.block][e.index] == t
    decreases store[h].number
  {
    assert Linked(store, genesis, h);
    if t in BlockEntries(store, bodies, h) {
      EntryIsRight(h, store[h].number, bodies[h], t);
    } else {
      ScanIsRight(store, bodies, genesis, store[h].parent, t);
    }
  }

  lemma {:induction false} EntryIsRight(hash: Hash, number: nat, txs: seq<TxHash>, t: TxHash)
    requires t in EntriesOf(hash, number, txs)
    ensures var e := EntriesOf(hash, number, txs)[t];
            e.block == hash && e.number == number && e.index < |txs| && txs[e.index] == t
    decreases |txs|
  {
    if t != txs[|txs| - 1] {
      EntryIsRight(hash, number, txs[..|txs| - 1], t);
    }
  }

  function Elements(txs: seq<TxHash>): set<TxHash> {
    set t | t in txs
  }

  /** The transactions of `a` that are not in `b`, in their order. */
  function Without(a: seq<TxHash>, b: set<TxHash>): seq<TxHash> {
    if a == [] then []
    else Without(a[..|a| - 1], b) + if a[|a| - 1] in b then [] else [a[|a| - 1]]
  }

  lemma {:induction false} WithoutHolds(a: seq<TxHash>, b: set<TxHash>, t: TxHash)
    ensures t in Without(a, b) <==> t in a && t !in b
    decreases |a|
  {
    if a != [] {
      WithoutHolds(a[..|a| - 1], b, t);
      assert a == a[..|a| - 1] + [a[|a| - 1]];
    }
  }

  /** What is left keeps its order. */
  lemma {:induction false} WithoutParts(a1: seq<TxHash>, a2: seq<TxHash>, b: set<TxHash>, t: TxHash)
    ensures Without(a1 + a2, b) == Without(a1, b) + Without(a2, b)
    ensures Without([t], b) == if t in b then [] else [t]
    decreases |a2|
  {
    assert [t][..0] == [];
    if a2 == [] {
      assert a1 + a2 == a1;
    } else {
      WithoutParts(a1, a2[..|a2| - 1], b, t);
      assert (a1 + a2)[..|a1 + a2| - 1] == a1 + a2[..|a2| - 1];
    }
  }

  method TxDifference(a: seq<TxHash>, b: seq<TxHash>) returns (keep: seq<TxHash>)
    ensures keep == Without(a, Elements(b))
  {
    var remove: set<TxHash> := {};
    for i := 0 to |b|
      invariant remove == Elements(b[..i])
    {
      assert b[..i + 1] == b[..i] + [b[i]];
      remove := remove + {b[i]};
    }
    assert b[..|b|] == b;
    keep := [];
    for i := 0 to |a|
      invariant keep == Without(a[..i], remove)
    {
      assert a[..i + 1][..i] == a[..i];
      if a[i] !in remove {
        keep := keep + [a[i]];
      }
    }
    assert a[..|a|] == a;
  }

  /** The transactions of some blocks one after the other. */
  ghost function TxsOf(bodies: Bodies, chain: seq<Hash>): seq<TxHash>
    requires forall i :: 0 <= i < |chain| ==> chain[i] in bodies
  {
    if chain == [] then [] else TxsOf(bodies, chain[..|chain| - 1]) + bodies[chain[|chain| - 1]]
  }

  lemma {:induction false} TxsOfParts(bodies: Bodies, a: seq<Hash>, b: seq<Hash>)
    requires forall i :: 0 <= i < |a| ==> a[i] in bodies
    requires forall i :: 0 <= i < |b| ==> b[i] in bodies
    ensures TxsOf(bodies, a + b) == TxsOf(bodies, a) + TxsOf(bodies, b)
    ensures |b| == 1 ==> TxsOf(bodies, b) == bodies[b[0]]
    decreases |b|
  {
    if b == [] {
      assert a + b == a;
    } else {
      TxsOfParts(bodies, a, b[..|b| - 1]);
      assert (a + b)[..|a + b| - 1] == a + b[..|b| - 1];
    }
  }

  lemma {:induction false} TxsOfHolds(bodies: Bodies, chain: seq<Hash>, t: TxHash)
    requires forall i :: 0 <= i < |chain| ==> chain[i] in bodies
    ensures t in TxsOf(bodies, chain) <==> InChain(bodies, chain, t)
    decreases |chain|
  {
    if chain != [] {
      var n := |chain| - 1;
      TxsOfHolds(bodies, chain[..n], t);
      assert InChain(bodies, chain[..n], t) ==> InChain(bodies, chain, t) by {
        if i :| 0 <= i < n && t in bodies[chain[..n][i]] { assert chain[i] == chain[..n][i]; }
      }
      assert InChain(bodies, chain, t) ==> t in bodies[chain[n]] || InChain(bodies, chain[..n], t) by {
        if i :| 0 <= i < n && t in bodies[chain[i]] { assert chain[..n][i] == chain[i]; }
      }
    }
  }

  /** Grafting the path of another block onto a path at a common ancestor gives its whole path. */
  lemma GraftIsPath(store: Store, genesis: Hash, was: map<nat, Hash>, canon: map<nat, Hash>, a: Hash, b: Hash, c: nat)
    requires Rooted(store, genesis) && a in store && b in store && c <= store[a].number && c <= store[b].number
    requires IsPath(store, genesis, was, a, store[a].number)
    requires Places(store, was)
    requires AncestorAt(store, genesis, a, c) == AncestorAt(store, genesis, b, c)
    requires Grafted(store, genesis, was, canon, b, c, store[b].number)
    ensures IsPath(store, genesis, canon, b, store[b].number)
    ensures Places(store, canon)
    ensures c == store[b].number ==> c in was && was[c] == b
  {
    forall n | 0 <= n <= store[b].number ensures n in canon && canon[n] == AncestorAt(store, genesis, b, n) {
      if n <= c {
        PathsMeet(store, genesis, a, b, c, n);
      }
    }
  }

  /** The lookup index follows the reorganisation. */
  lemma SwapIndex(store: Store, bodies: Bodies, genesis: Hash, a: Hash, b: Hash, c: nat, deleted: seq<TxHash>,
                  added: seq<TxHash>)
    requires Stored(store, bodies, genesis) && NoRepeats(store, bodies, genesis)
    requires a in store && b in store && c <= store[a].number && c <= store[b].number
    requires AncestorAt(store, genesis, a, c) == AncestorAt(store, genesis, b, c)
    requires forall t :: t in deleted <==> InChain(bodies, Down(store, genesis, a, c), t)
    requires forall t :: t in added <==> InChain(bodies, Down(store, genesis, b, c), t)
    ensures AllStored(store, bodies, Down(store, genesis, b, c))
    ensures Scan(store, bodies, genesis, a) +
              Added(store, bodies, Down(store, genesis, b, c)) - Elements(Without(deleted, Elements(added)))
            == Scan(store, bodies, genesis, b)
  {
    hide Rooted, Scan, Added, Down, Without, InChain, NoRepeats, AncestorAt;
    ScanSplits(store, bodies, genesis, a, c);
    ScanSplits(store, bodies, genesis, b, c);
    var below := Scan(store, bodies, genesis, AncestorAt(store, genesis, a, c));
    var o := Added(store, bodies, Down(store, genesis, a, c));
    var n := Added(store, bodies, Down(store, genesis, b, c));
    forall t ensures t in o <==> t in deleted {
      AddedKeys(store, bodies, Down(store, genesis, a, c), t);
    }
    forall t ensures t in n <==> t in added {
      AddedKeys(store, bodies, Down(store, genesis, b, c), t);
    }
    forall t | t in o ensures t !in below {
      UpperIsNew(store, bodies, genesis, a, c, t);
    }
    forall t ensures t in Without(deleted, Elements(added)) <==> t in o.Keys - n.Keys {
      WithoutHolds(deleted, Elements(added), t);
    }
    assert Elements(Without(deleted, Elements(added))) == o.Keys - n.Keys;
    SwapBranch(below, o, n);
  }

  /** Every total difficulty is the sum back to the genesis. */
  ghost predicate Sums(store: Store, genesis: Hash, tds: map<Hash, nat>)
    requires Rooted(store, genesis)
  {
    tds.Keys == store.Keys && forall h :: h in store ==> tds[h] == TotalDifficulty(store, genesis, h)
  }

  lemma SumsMeans(store: Store, genesis: Hash, tds: map<Hash, nat>)
    requires Rooted(store, genesis) && Sums(store, genesis, tds)
    ensures tds.Keys == store.Keys
  {
  }

  /** A block whose transactions are new to its chain may join. */
  lemma PutKeeps(store: Store, bodies: Bodies, genesis: Hash, b: Header, txs: seq<TxHash>, tds: map<Hash, nat>,
                 store': Store, bodies': Bodies, tds': map<Hash, nat>)
    requires Stored(store, bodies, genesis) && NoRepeats(store, bodies, genesis) && Sums(store, genesis, tds)
    requires b.hash in store ==> store[b.hash] == b && bodies[b.hash] == txs
    requires b.parent in store && store[b.parent].number + 1 == b.number
    requires forall t :: t in txs ==> t !in Scan(store, bodies, genesis, b.parent)
    requires store' == store[b.hash := b] && bodies' == bodies[b.hash := txs]
    requires tds' == tds[b.hash := b.difficulty + tds[b.parent]]
    ensures Stored(store', bodies', genesis) && NoRepeats(store', bodies', genesis) && Sums(store', genesis, tds')
  {
    JoinsRooted(store, genesis, b);
    forall h ensures Once(store', bodies', genesis, h) {
      assert Once(store, bodies, genesis, h) && Linked(store, genesis, h);
      if h in store && h != genesis {
        ScanKeeps(store, bodies, store', bodies', genesis, store[h].parent);
      }
      ScanKeeps(store, bodies, store', bodies', genesis, b.parent);
    }
    forall h | h in store' ensures tds'[h] == TotalDifficulty(store', genesis, h) {
      JoinKeeps(store, store', genesis, b.parent, 0);
      if h in store {
        JoinKeeps(store, store', genesis, h, 0);
      }
    }
  }

  ghost predicate Places(store: Store, canon: map<nat, Hash>) {
    forall n :: n in canon ==> canon[n] in store && store[canon[n]].number == n
  }

  lemma PathKeeps(store: Store, bodies: Bodies, store': Store, bodies': Bodies, genesis: Hash, canon: map<nat, Hash>,
                  h: Hash)
    requires Stored(store, bodies, genesis) && Stored(store', bodies', genesis) && h in store
    requires forall k :: k in store ==> k in store' && store'[k] == store[k] && bodies'[k] == bodies[k]
    requires IsPath(store, genesis, canon, h, store[h].number) && Places(store, canon)
    ensures IsPath(store', genesis, canon, h, store[h].number) && Places(store', canon)
    ensures Scan(store', bodies', genesis, h) == Scan(store, bodies, genesis, h)
  {
    forall n | 0 <= n <= store[h].number ensures n in canon && canon[n] == AncestorAt(store', genesis, h, n) {
      JoinKeeps(store, store', genesis, h, n);
    }
    ScanKeeps(store, bodies, store', bodies', genesis, h);
  }

  /** What the last step of taking over does, after a reorganisation and without one. */
  lemma HeadEntries(store: Store, bodies: Bodies, genesis: Hash, canon: map<nat, Hash>, b: Hash)
    requires Stored(store, bodies, genesis) && b in store && b != genesis
    ensures store[b].parent in store && store[store[b].parent].number + 1 == store[b].number
    ensures Scan(store, bodies, genesis, b) + BlockEntries(store, bodies, b) == Scan(store, bodies, genesis, b)
    ensures Scan(store, bodies, genesis, store[b].parent) + BlockEntries(store, bodies, b) ==
              Scan(store, bodies, genesis, b)
    ensures IsPath(store, genesis, canon, b, store[b].number) ==>
              store[b].number in canon && canon[store[b].number] == b
    ensures IsPath(store, genesis, canon, store[b].parent, store[store[b].parent].number) ==>
              IsPath(store, genesis, canon[store[b].number := b], b, store[b].number)
    ensures Places(store, canon) ==> Places(store, canon[store[b].number := b])
  {
    assert Linked(store, genesis, b);
  }

  lemma SumIs(store: Store, genesis: Hash, tds: map<Hash, nat>, b: Header)
    requires Rooted(store, genesis) && Sums(store, genesis, tds) && b.parent in store
             && store[b.parent].number + 1 == b.number
    ensures b.hash in store && store[b.hash] == b ==> tds[b.hash] == b.difficulty + tds[b.parent]
    ensures genesis in store && store[genesis] != b
  {
    assert Linked(store, genesis, b.hash);
  }

  lemma {:induction false} AncestorIsLighter(store: Store, genesis: Hash, h: Hash, n: nat)
    requires Rooted(store, genesis) && h in store && n < store[h].number
    requires forall k :: k in store && k != genesis ==> store[k].difficulty > 0
    ensures TotalDifficulty(store, genesis, AncestorAt(store, genesis, h, n)) < TotalDifficulty(store, genesis, h)
    decreases store[h].number
  {
    assert Linked(store, genesis, h);
    if n < store[h].number - 1 {
      AncestorIsLighter(store, genesis, store[h].parent, n);
    }
  }

  /** On the path to a block only the block itself has its total difficulty. */
  lemma NotBelow(store: Store, genesis: Hash, tds: map<Hash, nat>, canon: map<nat, Hash>, head: Hash, b: Hash)
    requires Rooted(store, genesis) && Sums(store, genesis, tds) && head in store && b in store
    requires forall k :: k in store && k != genesis ==> store[k].difficulty > 0
    requires IsPath(store, genesis, canon, head, store[head].number)
    ensures b != head && store[b].number <= store[head].number && canon[store[b].number] == b ==> tds[b] < tds[head]
  {
    var n := store[b].number;
    if n < store[head].number {
      AncestorIsLighter(store, genesis, head, n);
    }
  }

  /** A block that is preferred to the head is not canonical yet, unless it is the head. */
  lemma NotYetCanonical(store: Store, tds: map<Hash, nat>, store': Store, tds': map<Hash, nat>, genesis: Hash,
                        canon: map<nat, Hash>, head: Hash, b: Header)
    requires Rooted(store', genesis) && Sums(store', genesis, tds') && head in store && tds.Keys == store.Keys
    requires forall k :: k in store' && k != genesis ==> store'[k].difficulty > 0
    requires Places(store, canon) && forall k :: k in store ==> tds[k] <= tds[head]
    requires store' == store[b.hash := b] && tds' == tds[b.hash := tds'[b.hash]]
    requires b.hash in store ==> store[b.hash] == b && tds[b.hash] == tds'[b.hash]
    requires IsPath(store', genesis, canon, head, store'[head].number)
    requires tds'[b.hash] > tds[head] || (tds'[b.hash] == tds[head] && b.number <= store[head].number)
    ensures b.hash == head || b.number !in canon || canon[b.number] != b.hash
  {
    if b.hash != head && b.number in canon && canon[b.number] == b.hash {
      assert b.hash in store;
      NotBelow(store', genesis, tds', canon, head, b.hash);
    }
  }

  lemma ChildScans(store: Store, bodies: Bodies, genesis: Hash, b: Header)
    requires Stored(store, bodies, genesis) && b.hash in store && store[b.hash] == b && b.hash != genesis
    ensures b.parent in store
    ensures forall t :: t in Scan(store, bodies, genesis, b.parent) ==> t in Scan(store, bodies, genesis, b.hash)
  {
    assert Linked(store, genesis, b.hash);
  }

  /** Against a common ancestor, comparing the branches is comparing the chains. */
  lemma DifferenceScans(store: Store, bodies: Bodies, genesis: Hash, a: Hash, b: Hash, c: nat, gone: seq<TxHash>,
                        come: seq<TxHash>)
    requires Stored(store, bodies, genesis) && NoRepeats(store, bodies, genesis)
    requires a in store && b in store && c <= store[a].number && c <= store[b].number
    requires AncestorAt(store, genesis, a, c) == AncestorAt(store, genesis, b, c)
    requires AllStored(store, bodies, Down(store, genesis, a, c)) && gone == TxsOf(bodies, Down(store, genesis, a, c))
    requires AllStored(store, bodies, Down(store, genesis, b, c)) && come == TxsOf(bodies, Down(store, genesis, b, c))
    ensures forall t :: t in Without(gone, Elements(come)) <==>
              t in Scan(store, bodies, genesis, a) && t !in Scan(store, bodies, genesis, b)
  {
    hide Rooted, Scan, Added, Down, Without, InChain, NoRepeats, AncestorAt, TxsOf;
    ScanSplits(store, bodies, genesis, a, c);
    ScanSplits(store, bodies, genesis, b, c);
    forall t ensures t in Without(gone, Elements(come)) <==>
                     t in Scan(store, bodies, genesis, a) && t !in Scan(store, bodies, genesis, b)
    {
      WithoutHolds(gone, Elements(come), t);
      TxsOfHolds(bodies, Down(store, genesis, a, c), t);
      TxsOfHolds(bodies, Down(store, genesis, b, c), t);
      AddedKeys(store, bodies, Down(store, genesis, a, c), t);
      AddedKeys(store, bodies, Down(store, genesis, b, c), t);
      if t in gone {
        UpperIsNew(store, bodies, genesis, a, c, t);
      }
    }
  }

  /** Walking down from `top` has come to block b and collected the blocks above it with their
      transactions. */
  ghost predicate Walked(store: Store, bodies: Bodies, genesis: Hash, top: Header, b: Header, chain: seq<Hash>,
                         txs: seq<TxHash>)
    requires Stored(store, bodies, genesis)
  {
    && top.hash in store && store[top.hash] == top && b.hash in store && store[b.hash] == b
    && b.number <= top.number && b.hash == AncestorAt(store, genesis, top.hash, b.number)
    && chain == Down(store, genesis, top.hash, b.number)
    && AllStored(store, bodies, chain) && txs == TxsOf(bodies, chain)
  }

  lemma WalkStarts(store: Store, bodies: Bodies, genesis: Hash, top: Header)
    requires Stored(store, bodies, genesis) && top.hash in store && store[top.hash] == top
    ensures Walked(store, bodies, genesis, top, top, [], [])
  {
  }

  lemma WalkOn(store: Store, bodies: Bodies, genesis: Hash, top: Header, b: Header, chain: seq<Hash>, txs: seq<TxHash>)
    requires Stored(store, bodies, genesis) && Walked(store, bodies, genesis, top, b, chain, txs) && b.number > 0
    ensures b.parent in store && b.hash in bodies
    ensures Walked(store, bodies, genesis, top, store[b.parent], chain + [b.hash], txs + bodies[b.hash])
  {
    StepDown(store, genesis, top.hash, b.number);
    DownOneMore(store, genesis, top.hash, b.number);
    assert Linked(store, genesis, b.parent);
  }

  lemma WalkedMeans(store: Store, bodies: Bodies, genesis: Hash, top: Header, b: Header, chain: seq<Hash>,
                    txs: seq<TxHash>)
    requires Stored(store, bodies, genesis) && Walked(store, bodies, genesis, top, b, chain, txs)
    ensures top.hash in store && store[top.hash] == top && b.hash in store && store[b.hash] == b
    ensures b.number <= top.number && b.hash == AncestorAt(store, genesis, top.hash, b.number)
    ensures b.number == 0 ==> b.hash == genesis
    ensures chain == Down(store, genesis, top.hash, b.number)
    ensures AllStored(store, bodies, chain) && txs == TxsOf(bodies, chain)
  {
    EndsAtGenesis(store, genesis, b.hash);
  }
}

/** The block chain: fork choice, reorganisation and the transaction lookup. */
module BlockChains {
  import opened Wrappers
  import opened Ancestry
  import opened Chains

  datatype Status = NonStat | Canon | Side

  class BlockChain {
    const genesis: Hash
    /** Blocks that this node prefers on a tie, such as its own. */
    const shouldPreserve: Hash -> bool
    var headers: Store
    var bodies: Bodies
    var tds: map<Hash, nat>
    var canon: map<nat, Hash>
    var lookup: Index
    var currentBlock: Hash
    var currentHeader: Hash
    var currentFastBlock: Hash

    ghost predicate StoreValid()
      reads this
    {
      && Stored(headers, bodies, genesis) && NoRepeats(headers, bodies, genesis) && Sums(headers, genesis, tds)
      && (forall h :: h in headers && h != genesis ==> headers[h].difficulty > 0)
    }

    /** The canonical map up to the head is the head's ancestor path and the lookup index is the
        scan of that chain. Above the head the map may hold what a reorganisation left behind. */
    ghost predicate PathValid()
      requires StoreValid()
      reads this
    {
      && currentBlock in headers
      && IsPath(headers, genesis, canon, currentBlock, headers[currentBlock].number)
      && Places(headers, canon)
      && lookup == Scan(headers, bodies, genesis, currentBlock)
    }

    ghost predicate Valid()
      reads this
    {
      && StoreValid() && PathValid()
      && (forall h :: h in headers ==> tds[h] <= tds[currentBlock])
      && currentHeader == currentBlock && currentFastBlock == currentBlock
    }

    lemma ValidMeans()
      requires Valid()
      ensures Stored(headers, bodies, genesis) && currentBlock in headers && currentBlock in tds
      ensures IsPath(headers, genesis, canon, currentBlock, headers[currentBlock].number)
      ensures forall h :: h in headers ==>
                TotalDifficulty(headers, genesis, h) <= TotalDifficulty(headers, genesis, currentBlock)
      ensures tds[currentBlock] == TotalDifficulty(headers, genesis, currentBlock)
      ensures lookup == Scan(headers, bodies, genesis, currentBlock)
      ensures currentHeader == currentBlock && currentFastBlock == currentBlock
    {
    }

    constructor (first: Header, preserve: Hash -> bool)
      requires first.number == 0
      ensures Valid() && genesis == first.hash && headers == map[first.hash := first] && currentBlock == first.hash
      ensures bodies == map[first.hash := []]
    {
      genesis, shouldPreserve := first.hash, preserve;
      headers, bodies, tds := map[first.hash := first], map[first.hash := []], map[first.hash := first.difficulty];
      canon, lookup := map[0 := first.hash], map[];
      currentBlock, currentHeader, currentFastBlock := first.hash, first.hash, first.hash;
    }

    function GetBlock(hash: Hash, number: int): (r: Option<Header>)
      reads this
    {
      if hash in headers && headers[hash].number == number then Some(headers[hash]) else None
    }

    /** Makes a block the head. The other heads follow unless the block was canonical already. */
    method Insert(b: Header)
      modifies this`canon, this`currentBlock, this`currentHeader, this`currentFastBlock
      ensures canon == old(canon)[b.number := b.hash] && currentBlock == b.hash
      ensures if b.number in old(canon) && old(canon)[b.number] == b.hash
              then currentHeader == old(currentHeader) && currentFastBlock == old(currentFastBlock)
              else currentHeader == b.hash && currentFastBlock == b.hash
    {
      var updateHeads := b.number !in canon || canon[b.number] != b.hash;
      canon := canon[b.number := b.hash];
      currentBlock := b.hash;
      if updateHeads {
        currentHeader := b.hash;
        currentFastBlock := b.hash;
      }
    }

    method WriteTxLookupEntries(b: Header)
      requires b.hash in bodies
      modifies this`lookup
      ensures lookup == old(lookup) + EntriesOf(b.hash, b.number, bodies[b.hash])
    {
      var txs := bodies[b.hash];
      for i := 0 to |txs|
        invariant lookup == old(lookup) + EntriesOf(b.hash, b.number, txs[..i])
      {
        assert txs[..i + 1][..i] == txs[..i];
        lookup := lookup[txs[i] := Entry(b.hash, b.number, i)];
      }
      assert txs[..|txs|] == txs;
    }

    /** Fetches the parent of a block, which is never missing. */
    method Parent(b: Header) returns (p: Header)
      requires Rooted(headers, genesis) && b.hash in headers && headers[b.hash] == b && b.number > 0
      ensures b.parent in headers && p == headers[b.parent] && p.hash == b.parent && p.number == b.number - 1
    {
      assert Linked(headers, genesis, b.hash) && Linked(headers, genesis, b.parent);
      var parent := GetBlock(b.parent, b.number - 1);
      assert parent.Some?;
      p := parent.value;
    }

    /** Walks from a block down to a number and collects the blocks above it. */
    method Descend(top: Header, to: nat) returns (b: Header, chain: seq<Hash>, txs: seq<TxHash>)
      requires Stored(headers, bodies, genesis) && top.hash in headers && headers[top.hash] == top && to <= top.number
      ensures Walked(headers, bodies, genesis, top, b, chain, txs) && b.number == to
    {
      hide Rooted, Walked;
      b, chain, txs := top, [], [];
      WalkStarts(headers, bodies, genesis, top);
      while b.number != to
        invariant to <= b.number && Walked(headers, bodies, genesis, top, b, chain, txs)
        decreases b.number
      {
        WalkedMeans(headers, bodies, genesis, top, b, chain, txs);
        WalkOn(headers, bodies, genesis, top, b, chain, txs);
        chain, txs := chain + [b.hash], txs + bodies[b.hash];
        b := Parent(b);
      }
    }

    /** Walks from two blocks down to their highest common ancestor and collects the two branches
        with their transactions. */
    method Fork(oldTop: Header, newTop: Header)
      returns (oldChain: seq<Hash>, newChain: seq<Hash>, deleted: seq<TxHash>, included: seq<TxHash>, ghost c: nat)
      requires Stored(headers, bodies, genesis)
      requires oldTop.hash in headers && headers[oldTop.hash] == oldTop && newTop.hash in headers
               && headers[newTop.hash] == newTop
      ensures c <= oldTop.number && c <= newTop.number
      ensures oldChain == Down(headers, genesis, oldTop.hash, c) && newChain == Down(headers, genesis, newTop.hash, c)
      ensures AncestorAt(headers, genesis, oldTop.hash, c) == AncestorAt(headers, genesis, newTop.hash, c)
      ensures forall n :: c < n <= oldTop.number && n <= newTop.number ==>
                AncestorAt(headers, genesis, oldTop.hash, n) != AncestorAt(headers, genesis, newTop.hash, n)
      ensures AllStored(headers, bodies, oldChain) && deleted == TxsOf(bodies, oldChain)
      ensures AllStored(headers, bodies, newChain) && included == TxsOf(bodies, newChain)
    {
      hide Rooted, Walked, AncestorAt, Down, TxsOf;
      var o, n := oldTop, newTop;
      oldChain, newChain, deleted, included := [], [], [], [];
      WalkStarts(headers, bodies, genesis, oldTop);
      WalkStarts(headers, bodies, genesis, newTop);
      if o.number > n.number {
        o, oldChain, deleted := Descend(o, n.number);
      } else {
        n, newChain, included := Descend(n, o.number);
      }
      WalkedMeans(headers, bodies, genesis, oldTop, o, oldChain, deleted);
      WalkedMeans(headers, bodies, genesis, newTop, n, newChain, included);
      while o.hash != n.hash
        invariant o.number == n.number <= oldTop.number && n.number <= newTop.number
        invariant Walked(headers, bodies, genesis, oldTop, o, oldChain, deleted)
        invariant Walked(headers, bodies, genesis, newTop, n, newChain, included)
        invariant forall k :: n.number < k <= oldTop.number && k <= newTop.number ==>
                    AncestorAt(headers, genesis, oldTop.hash, k) != AncestorAt(headers, genesis, newTop.hash, k)
        decreases o.number
      {
        WalkedMeans(headers, bodies, genesis, oldTop, o, oldChain, deleted);
        WalkedMeans(headers, bodies, genesis, newTop, n, newChain, included);
        WalkOn(headers, bodies, genesis, oldTop, o, oldChain, deleted);
        WalkOn(headers, bodies, genesis, newTop, n, newChain, included);
        oldChain, newChain := oldChain + [o.hash], newChain + [n.hash];
        deleted, included := deleted + bodies[o.hash], included + bodies[n.hash];
        o := Parent(o);
        n := Parent(n);
      }
      WalkedMeans(headers, bodies, genesis, oldTop, o, oldChain, deleted);
      WalkedMeans(headers, bodies, genesis, newTop, n, newChain, included);
      c := o.number;
    }

    /** Forgets the lookup entries of some transactions. */
    method DeleteTxLookupEntries(txs: seq<TxHash>)
      modifies this`lookup
      ensures lookup == old(lookup) - Elements(txs)
    {
      for i := 0 to |txs|
        invariant lookup == old(lookup) - Elements(txs[..i])
      {
        assert txs[..i + 1] == txs[..i] + [txs[i]];
        lookup := lookup - {txs[i]};
      }
      assert txs[..|txs|] == txs;
    }

    /** Inserts the blocks of a new branch, oldest first. */
    method InsertBranch(newTop: Header, chain: seq<Hash>, ghost c: nat) returns (added: seq<TxHash>)
      requires Stored(headers, bodies, genesis) && newTop.hash in headers && headers[newTop.hash] == newTop
               && c <= newTop.number
      requires chain == Down(headers, genesis, newTop.hash, c) && AllStored(headers, bodies, chain)
      modifies this`canon, this`lookup, this`currentBlock, this`currentHeader, this`currentFastBlock
      ensures Grafted(headers, genesis, old(canon), canon, newTop.hash, c, newTop.number)
      ensures lookup == old(lookup) + Added(headers, bodies, chain)
      ensures forall t :: t in added <==> InChain(bodies, chain, t)
      ensures chain == [] ==>
                currentBlock == old(currentBlock) && currentHeader == old(currentHeader)
                  && currentFastBlock == old(currentFastBlock)
      ensures chain != [] ==> currentBlock == newTop.hash
      ensures chain != [] && !(newTop.number in old(canon) && old(canon)[newTop.number] == newTop.hash) ==>
                currentHeader == newTop.hash && currentFastBlock == newTop.hash
    {
      hide Rooted, AncestorAt, Grafted, EntriesOf, BlockEntries, InChain, Added, Down;
      DownAt(headers, genesis, newTop.hash, c);
      GraftNone(headers, genesis, canon, newTop.hash, c);
      added := [];
      var i: nat := |chain|;
      AddedNone(headers, bodies, chain[i..]);
      while i > 0
        invariant 0 <= i <= |chain| && c <= newTop.number - i
        invariant Grafted(headers, genesis, old(canon), canon, newTop.hash, c, newTop.number - i)
        invariant AllStored(headers, bodies, chain[i..]) && lookup == old(lookup) + Added(headers, bodies, chain[i..])
        invariant forall t :: t in added <==> InChain(bodies, chain[i..], t)
        invariant i == |chain| ==>
                    currentBlock == old(currentBlock) && currentHeader == old(currentHeader)
                      && currentFastBlock == old(currentFastBlock)
        invariant i < |chain| ==> currentBlock == chain[i]
        invariant i == 0 < |chain| && !(newTop.number in old(canon) && old(canon)[newTop.number] == newTop.hash) ==>
                    currentHeader == newTop.hash && currentFastBlock == newTop.hash
      {
        i := i - 1;
        var b := headers[chain[i]];
        IsLinked(headers, genesis, chain[i]);
        GraftOne(headers, genesis, old(canon), canon, newTop.hash, c, newTop.number - i);
        AddedOne(headers, bodies, chain, i, old(lookup));
        Insert(b);
        WriteTxLookupEntries(b);
        added := added + bodies[b.hash];
      }
      assert chain[0..] == chain;
    }

    /** Moves the canonical chain from the current head to another block: the branch of the new
        block is inserted, and the transactions that are only in the old branch are forgotten. */
    method Reorg(oldTop: Header, newTop: Header)
      requires StoreValid() && PathValid() && oldTop.hash == currentBlock && headers[oldTop.hash] == oldTop
      requires newTop.hash in headers && headers[newTop.hash] == newTop
      modifies this`canon, this`lookup, this`currentBlock, this`currentHeader, this`currentFastBlock
      ensures IsPath(headers, genesis, canon, newTop.hash, newTop.number)
      ensures Places(headers, canon)
      ensures lookup == Scan(headers, bodies, genesis, newTop.hash)
      ensures newTop == oldTop ==>
                currentBlock == old(currentBlock) && currentHeader == old(currentHeader)
                  && currentFastBlock == old(currentFastBlock)
      ensures newTop.number in old(canon) && old(canon)[newTop.number] != newTop.hash ==>
                currentBlock == newTop.hash && currentHeader == newTop.hash && currentFastBlock == newTop.hash
      ensures newTop.number !in old(canon) ==>
                currentBlock == newTop.hash && currentHeader == newTop.hash && currentFastBlock == newTop.hash
    {
      hide Rooted, Scan, Added, Down, Without, InChain, NoRepeats, AncestorAt, IsPath, Grafted, TxsOf, Elements;
      var oldChain, newChain, deleted, included;
      ghost var c;
      oldChain, newChain, deleted, included, c := Fork(oldTop, newTop);
      DownIsStored(headers, bodies, genesis, oldTop.hash, newTop.hash, c);
      forall t ensures t in deleted <==> InChain(bodies, oldChain, t) {
        TxsOfHolds(bodies, oldChain, t);
      }
      var added := InsertBranch(newTop, newChain, c);
      GraftIsPath(headers, genesis, old(canon), canon, oldTop.hash, newTop.hash, c);
      SwapIndex(headers, bodies, genesis, oldTop.hash, newTop.hash, c, deleted, added);
      var diff := TxDifference(deleted, added);
      DeleteTxLookupEntries(diff);
    }

    /** The transactions that go back to the pool when the head moves: exactly those of the old
        chain that the new chain lacks, unless the heads are more than 64 numbers apart. Only a genesis
        that names the old head as its parent passes for a child. */
    method Reinject(oldHead: Header, newHead: Header) returns (reinject: seq<TxHash>)
      requires StoreValid()
      requires oldHead.hash in headers && headers[oldHead.hash] == oldHead && newHead.hash in headers
               && headers[newHead.hash] == newHead
      ensures oldHead.number > newHead.number + 64 || newHead.number > oldHead.number + 64 ==> reinject == []
      ensures oldHead.number <= newHead.number + 64 && newHead.number <= oldHead.number + 64
              && !(newHead.hash == genesis && newHead.parent == oldHead.hash) ==>
                forall t :: t in reinject <==>
                  t in Scan(headers, bodies, genesis, oldHead.hash)
                    && t !in Scan(headers, bodies, genesis, newHead.hash)
    {
      hide Rooted, Scan, Down, Without, InChain, NoRepeats, AncestorAt, TxsOf, Elements;
      if oldHead.hash == newHead.parent {
        if newHead.hash != genesis {
          ChildScans(headers, bodies, genesis, newHead);
        }
        return [];
      }
      var depth := if oldHead.number < newHead.number then newHead.number - oldHead.number
        else oldHead.number - newHead.number;
      if depth > 64 {
        return [];
      }
      var oldChain, newChain, discarded, included;
      ghost var c;
      oldChain, newChain, discarded, included, c := Fork(oldHead, newHead);
      reinject := TxDifference(discarded, included);
      DifferenceScans(headers, bodies, genesis, oldHead.hash, newHead.hash, c, discarded, included);
    }

    function GetTd(hash: Hash, number: int): (r: Option<nat>)
      reads this
    {
      if hash in headers && hash in tds && headers[hash].number == number then Some(tds[hash]) else None
    }

    /** Stores a block with its total difficulty. */
    method Put(b: Header, txs: seq<TxHash>)
      requires StoreValid() && PathValid()
      requires b.hash in headers ==> headers[b.hash] == b && bodies[b.hash] == txs
      requires b.difficulty > 0 && b.parent in headers && headers[b.parent].number + 1 == b.number
      requires forall t :: t in txs ==> t !in Scan(headers, bodies, genesis, b.parent)
      modifies this`headers, this`bodies, this`tds
      ensures StoreValid() && PathValid()
      ensures headers == old(headers)[b.hash := b] && bodies == old(bodies)[b.hash := txs]
      ensures tds == old(tds)[b.hash := old(tds)[b.parent] + b.difficulty]
    {
      hide Rooted, Scan, NoRepeats, AncestorAt, IsPath, Places, Sums;
      SumsMeans(headers, genesis, tds);
      tds := tds[b.hash := b.difficulty + tds[b.parent]];
      headers := headers[b.hash := b];
      bodies := bodies[b.hash := txs];
      PutKeeps(old(headers), old(bodies), genesis, b, txs, old(tds), headers, bodies, tds);
      PathKeeps(old(headers), old(bodies), headers, bodies, genesis, canon, currentBlock);
    }

    /** Whether a block takes over: the greater total difficulty wins; on a tie the lower number
        does, and among equal numbers a preserved block, or else the coin decides. */
    method Prefers(b: Header, externTd: nat, localTd: nat, coin: bool) returns (reorg: bool)
      requires currentBlock in headers
      ensures externTd > localTd ==> reorg
      ensures externTd < localTd ==> !reorg
      ensures externTd == localTd ==>
                var cur := headers[currentBlock];
                reorg <==> b.number < cur.number ||
                           (b.number == cur.number && !shouldPreserve(currentBlock) && (shouldPreserve(b.hash) || coin))
    {
      reorg := externTd > localTd;
      if !reorg && externTd == localTd {
        if b.number < headers[currentBlock].number {
          reorg := true;
        } else if b.number == headers[currentBlock].number {
          reorg := !shouldPreserve(currentBlock) && (shouldPreserve(b.hash) || coin);
        }
      }
    }

    /** Makes a stored block the head. */
    method TakeOver(b: Header)
      requires StoreValid() && PathValid() && currentHeader == currentBlock && currentFastBlock == currentBlock
      requires b.hash in headers && headers[b.hash] == b && b.hash != genesis
      requires b.hash == currentBlock || b.number !in canon || canon[b.number] != b.hash
      modifies this`canon, this`lookup, this`currentBlock, this`currentHeader, this`currentFastBlock
      ensures StoreValid() && PathValid() && currentBlock == currentHeader == currentFastBlock == b.hash
    {
      hide Rooted, Scan, NoRepeats, AncestorAt, IsPath, Places, EntriesOf, Sums;
      HeadEntries(headers, bodies, genesis, canon, b.hash);
      if b.parent != currentBlock {
        var cur := headers[currentBlock];
        IsLinked(headers, genesis, currentBlock);
        Reorg(cur, b);
        HeadEntries(headers, bodies, genesis, canon, b.hash);
        assert canon[b.number := b.hash] == canon;
      }
      WriteTxLookupEntries(b);
      Insert(b);
    }

    /** Writes a block after its execution. `NonStat` means that the parent is unknown. */
    method WriteBlockWithState(b: Header, txs: seq<TxHash>, coin: bool) returns (status: Status)
      requires Valid() && b.difficulty > 0
      requires b.hash in headers ==> headers[b.hash] == b && bodies[b.hash] == txs
      requires forall t :: t in txs && b.parent in headers ==> t !in Scan(headers, bodies, genesis, b.parent)
      modifies this`headers, this`bodies, this`tds, this`canon, this`lookup, this`currentBlock, this`currentHeader,
               this`currentFastBlock
      ensures Valid()
      ensures status == NonStat <==> !(b.parent in old(headers) && old(headers)[b.parent].number + 1 == b.number)
      ensures status == NonStat ==> headers == old(headers) && bodies == old(bodies) && tds == old(tds)
      ensures status != NonStat ==> headers == old(headers)[b.hash := b] && bodies == old(bodies)[b.hash := txs] &&
                                    tds == old(tds)[b.hash := old(tds)[b.parent] + b.difficulty]
      ensures status == Canon ==> currentBlock == b.hash
      ensures status != Canon ==> currentBlock == old(currentBlock) && canon == old(canon) && lookup == old(lookup)
      ensures status != NonStat ==>
                var cur := old(headers)[old(currentBlock)];
                var ours, theirs := old(tds)[old(currentBlock)], tds[b.hash];
                status == Canon <==>
                  theirs > ours || (theirs == ours && (b.number < cur.number ||
                    (b.number == cur.number && !shouldPreserve(cur.hash) && (shouldPreserve(b.hash) || coin))))
      ensures currentBlock in tds && tds[currentBlock] >= old(tds)[old(currentBlock)]
    {
      hide Rooted, Scan, NoRepeats, AncestorAt, IsPath, Sums, Places;
      var ptd := GetTd(b.parent, b.number - 1);
      SumsMeans(headers, genesis, tds);
      if ptd == None {
        return NonStat;
      }
      var localTd := tds[currentBlock];
      var externTd := b.difficulty + ptd.value;
      IsLinked(headers, genesis, currentBlock);
      SumIs(headers, genesis, tds, b);
      Put(b, txs);
      SumsMeans(headers, genesis, tds);
      var reorg := Prefers(b, externTd, localTd, coin);
      if reorg {
        NotYetCanonical(old(headers), old(tds), headers, tds, genesis, canon, currentBlock, b);
        TakeOver(b);
        status := Canon;
      } else {
        status := Side;
      }
    }
  }

  /** What a run writes: a block, its transactions and the coin for a tie. */
  datatype Write = Write(block: Header, txs: seq<TxHash>, coin: bool)

  /** Hashes identify blocks, difficulties are positive, and no transaction repeats in a chain. */
  predicate Sound(chain: BlockChain, w: Write)
    requires Stored(chain.headers, chain.bodies, chain.genesis)
    reads chain
  {
    && w.block.difficulty > 0
    && (w.block.hash in chain.headers ==> chain.headers[w.block.hash] == w.block && chain.bodies[w.block.hash] == w.txs)
    && (w.block.parent in chain.headers ==>
          forall t :: t in w.txs ==> t !in Scan(chain.headers, chain.bodies, chain.genesis, w.block.parent))
  }

  /** Writes a block if it is sound and reports the total difficulty of the head. */
  method Advance(chain: BlockChain, w: Write) returns (td: nat)
    requires chain.Valid() && chain.currentBlock in chain.tds
    modifies chain
    ensures chain.Valid() && chain.currentBlock in chain.tds
    ensures td == chain.tds[chain.currentBlock] && td >= old(chain.tds)[old(chain.currentBlock)]
  {
    hide Rooted, Scan, NoRepeats, AncestorAt, IsPath, Sums, Places;
    if Sound(chain, w) {
      var status := chain.WriteBlockWithState(w.block, w.txs, w.coin);
    }
    td := chain.tds[chain.currentBlock];
  }

  /** Over every run of sound writes: the canonical map up to the head is the head's ancestor path,
      no stored block has a greater total difficulty than the head, the lookup index is the scan of
      the canonical chain, and the head's total difficulty never fell. */
  method Run(first: Header, preserve: Hash -> bool, writes: seq<Write>) returns (chain: BlockChain, heads: seq<nat>)
    requires first.number == 0
    ensures Stored(chain.headers, chain.bodies, first.hash) && chain.currentBlock in chain.headers
    ensures IsPath(chain.headers, first.hash, chain.canon, chain.currentBlock, chain.headers[chain.currentBlock].number)
    ensures forall h :: h in chain.headers ==>
              TotalDifficulty(chain.headers, first.hash, h) <=
                  TotalDifficulty(chain.headers, first.hash, chain.currentBlock)
    ensures chain.lookup == Scan(chain.headers, chain.bodies, first.hash, chain.currentBlock)
    ensures chain.currentHeader == chain.currentFastBlock == chain.currentBlock
    ensures |heads| == |writes| + 1 && forall i, j :: 0 <= i <= j < |heads| ==> heads[i] <= heads[j]
    ensures heads[|writes|] == TotalDifficulty(chain.headers, first.hash, chain.currentBlock)
  {
    hide Rooted, Scan, NoRepeats, AncestorAt, IsPath, Sums, Places, BlockChain.Valid;
    chain := new BlockChain(first, preserve);
    chain.ValidMeans();
    heads := [chain.tds[chain.currentBlock]];
    for i := 0 to |writes|
      invariant fresh(chain) && chain.Valid() && chain.genesis == first.hash
      invariant |heads| == i + 1 && chain.currentBlock in chain.tds && heads[i] == chain.tds[chain.currentBlock]
      invariant forall j, k :: 0 <= j <= k < |heads| ==> heads[j] <= heads[k]
    {
      var td := Advance(chain, writes[i]);
      heads := heads + [td];
    }
    chain.ValidMeans();
  }
}
