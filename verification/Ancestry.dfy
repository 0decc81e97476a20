/** Headers linked by parent hashes. A hash identifies its header. */
module Ancestry {
  type Hash = nat

  datatype Header = Header(hash: Hash, parent: Hash, number: nat, difficulty: nat)

  type Store = map<Hash, Header>

  /** Every stored header but the genesis has its parent stored one number below it. */
  ghost predicate Rooted(store: Store, genesis: Hash) {
    && genesis in store && store[genesis].number == 0
    && forall h {:trigger Linked(store, genesis, h)} :: Linked(store, genesis, h)
  }

  ghost predicate Linked(store: Store, genesis: Hash, h: Hash) {
    h in store ==> store[h].hash == h && (h == genesis || HasParent(store, h))
  }

  ghost predicate HasParent(store: Store, h: Hash)
    requires h in store
  {
    store[h].parent in store && store[store[h].parent].number + 1 == store[h].number
  }

  /** The ancestor with the given number, found by walking from parent to parent. */
  ghost function AncestorAt(store: Store, genesis: Hash, h: Hash, n: nat): (r: Hash)
    requires Rooted(store, genesis) && h in store && n <= store[h].number
    ensures r in store && store[r].number == n
    decreases store[h].number
  {
    if store[h].number == n then h else assert Linked(store, genesis, h); AncestorAt(store, genesis, store[h].parent, n)
  }

  /** The difficulties from the genesis up to the header. */
  ghost function TotalDifficulty(store: Store, genesis: Hash, h: Hash): nat
    requires Rooted(store, genesis) && h in store
    decreases store[h].number
  {
    store[h].difficulty + if h == genesis then 0
      else assert Linked(store, genesis, h); TotalDifficulty(store, genesis, store[h].parent)
  }

  lemma {:induction false} AncestorOfAncestor(store: Store, genesis: Hash, h: Hash, m: nat, n: nat)
    requires Rooted(store, genesis) && h in store && n <= m <= store[h].number
    ensures AncestorAt(store, genesis, AncestorAt(store, genesis, h, m), n) == AncestorAt(store, genesis, h, n)
    decreases store[h].number
  {
    if store[h].number != m {
      assert Linked(store, genesis, h);
      AncestorOfAncestor(store, genesis, store[h].parent, m, n);
    }
  }

  /** The only header with number zero is the genesis, and every path ends there. */
  lemma {:induction false} EndsAtGenesis(store: Store, genesis: Hash, h: Hash)
    requires Rooted(store, genesis) && h in store
    ensures store[h].number == 0 ==> h == genesis
    ensures AncestorAt(store, genesis, h, 0) == genesis
    decreases store[h].number
  {
    if h != genesis {
      assert Linked(store, genesis, h);
      EndsAtGenesis(store, genesis, store[h].parent);
    }
  }

  /** A header may join when its parent is stored one number below it. */
  lemma JoinsRooted(store: Store, genesis: Hash, h: Header)
    requires Rooted(store, genesis) && (h.hash in store ==> store[h.hash] == h)
    requires h.parent in store && store[h.parent].number + 1 == h.number
    ensures Rooted(store[h.hash := h], genesis)
  {
    var store' := store[h.hash := h];
    forall k ensures Linked(store', genesis, k) {
      assert Linked(store, genesis, k);
    }
  }

  /** What is stored later changes nothing about earlier headers. */
  lemma {:induction false} JoinKeeps(store: Store, store': Store, genesis: Hash, h: Hash, n: nat)
    requires Rooted(store, genesis) && Rooted(store', genesis) && h in store && n <= store[h].number
    requires forall k :: k in store ==> k in store' && store'[k] == store[k]
    ensures AncestorAt(store', genesis, h, n) == AncestorAt(store, genesis, h, n)
    ensures TotalDifficulty(store', genesis, h) == TotalDifficulty(store, genesis, h)
    decreases store[h].number
  {
    if h != genesis {
      assert Linked(store, genesis, h);
      JoinKeeps(store, store', genesis, store[h].parent, if n < store[h].number then n else 0);
    }
  }

  /** The canonical map on [0, upto] is the path that leads to the header. */
  ghost predicate IsPath(store: Store, genesis: Hash, canon: map<nat, Hash>, h: Hash, upto: nat)
    requires Rooted(store, genesis) && h in store && upto <= store[h].number
  {
    forall n :: 0 <= n <= upto ==> n in canon && canon[n] == AncestorAt(store, genesis, h, n)
  }

  /** Two paths that meet are the same below. */
  lemma PathsMeet(store: Store, genesis: Hash, a: Hash, b: Hash, m: nat, n: nat)
    requires Rooted(store, genesis) && a in store && b in store && n <= m <= store[a].number && m <= store[b].number
    requires AncestorAt(store, genesis, a, m) == AncestorAt(store, genesis, b, m)
    ensures AncestorAt(store, genesis, a, n) == AncestorAt(store, genesis, b, n)
  {
    AncestorOfAncestor(store, genesis, a, m, n);
    AncestorOfAncestor(store, genesis, b, m, n);
  }

  lemma StepDown(store: Store, genesis: Hash, h: Hash, n: nat)
    requires Rooted(store, genesis) && h in store && 0 < n <= store[h].number
    ensures AncestorAt(store, genesis, h, n) != genesis
    ensures HasParent(store, AncestorAt(store, genesis, h, n))
    ensures store[AncestorAt(store, genesis, h, n)].parent == AncestorAt(store, genesis, h, n - 1)
  {
    AncestorOfAncestor(store, genesis, h, n, n - 1);
    var a := AncestorAt(store, genesis, h, n);
    assert Linked(store, genesis, a);
    assert AncestorAt(store, genesis, store[a].parent, n - 1) == store[a].parent;
  }

  lemma IsLinked(store: Store, genesis: Hash, h: Hash)
    requires Rooted(store, genesis) && h in store
    ensures store[h].hash == h
  {
    assert Linked(store, genesis, h);
  }
}
