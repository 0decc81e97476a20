/** The chain of headers: fork choice by total difficulty and the canonical number map. */
module HeaderChains {
  import opened Wrappers
  import opened Ancestry

  datatype Status = NonStat | Canon | Side

  class HeaderChain {
    const genesis: Hash
    var headers: Store
    var tds: map<Hash, nat>
    var canon: map<nat, Hash>
    var current: Hash

    /** Total difficulties are sums back to the genesis, the current header has the greatest, and
        the canonical map is exactly its ancestor path, with nothing above it. */
    ghost predicate Valid()
      reads this
    {
      && Rooted(headers, genesis) && current in headers
      && tds.Keys == headers.Keys
      && (forall h :: h in headers ==> tds[h] == TotalDifficulty(headers, genesis, h) && tds[h] <= tds[current])
      && IsPath(headers, genesis, canon, current, headers[current].number)
      && (forall n :: n in canon ==> n <= headers[current].number)
    }

    constructor (first: Header)
      requires first.number == 0
      ensures Valid() && genesis == first.hash && headers == map[first.hash := first] && current == first.hash
    {
      genesis, headers, tds := first.hash, map[first.hash := first], map[first.hash := first.difficulty];
      canon, current := map[0 := first.hash], first.hash;
    }

    /** Headers and total difficulties are stored under hash and number. */
    function GetHeader(hash: Hash, number: int): (r: Option<Header>)
      reads this
    {
      if hash in headers && headers[hash].number == number then Some(headers[hash]) else None
    }

    function GetTd(hash: Hash, number: int): (r: Option<nat>)
      reads this
    {
      if hash in headers && hash in tds && headers[hash].number == number then Some(tds[hash]) else None
    }

    /** Removes the canonical entries from a number on, until there is none. */
    method ClearFrom(from: nat)
      requires forall n :: n in canon && n >= from ==> forall k :: from <= k <= n ==> k in canon
      modifies this`canon
      ensures canon == map n | n in old(canon) && n < from :: old(canon)[n]
    {
      var i := from;
      while i in canon
        invariant from <= i && canon == map n | n in old(canon) && !(from <= n < i) :: old(canon)[n]
        invariant forall k :: from <= k < i ==> k in old(canon)
        decreases canon.Keys
      {
        assert i in old(canon);
        canon := canon - {i};
        i := i + 1;
      }
      assert forall n :: n in old(canon) && n >= i ==> i in old(canon);
    }

    /** Writes the path of a header into the canonical map, downwards until it meets what is
        there. That is at the highest common ancestor with the old path. */
    method Rewrite(head: Hash, ghost was: Hash, ghost top: nat) returns (ghost fork: nat)
      requires Rooted(headers, genesis) && head in headers && was in headers && top <= headers[was].number
      requires IsPath(headers, genesis, canon, was, top) && forall n :: n in canon ==> n <= top
      requires forall n :: n in canon ==> n <= headers[head].number + 1
      modifies this`canon
      ensures IsPath(headers, genesis, canon, head, headers[head].number)
      ensures forall n :: n in canon ==> n <= headers[head].number || (n in old(canon) && canon[n] == old(canon)[n])
      ensures fork <= headers[head].number && fork in old(canon)
      ensures forall n :: 0 <= n <= fork ==> canon[n] == old(canon)[n]
      ensures forall n :: fork < n <= headers[head].number && n in old(canon) ==> canon[n] != old(canon)[n]
    {
      var hash: Hash, number: nat := head, headers[head].number;
      EndsAtGenesis(headers, genesis, head);
      EndsAtGenesis(headers, genesis, was);
      assert old(canon)[0] == genesis;
      while number !in canon || canon[number] != hash
        invariant number <= headers[head].number && hash == AncestorAt(headers, genesis, head, number)
        invariant forall n :: n in canon <==> n in old(canon) || number < n <= headers[head].number
        invariant forall n :: n in canon ==>
                    canon[n] == if number < n <= headers[head].number then AncestorAt(headers, genesis, head, n)
                      else old(canon)[n]
        invariant forall n :: number < n <= headers[head].number && n in old(canon) ==>
                    old(canon)[n] != AncestorAt(headers, genesis, head, n)
        decreases number
      {
        assert number > 0;
        canon := canon[number := hash];
        StepDown(headers, genesis, head, number);
        hash, number := headers[hash].parent, number - 1;
      }
      fork := number;
      forall n | 0 <= n <= number ensures n in canon && canon[n] == AncestorAt(headers, genesis, head, n) {
        PathsMeet(headers, genesis, was, head, number, n);
      }
    }

    /** Stores a header with its total difficulty. */
    method Put(h: Header)
      requires Rooted(headers, genesis) && tds.Keys == headers.Keys && current in headers
      requires forall k :: k in headers ==> tds[k] == TotalDifficulty(headers, genesis, k)
      requires h.hash in headers ==> headers[h.hash] == h
      requires h.parent in headers && headers[h.parent].number + 1 == h.number
      modifies this`headers, this`tds
      ensures headers == old(headers)[h.hash := h] && Rooted(headers, genesis)
      ensures tds == old(tds)[h.hash := old(tds)[h.parent] + h.difficulty]
      ensures forall k :: k in headers ==> tds[k] == TotalDifficulty(headers, genesis, k)
      ensures forall k, n :: k in old(headers) && 0 <= n <= old(headers)[k].number ==>
                AncestorAt(headers, genesis, k, n) == AncestorAt(old(headers), genesis, k, n)
    {
      JoinsRooted(headers, genesis, h);
      ghost var store := headers;
      tds := tds[h.hash := tds[h.parent] + h.difficulty];
      headers := headers[h.hash := h];
      ghost var store' := headers;
      forall k, n | k in store && 0 <= n <= store[k].number
        ensures AncestorAt(store', genesis, k, n) == AncestorAt(store, genesis, k, n)
        ensures TotalDifficulty(store', genesis, k) == TotalDifficulty(store, genesis, k)
      {
        JoinKeeps(store, store', genesis, k, n);
      }
      forall k | k in store' ensures tds[k] == TotalDifficulty(store', genesis, k) {
        JoinKeeps(store, store', genesis, h.parent, 0);
        if k in store {
          JoinKeeps(store, store', genesis, k, 0);
        }
      }
    }

    /** Makes a stored header the current one and the canonical map its path. */
    method MakeCurrent(h: Header)
      requires Rooted(headers, genesis) && current in headers && h.hash in headers && headers[h.hash] == h
               && h.hash != genesis
      requires IsPath(headers, genesis, canon, current, headers[current].number)
      requires forall n :: n in canon ==> n <= headers[current].number
      modifies this`canon, this`current
      ensures current == h.hash && IsPath(headers, genesis, canon, h.hash, h.number)
      ensures forall n :: n in canon ==> n <= h.number
    {
      assert Linked(headers, genesis, h.hash);
      ClearFrom(h.number + 1);
      ghost var top := if headers[current].number < h.number then headers[current].number else h.number;
      ghost var fork := Rewrite(h.parent, current, top);
      canon := canon[h.number := h.hash];
      current := h.hash;
    }

    /** Writes a header. It becomes current when its total difficulty is greater, or on a tie if
        the coin says so; then the canonical map is its path. */
    method WriteHeader(h: Header, coin: bool) returns (status: Status)
      requires Valid() && (h.hash in headers ==> headers[h.hash] == h)
      modifies this
      ensures Valid()
      ensures status == NonStat <==> !(h.parent in old(headers) && old(headers)[h.parent].number + 1 == h.number)
      ensures status == NonStat ==>
                headers == old(headers) && tds == old(tds) && canon == old(canon) && current == old(current)
      ensures status != NonStat ==> headers == old(headers)[h.hash := h]
      ensures status == Canon ==> current == h.hash && tds[h.hash] >= old(tds)[old(current)]
      ensures status == Side ==> current == old(current) && canon == old(canon)
      ensures status != NonStat && tds[h.hash] > old(tds)[old(current)] ==> status == Canon
      ensures status != NonStat && tds[h.hash] == old(tds)[old(current)] ==> status == if coin then Canon else Side
    {
      var ptd := GetTd(h.parent, h.number - 1);
      if ptd == None {
        return NonStat;
      }
      var localTd := tds[current];
      var externTd := h.difficulty + ptd.value;
      Put(h);
      if externTd > localTd || (externTd == localTd && coin) {
        MakeCurrent(h);
        status := Canon;
      } else {
        status := Side;
      }
    }

    /** The number of steps from a header towards its ancestor before it meets the canonical path. */
    ghost function OffPath(hash: Hash, ancestor: nat): (k: nat)
      requires Rooted(headers, genesis) && hash in headers && ancestor <= headers[hash].number
      reads this
      ensures k <= ancestor
      decreases ancestor
    {
      var number := headers[hash].number;
      if ancestor == 0 || (number in canon && canon[number] == hash) then 0
      else assert Linked(headers, genesis, hash); 1 + OffPath(headers[hash].parent, ancestor - 1)
    }

    /** The ancestor with this number is canonical. */
    ghost predicate OnPath(hash: Hash, m: nat)
      requires Rooted(headers, genesis) && hash in headers && m <= headers[hash].number
      reads this
    {
      m in canon && canon[m] == AncestorAt(headers, genesis, hash, m)
    }

    /** The steps lead over ancestors that are not canonical, to one that is or to the end. */
    lemma OffPathIs(hash: Hash, ancestor: nat, m: nat)
      requires Rooted(headers, genesis) && hash in headers && ancestor <= headers[hash].number
      requires headers[hash].number - ancestor <= m <= headers[hash].number
      ensures headers[hash].number - OffPath(hash, ancestor) < m ==> !OnPath(hash, m)
      ensures headers[hash].number - OffPath(hash, ancestor) == m && OffPath(hash, ancestor) < ancestor ==>
                OnPath(hash, m)
      decreases ancestor
    {
      var number := headers[hash].number;
      if ancestor > 0 && m < number && !(number in canon && canon[number] == hash) {
        assert Linked(headers, genesis, hash);
        OffPathIs(headers[hash].parent, ancestor - 1, m);
      }
    }

    /** Finds the ancestor that many generations back and its number. A result is exactly that
        ancestor; there is one whenever the budget covers the steps off the canonical path, and the
        budget is charged exactly these, except that a single generation is free. */
    method GetAncestor(hash: Hash, number: nat, ancestor: nat, budget: nat) returns (r: Option<(Hash, nat)>, rest: nat)
      requires Valid()
      ensures ancestor > number ==> r == None && rest == budget
      ensures ancestor == 0 ==> r == Some((hash, number)) && rest == budget
      ensures GetHeader(hash, number) != None && ancestor == 1 <= number ==>
                r == Some((AncestorAt(headers, genesis, hash, number - 1), number - 1)) && rest == budget
      ensures GetHeader(hash, number) != None && 1 < ancestor <= number ==>
                var need := OffPath(hash, ancestor);
                if need <= budget
                then r == Some((AncestorAt(headers, genesis, hash, number - ancestor), number - ancestor))
                     && rest == budget - need
                else r == None && rest == 0
      ensures GetHeader(hash, number) == None && 0 < ancestor <= number ==>
                r == None && rest == if ancestor == 1 || budget == 0 then budget else budget - 1
    {
      if ancestor > number {
        return None, budget;
      }
      if ancestor == 1 {
        var header := GetHeader(hash, number);
        if header == None {
          return None, budget;
        }
        StepDown(headers, genesis, hash, number);
        return Some((header.value.parent, number - 1)), budget;
      }
      rest := budget;
      var at: Hash, n: nat, left: nat := hash, number, ancestor;
      while left != 0
        invariant left <= n && n - left == number - ancestor && left <= ancestor
        invariant GetHeader(hash, number) == None ==> at == hash && left == ancestor && rest == budget
        invariant GetHeader(hash, number) != None ==>
                    && at == AncestorAt(headers, genesis, hash, n)
                    && rest - OffPath(at, left) == budget - OffPath(hash, ancestor)
      {
        if n in canon && canon[n] == at {
          AncestorOfAncestor(headers, genesis, hash, n, n - left);
          AncestorOfAncestor(headers, genesis, current, n, n - left);
          return Some((canon[n - left], n - left)), rest;
        }
        if rest == 0 {
          return None, 0;
        }
        rest, left := rest - 1, left - 1;
        var header := GetHeader(at, n);
        if header == None {
          return None, rest;
        }
        StepDown(headers, genesis, hash, n);
        at, n := header.value.parent, n - 1;
      }
      r := Some((at, n));
    }
  }

  /** Over every run from the genesis: stored total difficulties are sums back to the genesis, the
      current header has the greatest, and the canonical map is exactly its ancestor path. */
  method Run(first: Header, hs: seq<Header>, coins: seq<bool>) returns (chain: HeaderChain)
    requires first.number == 0 && |coins| == |hs|
    requires forall h :: h in hs && h.hash == first.hash ==> h == first
    requires forall h, k :: h in hs && k in hs && h.hash == k.hash ==> h == k
    ensures Rooted(chain.headers, first.hash) && chain.current in chain.headers
    ensures forall h :: h in chain.headers ==> chain.headers[h] == first || chain.headers[h] in hs
    ensures forall h :: h in chain.headers ==>
              && h in chain.tds && chain.tds[h] == TotalDifficulty(chain.headers, first.hash, h)
              && TotalDifficulty(chain.headers, first.hash, h) <=
                   TotalDifficulty(chain.headers, first.hash, chain.current)
    ensures IsPath(chain.headers, first.hash, chain.canon, chain.current, chain.headers[chain.current].number)
    ensures forall n :: n in chain.canon ==> n <= chain.headers[chain.current].number
  {
    chain := new HeaderChain(first);
    for i := 0 to |hs|
      invariant fresh(chain) && chain.Valid() && chain.genesis == first.hash
      invariant forall h :: h in chain.headers ==> chain.headers[h] == first || chain.headers[h] in hs
    {
      assert hs[i] in hs;
      assert hs[i].hash in chain.headers ==> chain.headers[hs[i].hash].hash == hs[i].hash by {
        assert Linked(chain.headers, chain.genesis, hs[i].hash);
      }
      var status := chain.WriteHeader(hs[i], coins[i]);
    }
  }
}
