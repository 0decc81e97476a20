/** When the pending list of an account comes out of a reset without a gap (kernel/tx_pool.go): what a
    reorganisation put back was added and promoted first, and the list may have been truncated, before
    it is adjusted to the new chain state. */
module Recovery {
  import opened Wrappers
  import opened Transactions
  import opened TxLists
  import opened PoolSpec

  /** What a cut from the top leaves of a list. */
  ghost predicate Front(part: Items, m: Items) {
    Part(part, m) && forall k, l :: k in m && l in part && k < l ==> k in part
  }

  /** The part of the queue that is promoted from the state nonce on. */
  function ReadyPart(list: Items, start: nat, promoted: bool): Items {
    if promoted then Below(list, ReadyEnd(list, start)) else map[]
  }

  /** The run that starts at the state nonce, if there is one; from a lower pending nonce there is
      none. */
  lemma ReadyShape(list: Items, s: nat, start: nat)
    requires (forall k :: k in list ==> s <= k < TWO_64) && start <= s
    ensures var run, end := Below(list, ReadyEnd(list, start)), ReadyEnd(list, start);
            if start == s && s in list
            then s < end <= TWO_64 && end !in list && (forall k :: k in run <==> s <= k < end) && Part(run, list)
            else run == map[]
  {
    if list != map[] && Least(list) <= start {
      assert Least(list) == s == start;
      assert ReadyEnd(list, start) - 1 in list;
    }
  }

  /** What stays pending: everything from the state nonce up to the first transaction that is too dear,
      if the one at the state nonce is there and not too dear itself. */
  lemma StaysMeans(m: Items, s: nat, dear: Tx -> bool)
    ensures var stay := StillPending(m, s, dear);
            && (stay != map[] <==> s in m && !dear(m[s]))
            && forall k {:trigger k in stay} :: k in stay <==>
                 s in m && s <= k && k in m && forall j :: j in m && s <= j <= k ==> !dear(m[j])
  {
    var list := From(m, s);
    var kept := Kept(list, true, dear);
    assert forall j :: j in Where(list, dear) <==> j in m && s <= j && dear(m[j]);
    if Where(list, dear) != map[] {
      var low := Least(Where(list, dear));
      assert forall k :: k in kept <==> k in m && s <= k < low;
    } else {
      assert forall k :: k in kept <==> k in m && s <= k;
    }
    assert s in kept <==> s in m && !dear(m[s]);
  }

  /** The account does not come out of the reset without a gap. Its pending nonce fell below the state
      nonce, by a removal or a cut; or a run that reaches the last nonce was promoted and not cut
      again; or a run was promoted that ends before the old pending list begins, and of that list the
      first transaction is still there and affordable. `cut` is what truncation left of the list. */
  ghost predicate Spoiled(p: Items, list: Items, cut: Items, first: nat, pn: nat, s: nat, promoted: bool,
                          dear: Tx -> bool)
  {
    var end := ReadyEnd(list, s);
    || pn != s
    || (exists k :: k in p && k < s && k !in cut)
    || (promoted && s in list && end == TWO_64 && (TWO_64 - 1 in cut || (s !in cut && s != 0)))
    || (promoted && s in list && first in p && first in cut && end < first && !dear(p[first]))
  }

  /** For one account that comes out of the reinjection with a run of pending nonces. */
  ghost predicate Injected(p: Items, list: Items, cut: Items, first: nat, pn: nat, n: nat, s: nat, promoted: bool,
                           dear: Tx -> bool)
  {
    var run, end := ReadyPart(list, pn, promoted), ReadyEnd(list, pn);
    && RunFrom(p, first) && (forall k :: k in list ==> s <= k < TWO_64 && k !in p && !dear(list[k]))
    && s < TWO_64 && pn <= s && (pn < s ==> forall k :: k in p ==> k < s)
    && Front(cut, p + run)
    && (run != map[] ==> end > 0)
    && FallsTo(p + run, cut, if run == map[] then pn else Next(end - 1), n)
  }

  ghost predicate Recovers(cut: Items, n: nat, s: nat, dear: Tx -> bool) {
    var stay := StillPending(cut, s, dear);
    if stay == map[] then n == s else Unbroken(stay, s)
  }

  /** Without a promotion only the fall of the pending nonce matters. */
  lemma UnpromotedRecovers(p: Items, list: Items, cut: Items, first: nat, pn: nat, n: nat, s: nat, promoted: bool,
                           dear: Tx -> bool)
    requires Injected(p, list, cut, first, pn, n, s, promoted, dear) && ReadyPart(list, pn, promoted) == map[]
    ensures Recovers(cut, n, s, dear) <==> pn == s && forall k :: k in p && k < s ==> k in cut
  {
    hide StillPending;
    assert p + map[] == p;
    StaysMeans(cut, s, dear);
    var x: nat :| x < TWO_64 && GapFreeAt(p, first, x);
    var stay := StillPending(cut, s, dear);
    if pn < s {
      assert stay == map[];
    } else if k :| k in p && k < s && k !in cut {
      assert stay == map[];
      assert n <= k;
    } else {
      assert Unbroken(stay, s);
    }
  }

  /** The promoted run ends before the old list begins, or comes after all of it. */
  lemma RunBeside(p: Items, first: nat, s: nat, end: nat)
    requires RunFrom(p, first) && s < end && forall k :: s <= k < end ==> k !in p
    ensures (forall k :: k in p ==> k < s) || (first in p && end <= first && forall k :: k in p ==> first <= k)
  {
    var x: nat :| x < TWO_64 && GapFreeAt(p, first, x);
    if k :| k in p && k >= s {
      assert first in p;
      assert first < s ==> s in p;
    }
  }

  lemma HoleBreaks(stay: Items, s: nat, k: nat, hole: nat, l: nat)
    requires k in stay && l in stay && s <= k <= hole <= l && hole !in stay
    ensures !Unbroken(stay, s)
  {
  }

  /** What is exactly a stretch of nonces from the state nonce on has no hole, unless it reaches the
      last nonce. */
  lemma StretchUnbroken(stay: Items, s: nat, end: nat)
    requires (forall k :: k in stay <==> s <= k < end) && s < end <= TWO_64
    ensures Unbroken(stay, s) <==> end != TWO_64
  {
    assert end - 1 in stay;
  }

  /** The old list is below the state nonce and was cut: nothing stays. */
  lemma PromotedLost(p: Items, run: Items, cut: Items, s: nat, n: nat, next: nat, dear: Tx -> bool, k: nat)
    requires (forall k :: k in p ==> k < s) && s in run && Front(cut, p + run) && FallsTo(p + run, cut, next, n)
    requires k in p && k !in cut
    ensures !Recovers(cut, n, s, dear)
  {
    hide StillPending, Unbroken;
    StaysMeans(cut, s, dear);
    assert k in p + run && s in p + run;
    assert s !in cut && n <= k;
  }

  /** Where the front part of a list ends that has a run on top. */
  lemma {:induction false} FrontEnd(run: Items, cut: Items, s: nat, end: nat) returns (e: nat)
    requires s <= end && (forall k :: k in run <==> s <= k < end)
    requires (forall k :: k in cut && s <= k ==> k in run)
    requires forall k, l :: k in run && l in cut && k < l ==> k in cut
    ensures s <= e <= end && forall k :: s <= k ==> (k in cut <==> k < e)
    decreases end - s
  {
    e := s;
    while e in cut
      invariant s <= e <= end && forall k :: s <= k < e ==> k in cut
      decreases end - e
    {
      e := e + 1;
    }
  }

  /** The old list is below the state nonce. */
  lemma PromotedAbove(p: Items, run: Items, cut: Items, s: nat, end: nat, n: nat, dear: Tx -> bool)
    requires s < end <= TWO_64 && (forall k :: k in run <==> s <= k < end) && forall k :: k in run ==> !dear(run[k])
    requires (forall k :: k in p ==> k < s) && Front(cut, p + run) && FallsTo(p + run, cut, Next(end - 1), n)
    ensures Recovers(cut, n, s, dear) <==>
              && (forall k :: k in p ==> k in cut)
              && !(end == TWO_64 && (TWO_64 - 1 in cut || (s !in cut && s != 0)))
  {
    hide StillPending, Unbroken;
    if k :| k in p && k !in cut {
      PromotedLost(p, run, cut, s, n, Next(end - 1), dear, k);
    } else {
      StaysMeans(cut, s, dear);
      var stay := StillPending(cut, s, dear);
      assert forall k :: k in run ==> k in p + run;
      var e := FrontEnd(run, cut, s, end);
      if s < e {
        assert forall k :: k in cut && s <= k ==> cut[k] == run[k];
        StretchUnbroken(stay, s, e);
      } else {
        assert s in p + run && s !in cut;
        assert forall k :: k in p + run && k !in cut ==> s <= k;
      }
    }
  }

  /** The old list begins behind a hole, and its first transaction stays. */
  lemma PromotedHole(p: Items, run: Items, cut: Items, first: nat, s: nat, end: nat, dear: Tx -> bool)
    requires (forall k :: k in p ==> first <= k) && first in p && s < end < first
    requires (forall k :: k in run <==> s <= k < end) && (forall k :: k in run ==> !dear(run[k])) && !dear(p[first])
    requires Front(cut, p + run) && first in cut
    ensures var stay := StillPending(cut, s, dear); first in stay && end !in stay && end !in cut && !Unbroken(stay, s)
  {
    hide StillPending, Unbroken;
    StaysMeans(cut, s, dear);
    var stay := StillPending(cut, s, dear);
    assert s in p + run && s in cut;
    assert forall j :: j in cut && s <= j < first ==> j in run && cut[j] == run[j];
    assert s in stay && first in stay && end !in p + run;
    HoleBreaks(stay, s, s, end, first);
  }

  /** The old list begins right behind the run, or is cut or too dear there. */
  lemma PromotedClosed(p: Items, run: Items, cut: Items, first: nat, s: nat, end: nat, n: nat, dear: Tx -> bool)
    requires RunFrom(p, first) && first in p && s < end <= first && forall k :: k in run <==> s <= k < end
    requires (forall k :: k in run ==> !dear(run[k])) && (forall k :: k in p ==> first <= k < TWO_64 - 1)
    requires Front(cut, p + run) && FallsTo(p + run, cut, Next(end - 1), n)
    requires first !in cut || end == first || dear(p[first])
    ensures Recovers(cut, n, s, dear)
  {
    hide StillPending;
    StaysMeans(cut, s, dear);
    var x: nat :| x < TWO_64 && GapFreeAt(p, first, x);
    assert s in p + run && first in p + run;
    if s !in cut {
      assert first !in cut;
    } else {
      assert cut[s] == run[s];
      assert first !in cut ==> forall k :: k in cut ==> k < first;
    }
  }

  /** The old list begins behind the run. */
  lemma PromotedBelow(p: Items, run: Items, cut: Items, first: nat, s: nat, end: nat, n: nat, dear: Tx -> bool)
    requires RunFrom(p, first) && first in p && s < end <= first && forall k :: k in run <==> s <= k < end
    requires (forall k :: k in run ==> !dear(run[k])) && (forall k :: k in p ==> first <= k < TWO_64 - 1)
    requires Front(cut, p + run) && FallsTo(p + run, cut, Next(end - 1), n)
    ensures Recovers(cut, n, s, dear) <==> !(first in cut && end < first && !dear(p[first]))
    ensures first in cut && end < first && !dear(p[first]) ==>
              var stay := StillPending(cut, s, dear); first in stay && end !in stay && end !in cut
  {
    hide StillPending, Unbroken, RunFrom, Front, FallsTo;
    if first in cut && end < first && !dear(p[first]) {
      PromotedHole(p, run, cut, first, s, end, dear);
    } else {
      PromotedClosed(p, run, cut, first, s, end, n, dear);
    }
  }

  /** The account comes out of the reset without a gap exactly if it is not spoiled. */
  lemma RecoversExactly(p: Items, list: Items, cut: Items, first: nat, pn: nat, n: nat, s: nat, promoted: bool,
                        dear: Tx -> bool)
    requires Injected(p, list, cut, first, pn, n, s, promoted, dear)
    ensures Recovers(cut, n, s, dear) <==> !Spoiled(p, list, cut, first, pn, s, promoted, dear)
  {
    hide Recovers, FallsTo, Front;
    ReadyShape(list, s, pn);
    var run, end := ReadyPart(list, pn, promoted), ReadyEnd(list, pn);
    if run == map[] {
      UnpromotedRecovers(p, list, cut, first, pn, n, s, promoted, dear);
    } else {
      RunBeside(p, first, s, end);
      if forall k :: k in p ==> k < s {
        PromotedAbove(p, run, cut, s, end, n, dear);
      } else {
        RunBounds(p, first);
        PromotedBelow(p, run, cut, first, s, end, n, dear);
      }
    }
  }

  lemma RunBounds(p: Items, first: nat)
    requires RunFrom(p, first)
    ensures forall k :: k in p ==> first <= k < TWO_64 - 1
  {
  }

  /** When nothing was cut, the state before the promotion decides. */
  lemma SpoiledUncut(p: Items, list: Items, first: nat, pn: nat, s: nat, promoted: bool, dear: Tx -> bool)
    requires RunFrom(p, first) && (forall k :: k in list ==> s <= k < TWO_64 && k !in p) && pn <= s
    ensures Spoiled(p, list, p + ReadyPart(list, pn, promoted), first, pn, s, promoted, dear) <==>
              || pn != s
              || (promoted && s in list
                  && (ReadyEnd(list, s) == TWO_64 || (first in p && ReadyEnd(list, s) < first && !dear(p[first]))))
  {
    ReadyShape(list, s, pn);
  }

  /** A pending nonce is the state nonce, or has fallen below it with everything above it gone. */
  ghost predicate SunkAt(m: Items, n: nat, s: nat) {
    n <= s && (n < s ==> forall k :: k in m ==> k < s)
  }

  lemma SunkFalls(m: Items, m': Items, n: nat, n': nat, s: nat, first: nat)
    requires RunFrom(m, first) && RunFrom(m', first) && SunkAt(m, n, s) && FallsTo(m, m', n, n')
    ensures SunkAt(m', n', s)
  {
    if n' < n {
      forall k | k in m' ensures k < n' {
        RunHas(m', first, n', k);
      }
    }
  }

  lemma RunHas(m: Items, first: nat, n: nat, k: nat)
    requires RunFrom(m, first) && k in m && first <= n && n !in m
    ensures k < n
  {
  }

  /** The lists after the reset show what spoiled the account: no list and a pending nonce that is too
      low, the last nonce, or a nonce that is missing from both lists below one that is pending. */
  ghost predicate Torn(p: Items, q: Items, n: nat, s: nat) {
    || (p == map[] && n < s)
    || TWO_64 - 1 in p
    || exists hole, k :: HoleAt(p, q, s, hole, k)
  }

  ghost predicate HoleAt(p: Items, q: Items, s: nat, hole: nat, k: nat) {
    s <= hole < k && k in p && hole !in p && hole !in q
  }

  lemma SpoiledTears(p: Items, list: Items, cut: Items, first: nat, pn: nat, n: nat, s: nat, promoted: bool,
                     dear: Tx -> bool, q: Items)
    requires Injected(p, list, cut, first, pn, n, s, promoted, dear)
    requires Spoiled(p, list, cut, first, pn, s, promoted, dear)
    requires promoted ==> q.Keys <= list.Keys + cut.Keys
    ensures Torn(StillPending(cut, s, dear), q, n, s)
  {
    hide StillPending;
    ReadyShape(list, s, pn);
    StaysMeans(cut, s, dear);
    var run, end := ReadyPart(list, pn, promoted), ReadyEnd(list, pn);
    if run == map[] {
      assert p + run == p;
      SpoiledEmpty(p, cut, first, pn, n, s, dear);
    } else {
      RunBeside(p, first, s, end);
      if forall k :: k in p ==> k < s {
        TornAbove(p, run, cut, s, end, n, dear);
      } else {
        RunBounds(p, first);
        PromotedBelow(p, run, cut, first, s, end, n, dear);
        assert HoleAt(StillPending(cut, s, dear), q, s, end, first);
      }
    }
  }

  lemma SpoiledEmpty(p: Items, cut: Items, first: nat, pn: nat, n: nat, s: nat, dear: Tx -> bool)
    requires RunFrom(p, first) && Front(cut, p) && FallsTo(p, cut, pn, n) && SunkAt(p, pn, s)
    requires pn != s || exists k :: k in p && k < s && k !in cut
    ensures StillPending(cut, s, dear) == map[] && n < s
  {
    hide StillPending;
    StaysMeans(cut, s, dear);
    if pn == s {
      var k :| k in p && k < s && k !in cut;
      assert s in cut ==> k in cut;
    }
  }

  lemma TornAbove(p: Items, run: Items, cut: Items, s: nat, end: nat, n: nat, dear: Tx -> bool)
    requires s < end <= TWO_64 && (forall k :: k in run <==> s <= k < end) && forall k :: k in run ==> !dear(run[k])
    requires (forall k :: k in p ==> k < s) && Front(cut, p + run) && FallsTo(p + run, cut, Next(end - 1), n)
    requires || (exists k :: k in p && k !in cut)
             || (end == TWO_64 && (TWO_64 - 1 in cut || (s !in cut && s != 0)))
    ensures var stay := StillPending(cut, s, dear); (stay == map[] && n < s) || TWO_64 - 1 in stay
  {
    hide StillPending;
    StaysMeans(cut, s, dear);
    assert s in p + run;
    if k :| k in p && k !in cut {
      assert k in p + run && s !in cut && n <= k;
    } else if s in cut {
      assert TWO_64 - 1 in cut;
      assert forall k :: k in cut && s <= k ==> cut[k] == run[k];
    }
  }
}
