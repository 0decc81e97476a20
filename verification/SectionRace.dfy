/** Two loops that set the number of valid sections at the same time (kernel/chain_indexer.go): one runs
    in an announcement, under the lock, the other in a failed reset, without it. They share the count
    and the index, and every access of the one may come between two of the other. */
module SectionRaces {
  import opened ChainIndexers

  datatype Who = Announcement | FailedReset

  /** The shared count and index, where the two loops stand and where they lead. */
  datatype Race = Race(count: nat, heads: map<nat, Hash>, announcing: Unwind, resetting: Unwind, target: nat) {
    function At(who: Who): Unwind {
      if who == Announcement then announcing else resetting
    }

    function Other(who: Who): Unwind {
      if who == Announcement then resetting else announcing
    }

    /** The announcement keeps the first sections, the reset none. */
    function Target(who: Who): nat {
      if who == Announcement then target else 0
    }

    /** The next access of one of the loops. */
    function Next(who: Who): Race {
      var (u, c, h) := Accessed(At(who), Target(who), count, heads);
      if who == Announcement then Race(c, h, u, resetting, target) else Race(c, h, announcing, u, target)
    }

    /** The head is about to be removed. */
    ghost predicate Due(u: Unwind, section: nat) {
      (u == Read && section == count) || u == Remove(section)
    }

    /** No head is stored at or beyond the count, but for those about to be removed; nor beyond what a
        loop is about to write. Once the reset is over, no other head is stored at all. */
    ghost predicate Sound() {
      && count < TWO_64
      && (forall s :: s in heads ==> s < count || Due(announcing, s) || Due(resetting, s))
      && Bounded(Announcement) && Bounded(FailedReset) && target < TWO_64
      && (resetting == Finished ==> forall s :: s in heads ==> Due(announcing, s))
    }

    ghost predicate Bounded(who: Who) {
      && (At(who).Put? ==> At(who).count < TWO_64 && forall s :: s in heads ==> s < At(who).count || Due(Other(who), s))
      && (At(who) == Last ==> forall s :: s in heads ==> s < Target(who) || Due(Other(who), s))
    }

    /** The loop writes a lower count while the other has written but not yet read it, and the head at
        the count is still there. */
    predicate Strands(who: Who) {
      && Other(who) == Read && count in heads
      && ((At(who).Put? && At(who).count > 0 && At(who).count - 1 < count) || (At(who) == Last && Target(who) < count))
    }
  }

  /** An access keeps the heads below the count exactly if it does not strand one. */
  lemma AccessSound(r: Race, who: Who)
    requires r.Sound()
    ensures r.Next(who).Sound() <==> !r.Strands(who)
  {
    var n := r.Next(who);
    if r.Strands(who) {
      assert r.count in n.heads && !n.Due(n.announcing, r.count) && !n.Due(n.resetting, r.count);
    }
  }

  /** The race after some accesses, in any order. */
  function After(r: Race, steps: seq<Who>): Race
    decreases |steps|
  {
    if steps == [] then r else After(r.Next(steps[0]), steps[1..])
  }

  /** Some access of the run strands a head. */
  predicate Stranding(r: Race, steps: seq<Who>)
    decreases |steps|
  {
    steps != [] && (r.Strands(steps[0]) || Stranding(r.Next(steps[0]), steps[1..]))
  }

  /** The race is sound after every access of the run. */
  ghost predicate Throughout(r: Race, steps: seq<Who>)
    decreases |steps|
  {
    r.Sound() && (steps != [] ==> Throughout(r.Next(steps[0]), steps[1..]))
  }

  /** Over every interleaving of the two loops: no head gets beyond the count exactly if no access
      strands one. */
  lemma {:induction false} SoundExactly(r: Race, steps: seq<Who>)
    requires r.Sound()
    ensures Throughout(r, steps) <==> !Stranding(r, steps)
    ensures Throughout(r, steps) ==> After(r, steps).Sound()
    decreases |steps|
  {
    hide Race.Sound, Race.Strands;
    if steps != [] {
      AccessSound(r, steps[0]);
      if !r.Strands(steps[0]) {
        SoundExactly(r.Next(steps[0]), steps[1..]);
      }
    }
  }

  /** The count is what the loop that ends last wrote. */
  lemma {:induction false} LastWrites(r: Race, steps: seq<Who>)
    requires r.announcing == Finished && r.resetting == Finished ==> r.count == 0 || r.count == r.target
    ensures var end := After(r, steps);
            && end.target == r.target
            && (end.announcing == Finished && end.resetting == Finished ==> end.count == 0 || end.count == r.target)
    decreases |steps|
  {
    if steps != [] {
      LastWrites(r.Next(steps[0]), steps[1..]);
    }
  }

  /** When both loops are over and nothing was stranded, no head is left at all. So the index is complete,
      with a head for every section that is counted, exactly if the count is zero: the reset wrote it
      last, or the announcement left no section either. */
  lemma RaceEnds(r: Race, steps: seq<Who>)
    requires r.Sound() && (r.announcing != Finished || r.resetting != Finished) && !Stranding(r, steps)
    requires After(r, steps).announcing == Finished && After(r, steps).resetting == Finished
    ensures var end := After(r, steps);
            && end.heads == map[] && (end.count == 0 || end.count == r.target)
            && ((forall s :: 0 <= s < end.count ==> s in end.heads) <==> end.count == 0)
  {
    SoundExactly(r, steps);
    LastWrites(r, steps);
    var end := After(r, steps);
    assert end.heads.Keys == {};
    assert end.count > 0 ==> 0 !in end.heads;
  }

  /** Two loops that start on an index of two sections or more strand a head when the one writes the count
      between the write and the read of the other. */
  lemma BothStrand(n: nat, heads: map<nat, Hash>, target: nat)
    requires 2 <= n < TWO_64 && target < n - 1 && forall s :: s in heads <==> s < n
    ensures var r := Race(n, heads, Test, Test, target);
            r.Sound() && Stranding(r, [Announcement, Announcement, Announcement, FailedReset, FailedReset, FailedReset])
  {
    var r := Race(n, heads, Test, Test, target);
    var r1 := r.Next(Announcement);
    var r2 := r1.Next(Announcement);
    var r3 := r2.Next(Announcement);
    var r4 := r3.Next(FailedReset);
    var r5 := r4.Next(FailedReset);
    assert r5.Strands(FailedReset);
    var steps := [Announcement, Announcement, Announcement, FailedReset, FailedReset, FailedReset];
    Later(r, steps);
    Later(r1, steps[1..]);
    Later(r2, steps[2..]);
    Later(r3, steps[3..]);
    Later(r4, steps[4..]);
  }

  lemma Later(r: Race, steps: seq<Who>)
    requires steps != []
    ensures Stranding(r, steps) <==> r.Strands(steps[0]) || Stranding(r.Next(steps[0]), steps[1..])
    ensures After(r, steps) == After(r.Next(steps[0]), steps[1..])
  {
  }

  /** While an announcement stands before its last write, a reset takes the whole index away. */
  lemma {:induction false} ResetAlone(r: Race) returns (steps: seq<Who>)
    requires r.announcing == Last && r.resetting == Test && forall s :: s in r.heads ==> s < r.count
    ensures After(r, steps) == Race(0, map[], Last, Finished, r.target) && !Stranding(r, steps)
    decreases r.count
  {
    if r.count == 0 {
      assert r.heads.Keys == {};
      steps := [FailedReset, FailedReset];
      var r1 := r.Next(FailedReset);
      assert r1.Next(FailedReset) == Race(0, map[], Last, Finished, r.target);
      Later(r, steps);
      Later(r1, steps[1..]);
    } else {
      var r1 := r.Next(FailedReset);
      var r2 := r1.Next(FailedReset);
      var r3 := r2.Next(FailedReset);
      var r4 := r3.Next(FailedReset);
      var r5 := r4.Next(FailedReset);
      assert r5 == Race(r.count - 1, r.heads - {r.count - 1}, Last, Test, r.target);
      var rest := ResetAlone(r5);
      Prepend(r4, FailedReset, rest);
      Prepend(r3, FailedReset, [FailedReset] + rest);
      Prepend(r2, FailedReset, [FailedReset] + ([FailedReset] + rest));
      Prepend(r1, FailedReset, [FailedReset] + ([FailedReset] + ([FailedReset] + rest)));
      steps := [FailedReset] + ([FailedReset] + ([FailedReset] + ([FailedReset] + ([FailedReset] + rest))));
      Prepend(r, FailedReset, [FailedReset] + ([FailedReset] + ([FailedReset] + ([FailedReset] + rest))));
    }
  }

  lemma Prepend(r: Race, who: Who, rest: seq<Who>)
    ensures After(r, [who] + rest) == After(r.Next(who), rest)
    ensures Stranding(r, [who] + rest) <==> r.Strands(who) || Stranding(r.Next(who), rest)
  {
    assert ([who] + rest)[1..] == rest;
  }

  lemma {:induction false} AppendStep(r: Race, steps: seq<Who>, who: Who)
    ensures After(r, steps + [who]) == After(r, steps).Next(who)
    ensures Stranding(r, steps + [who]) <==> Stranding(r, steps) || After(r, steps).Strands(who)
    decreases |steps|
  {
    var all := steps + [who];
    if steps == [] {
      assert all == [who] + [];
      Prepend(r, who, []);
    } else {
      assert all[1..] == steps[1..] + [who] && all[0] == steps[0];
      AppendStep(r.Next(steps[0]), steps[1..], who);
    }
  }

  /** An announcement that writes last brings back a count without heads: from any complete index that it
      leaves with a section or more, the run ends with that many sections counted and none stored. */
  lemma CountWithoutHeads(r: Race) returns (steps: seq<Who>)
    requires r.announcing == Last && r.resetting == Test && r.count == r.target > 0
    requires forall s :: s in r.heads <==> s < r.count
    ensures After(r, steps) == Race(r.target, map[], Finished, Finished, r.target) && !Stranding(r, steps)
  {
    var rest := ResetAlone(r);
    AppendStep(r, rest, Announcement);
    steps := rest + [Announcement];
  }
}
