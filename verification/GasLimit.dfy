/** How a miner moves the gas limit of the next block (kernel/block_validator.go). */
module GasLimits {
  import opened Transactions

  const BOUND_DIVISOR := 1024
  const MIN_GAS_LIMIT := 5000

  function Wrap(x: int): Uint64 {
    x % TWO_64
  }

  /** The next gas limit, in unsigned 64-bit arithmetic. */
  function CalcGasLimit(limit: Uint64, used: Uint64, floor: Uint64, ceil: Uint64): Uint64 {
    var contrib := Wrap(used + used / 2) / BOUND_DIVISOR;
    var decay := Wrap(limit / BOUND_DIVISOR - 1);
    var next := Wrap(limit - decay + contrib);
    var least := if next < MIN_GAS_LIMIT then MIN_GAS_LIMIT else next;
    if least < floor then
      var up := Wrap(limit + decay);
      if up > floor then floor else up
    else if least > ceil then
      var down := Wrap(limit - decay);
      if down < ceil then ceil else down
    else least
  }

  /** Limits from five times the divisor up to where a 1024th more still fits into 64 bits. */
  predicate Sane(limit: nat) {
    5 * BOUND_DIVISOR <= limit && limit + limit / BOUND_DIVISOR <= TWO_64
  }

  /** What the next block may carry: a limit that moved by less than a 1024th and is not below the
      minimum. */
  predicate Legal(limit: nat, next: nat) {
    next - limit < limit / BOUND_DIVISOR && limit - next < limit / BOUND_DIVISOR && next >= MIN_GAS_LIMIT
  }

  /** The same in unbounded arithmetic. Half as much again as the gas used may wrap around, which
      makes the raise smaller but does no harm. */
  ghost function Exact(limit: nat, used: nat, floor: nat, ceil: nat): int {
    var contrib := Wrap(used + used / 2) / BOUND_DIVISOR;
    var decay := limit / BOUND_DIVISOR - 1;
    var next := limit - decay + contrib;
    if next < floor then (if limit + decay > floor then floor else limit + decay)
    else if next > ceil then (if limit - decay < ceil then ceil else limit - decay)
    else next
  }

  lemma NoWrap(limit: Uint64, used: Uint64, floor: Uint64, ceil: Uint64)
    requires Sane(limit) && used <= limit
    ensures CalcGasLimit(limit, used, floor, ceil) == Exact(limit, used, floor, ceil)
  {
    var contrib := Wrap(used + used / 2) / BOUND_DIVISOR;
    var decay := limit / BOUND_DIVISOR - 1;
    RaiseIsSmall(limit, used);
    hide Wrap;
    WrapsNot(decay);
    WrapsNot(limit - decay + contrib);
    WrapsNot(limit + decay);
    WrapsNot(limit - decay);
  }

  lemma WrapsNot(x: int)
    requires 0 <= x < TWO_64
    ensures Wrap(x) == x
  {
  }

  lemma RaiseIsSmall(limit: Uint64, used: Uint64)
    requires 5 * BOUND_DIVISOR <= limit && used <= limit
    ensures Wrap(used + used / 2) / BOUND_DIVISOR - (limit / BOUND_DIVISOR - 1) < limit / BOUND_DIVISOR
  {
    WrapIsLess(used + used / 2);
  }

  lemma WrapIsLess(x: nat)
    ensures Wrap(x) <= x
  {
  }

  /** From a sane limit every step is legal, whatever the floor and the ceiling; one that rises does
      not pass the ceiling unless the floor is above it. */
  lemma StepIsSmall(limit: Uint64, used: Uint64, floor: Uint64, ceil: Uint64)
    requires Sane(limit) && used <= limit
    ensures var next := CalcGasLimit(limit, used, floor, ceil);
            && Legal(limit, next) && (5 * BOUND_DIVISOR <= floor <= ceil ==> next >= 5 * BOUND_DIVISOR)
            && (floor <= ceil ==> next <= limit || next <= ceil)
  {
    hide Wrap;
    NoWrap(limit, used, floor, ceil);
    RaiseIsSmall(limit, used);
  }

  /** Whatever gas was used, whatever the floor from `least` on and the ceiling above it, the step is
      legal. */
  ghost predicate AlwaysLegal(limit: Uint64, least: Uint64) {
    forall used: Uint64, floor: Uint64, ceil: Uint64 ::
      used <= limit && least <= floor <= ceil ==> Legal(limit, CalcGasLimit(limit, used, floor, ceil))
  }

  /** Above the bound, a block without gas under the greatest floor makes the sum of limit and decay
      wrap around. */
  lemma HighLimitsFall(limit: Uint64)
    requires limit + limit / BOUND_DIVISOR > TWO_64
    ensures CalcGasLimit(limit, 0, TWO_64 - 1, TWO_64 - 1) == limit + limit / BOUND_DIVISOR - 1 - TWO_64
    ensures !Legal(limit, CalcGasLimit(limit, 0, TWO_64 - 1, TWO_64 - 1))
  {
    var decay := limit / BOUND_DIVISOR - 1;
    WrapsNot(0);
    WrapsNot(decay);
    WrapsNot(limit - decay);
    assert Wrap(limit + decay) == limit + decay - TWO_64;
  }

  /** Below five times the divisor, without floor and ceiling, a full block moves the limit too far,
      and below four times an empty one does. */
  lemma LowLimitsJump(limit: Uint64)
    requires limit < 5 * BOUND_DIVISOR
    ensures var used := if limit >= 4 * BOUND_DIVISOR then limit else 0;
            !Legal(limit, CalcGasLimit(limit, used, 0, TWO_64 - 1))
  {
    if limit >= 4 * BOUND_DIVISOR {
      FullBlockJumps(limit);
    } else {
      EmptyBlockFalls(limit);
    }
  }

  lemma FullBlockJumps(limit: Uint64)
    requires 4 * BOUND_DIVISOR <= limit < 5 * BOUND_DIVISOR
    ensures !Legal(limit, CalcGasLimit(limit, limit, 0, TWO_64 - 1))
  {
    hide Wrap;
    var contrib := (limit + limit / 2) / BOUND_DIVISOR;
    assert limit / BOUND_DIVISOR == 4;
    assert contrib == 6 || (contrib == 7 && limit > 4778);
    WrapsNot(limit + limit / 2);
    WrapsNot(3);
    WrapsNot(limit - 3 + contrib);
  }

  lemma EmptyBlockFalls(limit: Uint64)
    requires limit < 4 * BOUND_DIVISOR
    ensures CalcGasLimit(limit, 0, 0, TWO_64 - 1) == MIN_GAS_LIMIT
  {
    var decay := Wrap(limit / BOUND_DIVISOR - 1);
    assert Wrap(limit - decay) < MIN_GAS_LIMIT;
  }

  /** From five times the divisor on, under whatever floors there may be, a limit moves legally
      exactly if a 1024th more still fits into 64 bits. */
  lemma LegalExactly(limit: Uint64, least: Uint64)
    requires 5 * BOUND_DIVISOR <= limit
    ensures AlwaysLegal(limit, least) <==> limit + limit / BOUND_DIVISOR <= TWO_64
  {
    hide CalcGasLimit, Legal;
    if limit + limit / BOUND_DIVISOR <= TWO_64 {
      forall used: Uint64, floor: Uint64, ceil: Uint64 | used <= limit && least <= floor <= ceil
        ensures Legal(limit, CalcGasLimit(limit, used, floor, ceil))
      {
        StepIsSmall(limit, used, floor, ceil);
      }
    } else {
      HighLimitsFall(limit);
    }
  }

  /** Over all floors, the limits that always move legally are exactly the sane ones. */
  lemma SaneExactly(limit: Uint64)
    ensures AlwaysLegal(limit, 0) <==> Sane(limit)
  {
    hide CalcGasLimit, Legal;
    if limit < 5 * BOUND_DIVISOR {
      LowLimitsJump(limit);
    } else {
      LegalExactly(limit, 0);
    }
  }

  /** What the gas used adds: half as much again, in 1024ths. When that sum does not fit into 64 bits
      it loses TWO_64 / 1024. */
  function Raise(used: nat): int {
    (used + used / 2) / BOUND_DIVISOR - (if used + used / 2 < TWO_64 then 0 else TWO_64 / BOUND_DIVISOR)
  }

  lemma RaiseWraps(used: Uint64)
    ensures Raise(used) == Wrap(used + used / 2) / BOUND_DIVISOR >= 0
  {
    if used + used / 2 < TWO_64 {
      WrapsNot(used + used / 2);
    } else {
      WrapsOnce(used + used / 2);
    }
  }

  /** Above the ceiling the limit falls by a 1024th less one, but not below the ceiling; unless the
      gas used asks for a limit that is not above the ceiling any more. */
  lemma AboveCeiling(limit: Uint64, used: Uint64, floor: Uint64, ceil: Uint64)
    requires Sane(limit) && used <= limit && floor <= ceil < limit
    ensures var next, decay := CalcGasLimit(limit, used, floor, ceil), limit / BOUND_DIVISOR - 1;
            if limit + Raise(used) - decay > ceil
            then next >= ceil && next >= limit - decay && (next == ceil || next == limit - decay)
            else floor <= next <= ceil && (next == floor || next == limit + Raise(used) - decay)
  {
    hide Wrap;
    NoWrap(limit, used, floor, ceil);
    RaiseWraps(used);
    RaiseIsSmall(limit, used);
  }

  /** Below the floor it rises by as much, but not above the floor, unless the gas used asks for a
      limit that is not below the floor any more. */
  lemma BelowFloor(limit: Uint64, used: Uint64, floor: Uint64, ceil: Uint64)
    requires Sane(limit) && used <= limit < floor <= ceil
    ensures var next, decay := CalcGasLimit(limit, used, floor, ceil), limit / BOUND_DIVISOR - 1;
            if limit + Raise(used) - decay < floor
            then next <= floor && next <= limit + decay && (next == floor || next == limit + decay)
            else floor <= next <= ceil && (next == ceil || next == limit + Raise(used) - decay)
  {
    hide Wrap;
    NoWrap(limit, used, floor, ceil);
    RaiseWraps(used);
    RaiseIsSmall(limit, used);
  }

  /** Within the range the limit moves by exactly the difference of the raise and a 1024th less one,
      as far as the range goes; so it rises exactly if the raise is greater and there is room. */
  lemma WithinRange(limit: Uint64, used: Uint64, floor: Uint64, ceil: Uint64)
    requires Sane(limit) && used <= limit && floor <= limit <= ceil
    ensures var next, step := CalcGasLimit(limit, used, floor, ceil), Raise(used) - (limit / BOUND_DIVISOR - 1);
            && floor <= next <= ceil
            && (floor <= limit + step <= ceil ==> next == limit + step)
            && (limit + step < floor ==> next == floor)
            && (limit + step > ceil ==> next == ceil)
            && (next > limit <==> step > 0 && limit < ceil)
            && (next < limit <==> step < 0 && limit > floor)
  {
    hide Wrap;
    NoWrap(limit, used, floor, ceil);
    RaiseWraps(used);
    RaiseIsSmall(limit, used);
  }

  /** Under no floor and no ceiling, the gas used raises the next limit exactly if half as much again
      is, in 1024ths, more than the decay, and fits into 64 bits. */
  lemma RisesExactly(limit: Uint64, used: Uint64)
    requires Sane(limit) && used <= limit
    ensures CalcGasLimit(limit, used, 0, TWO_64 - 1) > limit <==>
              (used + used / 2) / BOUND_DIVISOR > limit / BOUND_DIVISOR - 1 && used + used / 2 < TWO_64
  {
    hide CalcGasLimit;
    WithinRange(limit, used, 0, TWO_64 - 1);
  }

  /** How far a limit is from the wanted range. */
  function Distance(limit: nat, floor: nat, ceil: nat): nat
    requires floor <= ceil
  {
    if limit < floor then floor - limit else if limit > ceil then limit - ceil else 0
  }

  /** Every block brings the limit nearer to the range by exactly a 1024th of it less one, or all the
      way if that is less, and it never leaves the range. */
  lemma StepIsNearer(limit: Uint64, used: Uint64, floor: Uint64, ceil: Uint64)
    requires Sane(limit) && used <= limit && 5 * BOUND_DIVISOR <= floor <= ceil
    ensures var d, d' := Distance(limit, floor, ceil), Distance(CalcGasLimit(limit, used, floor, ceil), floor, ceil);
            d' == (if d <= limit / BOUND_DIVISOR - 1 then 0 else d - (limit / BOUND_DIVISOR - 1))
  {
    hide Wrap;
    NoWrap(limit, used, floor, ceil);
    RaiseIsSmall(limit, used);
  }

  /** The least limit of which a 1024th more does not fit into 64 bits. */
  const FIRST_HIGH := 0xFFC0_0FFC_00FF_C011

  lemma FirstHighIsFirst(limit: nat)
    ensures limit < FIRST_HIGH <==> limit + limit / BOUND_DIVISOR <= TWO_64
  {
  }

  /** Ranges that no block leaves: the ceiling is not high; or the floor is below where a high limit can
      fall, and the ceiling is not the greatest number, unless the floor is below where that wraps to. */
  predicate Closed(floor: nat, ceil: nat) {
    || ceil < FIRST_HIGH
    || (floor <= FIRST_HIGH - (FIRST_HIGH / BOUND_DIVISOR - 1) && ceil < TWO_64 - 1)
    || floor <= TWO_64 / BOUND_DIVISOR - 3
  }

  ghost predicate Kept(floor: Uint64, ceil: Uint64) {
    forall limit: Uint64, used: Uint64 :: floor <= limit <= ceil && used <= limit ==>
      floor <= CalcGasLimit(limit, used, floor, ceil) <= ceil
  }

  lemma StepStays(limit: Uint64, used: Uint64, floor: Uint64, ceil: Uint64)
    requires 5 * BOUND_DIVISOR <= floor <= limit <= ceil && used <= limit && Closed(floor, ceil)
    ensures floor <= CalcGasLimit(limit, used, floor, ceil) <= ceil
  {
    FirstHighIsFirst(limit);
    if Sane(limit) {
      StepIsNearer(limit, used, floor, ceil);
    } else {
      hide Wrap;
      var contrib, decay := Wrap(used + used / 2) / BOUND_DIVISOR, limit / BOUND_DIVISOR - 1;
      assert contrib <= TWO_64 / BOUND_DIVISOR - 1;
      WrapsNot(decay);
      WrapsNot(limit - decay);
      if limit - decay + contrib < TWO_64 {
        WrapsNot(limit - decay + contrib);
      } else {
        WrapsOnce(limit - decay + contrib);
        WrapsOnce(limit + decay);
      }
    }
  }

  lemma WrapsOnce(x: int)
    requires TWO_64 <= x < 2 * TWO_64
    ensures Wrap(x) == x - TWO_64
  {
  }

  /** A block without gas takes a high limit whose decay reaches below the floor out of the range. */
  lemma FallsOut(limit: Uint64, floor: Uint64, ceil: Uint64)
    requires FIRST_HIGH <= limit <= ceil && limit - (limit / BOUND_DIVISOR - 1) < floor
    ensures CalcGasLimit(limit, 0, floor, ceil) < floor
  {
    hide Wrap;
    var decay := limit / BOUND_DIVISOR - 1;
    WrapsNot(0);
    WrapsNot(decay);
    WrapsNot(limit - decay);
    WrapsOnce(limit + decay);
  }

  /** Two thirds of the greatest limit used make the greatest limit wrap around. */
  lemma WrapsOut(floor: Uint64)
    requires floor > TWO_64 / BOUND_DIVISOR - 3
    ensures CalcGasLimit(TWO_64 - 1, 0xAAAA_AAAA_AAAA_AAAA, floor, TWO_64 - 1) < floor
  {
  }

  /** Exactly the closed ranges are kept, whatever the limit in them and the gas used. */
  lemma KeptExactly(floor: Uint64, ceil: Uint64)
    requires 5 * BOUND_DIVISOR <= floor <= ceil
    ensures Kept(floor, ceil) <==> Closed(floor, ceil)
  {
    hide CalcGasLimit;
    if Closed(floor, ceil) {
      forall limit: Uint64, used: Uint64 | floor <= limit <= ceil && used <= limit
        ensures floor <= CalcGasLimit(limit, used, floor, ceil) <= ceil
      {
        StepStays(limit, used, floor, ceil);
      }
    } else if floor > FIRST_HIGH - (FIRST_HIGH / BOUND_DIVISOR - 1) {
      FallsOut(if floor < FIRST_HIGH then FIRST_HIGH else floor, floor, ceil);
    } else {
      WrapsOut(floor);
    }
  }

  /** The limit after some blocks; `used` tells the gas used in each, at most its limit. */
  ghost function AfterBlocks(limit: Uint64, used: seq<nat>, floor: Uint64, ceil: Uint64): Uint64
    decreases |used|
  {
    if used == [] then limit
    else
      var before := AfterBlocks(limit, used[..|used| - 1], floor, ceil);
      var u := used[|used| - 1];
      CalcGasLimit(before, if u <= before then u else before, floor, ceil)
  }

  /** By how much the limit comes nearer at least, in every block until it is there. */
  function Pace(limit: nat, ceil: nat): int {
    (if limit < ceil then limit else ceil) / BOUND_DIVISOR - 1
  }

  /** What holds of the limit `end` some blocks after `limit`, when it came nearer by `nearer`. */
  ghost predicate Nearing(limit: Uint64, end: Uint64, nearer: int, floor: Uint64, ceil: Uint64)
    requires floor <= ceil
  {
    && (Sane(end) || floor <= end <= ceil) && end >= MIN_GAS_LIMIT
    && (limit > ceil ==> end >= floor) && (limit < floor ==> end >= limit)
    && Distance(end, floor, ceil) <=
         (if Distance(limit, floor, ceil) > nearer then Distance(limit, floor, ceil) - nearer else 0)
  }

  lemma PaceHolds(limit: Uint64, end: Uint64, nearer: nat, floor: Uint64, ceil: Uint64)
    requires 5 * BOUND_DIVISOR <= floor <= ceil && Nearing(limit, end, nearer, floor, ceil)
             && !(floor <= end <= ceil)
    ensures end / BOUND_DIVISOR - 1 >= Pace(limit, ceil)
  {
  }

  lemma NearingOn(limit: Uint64, end: Uint64, used: nat, nearer: nat, floor: Uint64, ceil: Uint64)
    requires 5 * BOUND_DIVISOR <= floor <= ceil && Closed(floor, ceil) && Pace(limit, ceil) >= 0 && used <= end
             && Nearing(limit, end, nearer, floor, ceil)
    ensures Nearing(limit, CalcGasLimit(end, used, floor, ceil), nearer + Pace(limit, ceil), floor, ceil)
  {
    hide CalcGasLimit, Closed;
    if floor <= end <= ceil {
      StepStays(end, used, floor, ceil);
    } else {
      PaceHolds(limit, end, nearer, floor, ceil);
      hide Pace;
      NextIsSane(end, used, floor, ceil);
      StepIsNearer(end, used, floor, ceil);
    }
  }

  lemma NextIsSane(limit: Uint64, used: nat, floor: Uint64, ceil: Uint64)
    requires Sane(limit) && used <= limit && 5 * BOUND_DIVISOR <= floor <= ceil && Closed(floor, ceil)
             && !(floor <= limit <= ceil)
    ensures var next := CalcGasLimit(limit, used, floor, ceil);
            && (Sane(next) || floor <= next <= ceil) && next >= MIN_GAS_LIMIT
            && (limit < floor ==> next >= limit) && (limit > ceil ==> next >= floor)
  {
    hide CalcGasLimit;
    StepIsSmall(limit, used, floor, ceil);
    if limit < floor {
      BelowFloor(limit, used, floor, ceil);
    } else {
      AboveCeiling(limit, used, floor, ceil);
    }
    FirstHighIsFirst(limit);
    FirstHighIsFirst(CalcGasLimit(limit, used, floor, ceil));
  }

  /** Along any chain from a sane limit, the distance to a closed range falls by the pace in every
      block: the limit is in the range after as many blocks as the pace goes into the distance, and
      from then on. */
  lemma {:induction false} Converges(limit: Uint64, used: seq<nat>, floor: Uint64, ceil: Uint64)
    requires Sane(limit) && 5 * BOUND_DIVISOR <= floor <= ceil && Closed(floor, ceil)
    ensures var end, nearer := AfterBlocks(limit, used, floor, ceil), |used| * Pace(limit, ceil);
            && Pace(limit, ceil) >= 4 && Nearing(limit, end, nearer, floor, ceil)
            && (nearer >= Distance(limit, floor, ceil) ==> floor <= end <= ceil)
    decreases |used|
  {
    hide CalcGasLimit;
    if used != [] {
      var front := used[..|used| - 1];
      Converges(limit, front, floor, ceil);
      hide Nearing, Closed, Pace;
      var before := AfterBlocks(limit, front, floor, ceil);
      OneMore(|front|, Pace(limit, ceil));
      NearingOn(limit, before, if used[|used| - 1] <= before then used[|used| - 1] else before,
                |front| * Pace(limit, ceil), floor, ceil);
    }
    NearEnough(limit, AfterBlocks(limit, used, floor, ceil), |used| * Pace(limit, ceil), floor, ceil);
  }

  lemma NearEnough(limit: Uint64, end: Uint64, nearer: int, floor: Uint64, ceil: Uint64)
    requires floor <= ceil && Nearing(limit, end, nearer, floor, ceil)
    ensures nearer >= Distance(limit, floor, ceil) ==> floor <= end <= ceil
  {
  }

  lemma OneMore(n: nat, pace: nat)
    ensures (n + 1) * pace == n * pace + pace >= 0
  {
  }
}
