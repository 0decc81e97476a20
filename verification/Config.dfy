/** Chain configurations: at which heights forks activate, and when two configurations agree. */
module Configs {
  import opened Wrappers

  /** A fork height is None when the fork never activates. */
  datatype Config = Config(
    chainId: Option<int>, homestead: Option<int>, daoFork: Option<int>, daoSupport: bool, eip150: Option<int>,
    eip155: Option<int>, eip158: Option<int>, byzantium: Option<int>, constantinople: Option<int>, ewasm: Option<int>)

  predicate IsForked(s: Option<int>, head: int) {
    s != None && s.value <= head
  }

  predicate IsForkIncompatible(s1: Option<int>, s2: Option<int>, head: int) {
    (IsForked(s1, head) || IsForked(s2, head)) && s1 != s2
  }

  datatype What =
    | Homestead | DaoFork | DaoSupport | Eip150 | Eip155 | Eip158 | ChainId | Byzantium | Constantinople | Ewasm

  datatype CompatError = CompatError(what: What, stored: Option<int>, wanted: Option<int>, rewindTo: nat)

  /** The earlier of two fork heights. */
  function Earlier(s1: Option<int>, s2: Option<int>): Option<int> {
    if s1 == None then s2 else if s2 == None || s1.value < s2.value then s1 else s2
  }

  function NewCompatError(what: What, stored: Option<int>, wanted: Option<int>): CompatError {
    var rew := Earlier(stored, wanted);
    CompatError(what, stored, wanted, if rew != None && rew.value > 0 then rew.value - 1 else 0)
  }

  /** The first mismatch that matters at a height. */
  function Mismatch(c: Config, d: Config, head: int): Option<CompatError> {
    if IsForkIncompatible(c.homestead, d.homestead, head) then Some(NewCompatError(Homestead, c.homestead, d.homestead))
    else if IsForkIncompatible(c.daoFork, d.daoFork, head) then Some(NewCompatError(DaoFork, c.daoFork, d.daoFork))
    else if IsForked(c.daoFork, head) && c.daoSupport != d.daoSupport then
      Some(NewCompatError(DaoSupport, c.daoFork, d.daoFork))
    else if IsForkIncompatible(c.eip150, d.eip150, head) then Some(NewCompatError(Eip150, c.eip150, d.eip150))
    else if IsForkIncompatible(c.eip155, d.eip155, head) then Some(NewCompatError(Eip155, c.eip155, d.eip155))
    else if IsForkIncompatible(c.eip158, d.eip158, head) then Some(NewCompatError(Eip158, c.eip158, d.eip158))
    else if IsForked(c.eip158, head) && c.chainId != d.chainId then Some(NewCompatError(ChainId, c.eip158, d.eip158))
    else if IsForkIncompatible(c.byzantium, d.byzantium, head) then
      Some(NewCompatError(Byzantium, c.byzantium, d.byzantium))
    else if IsForkIncompatible(c.constantinople, d.constantinople, head) then
      Some(NewCompatError(Constantinople, c.constantinople, d.constantinople))
    else if IsForkIncompatible(c.ewasm, d.ewasm, head) then Some(NewCompatError(Ewasm, c.ewasm, d.ewasm))
    else None
  }

  predicate Compatible(c: Config, d: Config, head: int) {
    Mismatch(c, d, head) == None
  }

  /** The rules that a configuration puts in force at a height. */
  datatype Rules = Rules(homestead: bool, dao: Option<bool>, eip150: bool, eip155: bool, eip158: Option<Option<int>>,
                         byzantium: bool, constantinople: bool, ewasm: bool)

  function RulesAt(c: Config, head: int): Rules {
    Rules(IsForked(c.homestead, head), if IsForked(c.daoFork, head) then Some(c.daoSupport) else None,
          IsForked(c.eip150, head), IsForked(c.eip155, head),
          if IsForked(c.eip158, head) then Some(c.chainId) else None,
          IsForked(c.byzantium, head), IsForked(c.constantinople, head), IsForked(c.ewasm, head))
  }

  function ForkOf(c: Config, what: What): Option<int> {
    match what
    case Homestead => c.homestead
    case DaoFork => c.daoFork
    case DaoSupport => c.daoFork
    case Eip150 => c.eip150
    case Eip155 => c.eip155
    case Eip158 => c.eip158
    case ChainId => c.eip158
    case Byzantium => c.byzantium
    case Constantinople => c.constantinople
    case Ewasm => c.ewasm
  }

  /** Two configurations disagree about something that is in force at a height. */
  predicate Conflict(c: Config, d: Config, what: What, head: int) {
    match what
    case DaoSupport => IsForked(c.daoFork, head) && c.daoSupport != d.daoSupport
    case ChainId => IsForked(c.eip158, head) && c.chainId != d.chainId
    case _ => IsForkIncompatible(ForkOf(c, what), ForkOf(d, what), head)
  }

  lemma MismatchIs(c: Config, d: Config, head: int)
    requires !Compatible(c, d, head)
    ensures var e := Mismatch(c, d, head).value;
            Conflict(c, d, e.what, head) && e == NewCompatError(e.what, ForkOf(c, e.what), ForkOf(d, e.what))
  {
  }

  lemma ConflictIs(c: Config, d: Config, what: What, head: int)
    requires Conflict(c, d, what, head)
    ensures !Compatible(c, d, head)
  {
  }

  /** A mismatch at a height is a mismatch at every height from the one behind the rewind point on. */
  lemma MismatchFrom(c: Config, d: Config, head: int, k: int)
    requires Mismatch(c, d, head) != None && k > Mismatch(c, d, head).value.rewindTo
    ensures !Compatible(c, d, k)
  {
    hide Mismatch;
    MismatchIs(c, d, head);
    var e := Mismatch(c, d, head).value;
    if e.what == DaoSupport && c.daoFork != d.daoFork {
      ConflictIs(c, d, DaoFork, k);
    } else if e.what == ChainId && c.eip158 != d.eip158 {
      ConflictIs(c, d, Eip158, k);
    } else {
      ConflictIs(c, d, e.what, k);
    }
  }

  /** What is in conflict at a height stays so. */
  lemma ConflictAbove(c: Config, d: Config, what: What, head: int, k: int)
    requires Conflict(c, d, what, head) && head <= k
    ensures Conflict(c, d, what, k)
  {
  }

  /** A mismatch tells the two heights of a fork that is in conflict, and the height right before the
      earlier one, unless that is not above zero. */
  ghost predicate Reports(e: CompatError, c: Config, d: Config, head: int) {
    && Conflict(c, d, e.what, head) && e.stored == ForkOf(c, e.what) && e.wanted == ForkOf(d, e.what)
    && (e.stored != None && e.stored.value > 0 ==> e.rewindTo < e.stored.value)
    && (e.wanted != None && e.wanted.value > 0 ==> e.rewindTo < e.wanted.value)
    && (e.rewindTo > 0 ==> e.stored == Some(e.rewindTo + 1) || e.wanted == Some(e.rewindTo + 1))
  }

  lemma MismatchReports(c: Config, d: Config, head: int, k: int)
    requires Mismatch(c, d, head) != None && head <= k
    ensures Reports(Mismatch(c, d, head).value, c, d, k)
  {
    hide Mismatch;
    MismatchIs(c, d, head);
    ConflictAbove(c, d, Mismatch(c, d, head).value.what, head, k);
  }

  lemma RewindIsLower(c: Config, d: Config, head: nat)
    requires Mismatch(c, d, head) != None
    ensures Mismatch(c, d, head).value.rewindTo < head || Mismatch(c, d, head).value.rewindTo == 0
  {
  }

  /** Compatible configurations are so at every lower height. */
  lemma CompatibleBelow(c: Config, d: Config, head: int, k: int)
    requires Compatible(c, d, head) && k <= head
    ensures Compatible(c, d, k)
  {
  }

  /** Configurations are compatible at a height exactly when they put the same rules in force at
      every height up to it. */
  lemma CompatibleMeans(c: Config, d: Config, head: int)
    ensures Compatible(c, d, head) <==> forall k: int :: k <= head ==> RulesAt(c, k) == RulesAt(d, k)
  {
    if Compatible(c, d, head) {
      forall k: int | k <= head ensures RulesAt(c, k) == RulesAt(d, k) {
        CompatibleBelow(c, d, head, k);
      }
    } else {
      hide Mismatch;
      MismatchIs(c, d, head);
      var e := Mismatch(c, d, head).value;
      var first := Earlier(e.stored, e.wanted).value;
      assert first <= head;
      assert RulesAt(c, first) != RulesAt(d, first);
    }
  }

  /** Finds how far to go back. There is no error exactly when the configurations are compatible at
      the height; otherwise they are incompatible at every height above the rewind point and
      compatible at it, unless that is zero. The error tells what is in conflict and both heights, the
      stored one first, and rewinds to right before the earlier. */
  method CheckCompatible(c: Config, d: Config, height: nat) returns (lasterr: Option<CompatError>)
    ensures lasterr == None <==> Compatible(c, d, height)
    ensures lasterr != None ==>
              && (forall k :: lasterr.value.rewindTo < k <= height ==> !Compatible(c, d, k))
              && (lasterr.value.rewindTo < height || height == 0)
              && (Compatible(c, d, lasterr.value.rewindTo) || lasterr.value.rewindTo == 0)
    ensures lasterr != None ==>
              var e := lasterr.value;
              && Conflict(c, d, e.what, height) && e.stored == ForkOf(c, e.what) && e.wanted == ForkOf(d, e.what)
              && (e.stored != None && e.stored.value > 0 ==> e.rewindTo < e.stored.value)
              && (e.wanted != None && e.wanted.value > 0 ==> e.rewindTo < e.wanted.value)
              && (e.rewindTo > 0 ==> e.stored == Some(e.rewindTo + 1) || e.wanted == Some(e.rewindTo + 1))
  {
    hide Mismatch, Conflict, ForkOf;
    var bhead := height;
    lasterr := None;
    while true
      invariant lasterr == None ==> bhead == height
      invariant lasterr != None ==>
                  !Compatible(c, d, height) && bhead == lasterr.value.rewindTo && (bhead < height || height == 0)
      invariant forall k :: bhead < k <= height ==> !Compatible(c, d, k)
      invariant bhead <= height && (lasterr != None ==> Reports(lasterr.value, c, d, height))
      decreases if lasterr == None then 1 else 0, bhead
    {
      var err := Mismatch(c, d, bhead);
      if err == None || (lasterr != None && err.value.rewindTo == lasterr.value.rewindTo) {
        if err != None {
          RewindIsLower(c, d, bhead);
        }
        return;
      }
      RewindIsLower(c, d, bhead);
      MismatchReports(c, d, bhead, height);
      forall k | err.value.rewindTo < k <= height ensures !Compatible(c, d, k) {
        MismatchFrom(c, d, bhead, k);
      }
      lasterr := err;
      bhead := err.value.rewindTo;
    }
  }
}
