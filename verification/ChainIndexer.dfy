/** The chain indexer: sections of the canonical chain are processed one after the other while the
    chain may be reorganised at any moment. */
module ChainIndexers {
  import opened Wrappers

  type Hash = nat

  const TWO_64 := 0x1_0000_0000_0000_0000

  /** What the chain database holds about a header. */
  datatype Header = Header(parent: Option<Hash>, number: nat)

  type Headers = map<Hash, Header>

  /** From h, k parent links lead to a; the parent of the first block is None. */
  ghost predicate Reaches(headers: Headers, h: Option<Hash>, k: nat, a: Option<Hash>)
    decreases k
  {
    if k == 0 then h == a
    else h != None && h.value in headers && Reaches(headers, headers[h.value].parent, k - 1, a)
  }

  /** Headers are only ever added. */
  ghost predicate Grows(headers: Headers, headers': Headers) {
    forall h :: h in headers ==> h in headers' && headers'[h] == headers[h]
  }

  lemma {:induction false} ReachesStill(headers: Headers, headers': Headers, h: Option<Hash>, k: nat, a: Option<Hash>)
    requires Reaches(headers, h, k, a) && Grows(headers, headers')
    ensures Reaches(headers', h, k, a)
    decreases k
  {
    if k > 0 {
      ReachesStill(headers, headers', headers[h.value].parent, k - 1, a);
    }
  }

  /** A section on its way: what the loop noted when it started, the next block and the last. */
  datatype Flight = Flight(section: nat, oldHead: Option<Hash>, next: nat, lastHead: Option<Hash>)

  ghost predicate HeadsOk(heads: map<nat, Hash>, stored: nat, checkpoint: nat) {
    && (forall s :: s in heads ==> s < stored)
    && (forall s :: 0 <= s < stored && (stored < checkpoint || checkpoint <= s + 1) ==> s in heads)
  }

  /** Section heads above the checkpoint are a hash-linked chain. */
  ghost predicate HeadsLinked(headers: Headers, heads: map<nat, Hash>, checkpoint: nat, size: nat) {
    forall s :: s in heads && checkpoint <= s && s > 0 && s - 1 in heads ==>
      Reaches(headers, Some(heads[s]), size, Some(heads[s - 1]))
  }

  /** Where a reset that failed stands: it invalidates every section without the lock, one access
      of the count or of the index after the other. */
  datatype Unwind =
    | Test
    | Load
    | Put(count: nat)
    | Read
    | Remove(section: nat)
    | Last
    | Finished

  /** The next access of a loop that sets the count: it is tested, loaded, written one lower and read
      again for the head to be removed, until it is at the target, which is then written once more. */
  function Accessed(u: Unwind, target: nat, stored: nat, heads: map<nat, Hash>): (Unwind, nat, map<nat, Hash>) {
    match u
    case Test => (if stored > target then Load else Last, stored, heads)
    case Load => (Put(stored), stored, heads)
    case Put(count) => (Read, if count == 0 then TWO_64 - 1 else count - 1, heads)
    case Read => (Remove(stored), stored, heads)
    case Remove(section) => (Test, stored, heads - {section})
    case Last => (Finished, target, heads)
    case Finished => (Finished, stored, heads)
  }

  /** The next access of a failed reset, which leaves no section. */
  function Unwound(u: Unwind, stored: nat, heads: map<nat, Hash>): (Unwind, nat, map<nat, Hash>) {
    Accessed(u, 0, stored, heads)
  }

  /** No head is stored at or beyond the count, but for the one that is about to be removed. */
  ghost predicate UnwindOk(u: Unwind, stored: nat, heads: map<nat, Hash>) {
    match u
    case Test | Load => forall s :: s in heads ==> s < stored
    case Put(count) => stored <= count && forall s :: s in heads ==> s < stored
    case Read => forall s :: s in heads ==> s <= stored
    case Remove(section) => forall s :: s in heads ==> s < stored || s == section
    case Last | Finished => stored == 0 && heads == map[]
  }

  lemma UnwoundOk(u: Unwind, stored: nat, heads: map<nat, Hash>)
    requires UnwindOk(u, stored, heads)
    ensures var (u', stored', heads') := Unwound(u, stored, heads);
            UnwindOk(u', stored', heads') && heads'.Keys <= heads.Keys
  {
  }

  /** The heads that a truncation of the index leaves. */
  function Cut(heads: map<nat, Hash>, sections: nat, stored: nat): map<nat, Hash> {
    map s | s in heads && !(sections <= s < stored) :: heads[s]
  }

  /** A truncation does no harm to a reset on its way unless it comes between the write of the count
      and the read of it, when the head at the count is still there: the read finds another count,
      and that head is never removed. */
  lemma TruncatedOk(u: Unwind, stored: nat, heads: map<nat, Hash>, sections: nat)
    requires UnwindOk(u, stored, heads) && sections < stored
    ensures UnwindOk(u, sections, Cut(heads, sections, stored)) <==> !(u == Read && stored in heads)
  {
    var heads' := Cut(heads, sections, stored);
    if u == Read && stored in heads {
      assert stored in heads';
    }
  }

  class ChainIndexer {
    const sectionSize: nat
    const confirmsReq: nat
    const checkpointSections: nat
    const checkpointHead: Option<Hash>
    /** The chain database, which changes between the steps of the indexer. */
    var headers: Headers
    var canon: map<nat, Hash>
    var storedSections: nat
    var knownSections: nat
    var cascadedHead: int
    /** The index database: section heads. */
    var heads: map<nat, Hash>
    /** The section that the update loop is processing. */
    var flight: Option<Flight>
    /** The failed reset that the update loop is in. */
    var unwinding: Option<Unwind>

    ghost predicate Valid()
      reads this
    {
      && sectionSize > 0
      && HeadsLinked(headers, heads, checkpointSections, sectionSize)
      && (unwinding == None ==>
            HeadsOk(heads, storedSections, checkpointSections) && (flight != None ==> FlightOk(flight.value)))
      && (unwinding != None ==> UnwindOk(unwinding.value, storedSections, heads))
    }

    /** The blocks read so far are linked down to the old head. The predecessor of the section is
        still there exactly when nothing was invalidated. */
    ghost predicate FlightOk(f: Flight)
      reads this`headers, this`storedSections, this`heads
    {
      && f.section * sectionSize <= f.next <= f.section * sectionSize + sectionSize
      && Reaches(headers, f.lastHead, f.next - f.section * sectionSize, f.oldHead)
      && storedSections <= f.section
      && (f.section == 0 <==> f.oldHead == None)
      && (storedSections == f.section > 0 ==> f.section - 1 in heads && f.oldHead == Some(heads[f.section - 1]))
    }

    /** An indexer that loads an index, sound from an earlier checkpoint on, and adds a trusted
        checkpoint if there is one; the index is kept if it reaches beyond the checkpoint. */
    constructor (size: nat, confirms: nat, stored: nat, index: map<nat, Hash>, chain: Headers, ghost earlier: nat,
                 checkpoint: Option<(nat, Hash)>)
      requires size > 0 && HeadsOk(index, stored, earlier) && HeadsLinked(chain, index, earlier, size)
      requires earlier <= if checkpoint == None then 0 else checkpoint.value.0 + 1
      ensures Valid() && sectionSize == size && confirmsReq == confirms && flight == None && unwinding == None
              && headers == chain
      ensures checkpointSections == if checkpoint == None then 0 else checkpoint.value.0 + 1
      ensures checkpointHead == if checkpoint == None then None else Some(checkpoint.value.1)
      ensures if checkpointSections <= stored then storedSections == stored && heads == index
              else storedSections == checkpointSections
                   && heads == index[checkpointSections - 1 := checkpointHead.value]
    {
      sectionSize, confirmsReq := size, confirms;
      headers, canon, knownSections, cascadedHead, flight, unwinding := chain, map[], 0, 0, None, None;
      checkpointSections, checkpointHead, storedSections, heads := 0, None, stored, index;
      if checkpoint != None {
        var (section, shead) := checkpoint.value;
        checkpointSections, checkpointHead := section + 1, Some(shead);
        if section >= stored {
          storedSections, heads := section + 1, index[section := shead];
        }
      }
    }

    function SectionHead(section: int): (r: Option<Hash>)
      reads this
    {
      if section >= 0 && section in heads then Some(heads[section]) else None
    }

    /** Sets the number of valid sections and removes the heads from there on. */
    method SetValidSections(sections: nat)
      modifies this`storedSections, this`heads
      ensures storedSections == sections
      ensures heads == Cut(old(heads), sections, old(storedSections))
    {
      while storedSections > sections
        invariant storedSections <= old(storedSections)
                  && (sections <= old(storedSections) ==> sections <= storedSections)
        invariant sections > old(storedSections) ==> storedSections == old(storedSections)
        invariant heads == Cut(old(heads), storedSections, old(storedSections))
      {
        storedSections := storedSections - 1;
        heads := heads - {storedSections};
      }
      storedSections := sections;
    }

    /** The announcement truncates the index just between the write of the count by a failed reset
        and its read, with the head at the count still there. */
    ghost predicate Strands(head: nat, reorg: bool)
      requires sectionSize > 0
      reads this`storedSections, this`heads, this`unwinding
    {
      && reorg && unwinding == Some(Read) && storedSections in heads
      && Greatest(head / sectionSize, checkpointSections) < storedSections
    }

    /** Keeps the first sections only. */
    method Truncate(sections: nat)
      requires Valid() && checkpointSections <= sections < storedSections
      modifies this`storedSections, this`heads
      ensures storedSections == sections && heads == Cut(old(heads), sections, old(storedSections))
      ensures HeadsLinked(headers, heads, checkpointSections, sectionSize)
      ensures Valid() <==> !old(unwinding == Some(Read) && storedSections in heads)
    {
      SetValidSections(sections);
      if unwinding != None {
        TruncatedOk(unwinding.value, old(storedSections), old(heads), sections);
      }
    }

    /** A reorganisation goes back to `head`. Every section that is kept above the checkpoint ends
        at or below it. */
    method Rollback(head: nat)
      requires Valid()
      modifies this`storedSections, this`knownSections, this`cascadedHead, this`heads
      ensures Valid() <==> !old(Strands(head, true))
      ensures HeadsLinked(headers, heads, checkpointSections, sectionSize)
      ensures storedSections == Least(old(storedSections), Greatest(head / sectionSize, checkpointSections))
      ensures heads == Cut(old(heads), storedSections, old(storedSections))
      ensures forall s :: s in heads && checkpointSections <= s < storedSections ==> EndOf(s, sectionSize) <= head
      ensures var known := if head / sectionSize < checkpointSections then 0 else head / sectionSize;
              && knownSections == Least(old(knownSections), known)
              && cascadedHead ==
                   (if known * sectionSize < old(cascadedHead) then known * sectionSize else old(cascadedHead))
    {
      hide HeadsOk, HeadsLinked, ChainIndexer.FlightOk, Reaches, EndOf, UnwindOk;
      var known := head / sectionSize;
      var stored := known;
      if known < checkpointSections {
        known := 0;
      }
      if stored < checkpointSections {
        stored := checkpointSections;
      }
      if known < knownSections {
        knownSections := known;
      }
      CutNone(heads, storedSections);
      if stored < storedSections {
        Truncate(stored);
      }
      var h := known * sectionSize;
      if h < cascadedHead {
        cascadedHead := h;
      }
      EndsBelow(head, sectionSize);
    }

    /** Announces a head, under the lock. The sections that are confirmed become known, once the chain
        has been checked against the checkpoint. */
    method NewHead(head: nat, reorg: bool)
      requires Valid()
      modifies this`storedSections, this`knownSections, this`cascadedHead, this`heads
      ensures Valid() <==> !old(Strands(head, reorg))
      ensures HeadsLinked(headers, heads, checkpointSections, sectionSize)
      ensures old(Strands(head, reorg)) ==> old(storedSections) in heads && storedSections < old(storedSections)
      ensures heads == Cut(old(heads), storedSections, old(storedSections))
      ensures reorg ==> storedSections == Least(old(storedSections), Greatest(head / sectionSize, checkpointSections))
      ensures reorg ==> forall s :: s in heads && checkpointSections <= s < storedSections ==>
                EndOf(s, sectionSize) <= head
      ensures reorg ==>
                var known := if head / sectionSize < checkpointSections then 0 else head / sectionSize;
                && knownSections == Least(old(knownSections), known)
                && cascadedHead ==
                     (if known * sectionSize < old(cascadedHead) then known * sectionSize else old(cascadedHead))
      ensures !reorg ==> storedSections == old(storedSections) && cascadedHead == old(cascadedHead)
      ensures !reorg ==>
                knownSections == if ShouldKnow(head, old(knownSections)) then (head + 1 - confirmsReq) / sectionSize
                                          else old(knownSections)
      ensures !reorg ==>
                (knownSections != old(knownSections) <==>
                 && head >= confirmsReq && (old(knownSections) + 1) * sectionSize + confirmsReq <= head + 1
                 && checkpointSections * sectionSize + confirmsReq <= head + 1
                 && (old(knownSections) >= checkpointSections
                     || CanonAt(checkpointSections * sectionSize - 1) == checkpointHead))
      ensures !reorg && knownSections != old(knownSections) ==>
                knownSections * sectionSize + confirmsReq <= head + 1 < (knownSections + 1) * sectionSize + confirmsReq
    {
      if reorg {
        Rollback(head);
        return;
      }
      CutNone(heads, storedSections);
      if head >= confirmsReq {
        Divides(head + 1 - confirmsReq, sectionSize, knownSections + 1);
        Divides(head + 1 - confirmsReq, sectionSize, checkpointSections);
        Divides(head + 1 - confirmsReq, sectionSize, (head + 1 - confirmsReq) / sectionSize);
        Divides(head + 1 - confirmsReq, sectionSize, (head + 1 - confirmsReq) / sectionSize + 1);
      }
      if head >= confirmsReq {
        var sections := (head + 1 - confirmsReq) / sectionSize;
        if sections < checkpointSections {
          sections := 0;
        }
        if sections > knownSections {
          if knownSections < checkpointSections {
            var syncedHead := CanonAt(checkpointSections * sectionSize - 1);
            if syncedHead != checkpointHead {
              return;
            }
          }
          knownSections := sections;
        }
      }
    }

    /** More sections are confirmed than known, they reach the checkpoint, and the chain has the
        checkpoint if that was not known yet. */
    ghost predicate ShouldKnow(head: nat, known: nat)
      requires sectionSize > 0
      reads this`canon
    {
      && head >= confirmsReq && (head + 1 - confirmsReq) / sectionSize > known
      && (head + 1 - confirmsReq) / sectionSize >= checkpointSections
      && (known >= checkpointSections || CanonAt(checkpointSections * sectionSize - 1) == checkpointHead)
    }

    /** The chain database changes: headers are added and the canonical map is any. */
    method ChainChanges(more: Headers, newCanon: map<nat, Hash>)
      requires Valid() && Grows(headers, more)
      modifies this`headers, this`canon
      ensures Valid() && headers == more && canon == newCanon
    {
      GrowsLinked(headers, more, heads, checkpointSections, sectionSize);
      if flight != None && unwinding == None {
        ReachesStill(headers, more, flight.value.lastHead, flight.value.next - flight.value.section * sectionSize,
                     flight.value.oldHead);
      }
      headers, canon := more, newCanon;
    }

    /** The update loop notes the next section and its predecessor, under the lock. */
    method Capture()
      requires Valid() && flight == None && unwinding == None
      modifies this`flight
      ensures Valid()
      ensures if knownSections > storedSections
              then flight ==
                     Some(Flight(storedSections, SectionHead(storedSections - 1), storedSections * sectionSize,
                                 SectionHead(storedSections - 1)))
              else flight == None
    {
      if knownSections > storedSections {
        var section := storedSections;
        var oldHead := if section > 0 then SectionHead(section - 1) else None;
        flight := Some(Flight(section, oldHead, section * sectionSize, oldHead));
      }
    }

    /** The backend fails to reset, and all sections are to be invalidated. */
    method FailReset()
      requires Valid() && flight != None && unwinding == None
      modifies this`unwinding
      ensures Valid() && unwinding == Some(Test)
    {
      unwinding := Some(Test);
    }

    /** The failed reset makes its next access; at the end, the processing has failed. */
    method Tick()
      requires unwinding != None
      modifies this`storedSections, this`knownSections, this`heads, this`flight, this`unwinding
      ensures old(Valid()) ==> Valid()
      ensures if old(unwinding).value == Finished
              then flight == None && unwinding == None && knownSections == storedSections == old(storedSections)
                   && heads == old(heads)
              else unwinding != None
                   && (unwinding.value, storedSections, heads) ==
                        Unwound(old(unwinding).value, old(storedSections), old(heads))
                   && flight == old(flight) && knownSections == old(knownSections)
    {
      if old(Valid()) {
        UnwoundOk(unwinding.value, storedSections, heads);
      }
      match unwinding.value
      case Test =>
        unwinding := Some(if storedSections > 0 then Load else Last);
      case Load =>
        unwinding := Some(Put(storedSections));
      case Put(count) =>
        storedSections, unwinding := if count == 0 then TWO_64 - 1 else count - 1, Some(Read);
      case Read =>
        unwinding := Some(Remove(storedSections));
      case Remove(section) =>
        heads, unwinding := heads - {section}, Some(Test);
      case Last =>
        storedSections, unwinding := 0, Some(Finished);
      case Finished =>
        Abort();
    }

    /** A failed reset that nobody interrupts: everything is invalid. */
    method ResetFails()
      requires Valid() && flight != None && unwinding == None
      modifies this`storedSections, this`knownSections, this`heads, this`flight, this`unwinding
      ensures Valid() && flight == None && unwinding == None && storedSections == knownSections == 0 && heads == map[]
    {
      FailReset();
      while unwinding != None
        invariant Valid()
                  && (unwinding == None ==> flight == None && storedSections == knownSections == 0 && heads == map[])
        invariant unwinding != None && unwinding.value.Put? ==> unwinding.value.count == storedSections > 0
        invariant unwinding == Some(Load) ==> storedSections > 0
        decreases storedSections, if unwinding == None then 0 else Rest(unwinding.value)
      {
        Tick();
      }
    }

    /** Processing fails: nothing is stored, and what is known is what is stored. */
    method Abort()
      modifies this`knownSections, this`flight, this`unwinding
      ensures flight == None && unwinding == None && knownSections == storedSections
      ensures old(Valid()) && old(unwinding == None || unwinding == Some(Finished)) ==> Valid()
    {
      knownSections := storedSections;
      flight, unwinding := None, None;
    }

    /** Reads the next block of the section, without the lock. It must follow the last one. */
    method ProcessBlock(backendOk: bool) returns (ok: bool)
      requires Valid() && unwinding == None && flight != None
               && flight.value.next < EndOf(flight.value.section, sectionSize)
      modifies this`flight, this`knownSections, this`unwinding
      ensures Valid() && unwinding == None
      ensures var f := old(flight).value;
              var h := CanonAt(f.next);
              && ok == (backendOk && h != None && h.value in headers && headers[h.value].number == f.next
                        && headers[h.value].parent == f.lastHead)
              && (ok ==> flight == Some(f.(next := f.next + 1, lastHead := h)) && knownSections == old(knownSections))
              && (!ok ==> flight == None && knownSections == storedSections)
    {
      var f := flight.value;
      var hash := CanonAt(f.next);
      ok := backendOk && hash != None && hash.value in headers && headers[hash.value].number == f.next
        && headers[hash.value].parent == f.lastHead;
      if ok {
        flight := Some(f.(next := f.next + 1, lastHead := hash));
      } else {
        Abort();
      }
    }

    /** The section is complete. Under the lock it is stored, but only if its predecessor is still
        the one noted at the start, which is so exactly when no section was invalidated since. */
    method Commit(commitOk: bool) returns (stored: bool)
      requires Valid() && unwinding == None && flight != None
               && flight.value.next == EndOf(flight.value.section, sectionSize)
      modifies this`storedSections, this`knownSections, this`cascadedHead, this`heads, this`flight, this`unwinding
      ensures Valid() && flight == None && unwinding == None
      ensures stored <==> commitOk && old(storedSections) == old(flight).value.section
      ensures var f := old(flight).value;
              if stored then
                && storedSections == f.section + 1 && f.lastHead != None
                   && heads == old(heads)[f.section := f.lastHead.value]
                && cascadedHead == storedSections * sectionSize - 1 && knownSections == old(knownSections)
              else
                storedSections == old(storedSections) && heads == old(heads) && knownSections == storedSections
                  && cascadedHead == old(cascadedHead)
    {
      var f := flight.value;
      stored := commitOk && f.oldHead == SectionHead(f.section - 1);
      if stored {
        heads := heads[f.section := f.lastHead.value];
        SetValidSections(f.section + 1);
        cascadedHead := storedSections * sectionSize - 1;
        flight := None;
      } else {
        Abort();
      }
    }

    function CanonAt(n: int): Option<Hash>
      reads this`canon
    {
      if n >= 0 && n in canon then Some(canon[n]) else None
    }
  }

  /** How many accesses are left before the count is lower, or the reset over. */
  function Rest(u: Unwind): nat {
    match u
    case Read => 7
    case Remove(_) => 6
    case Test => 5
    case Load => 4
    case Put(_) => 3
    case Last => 2
    case Finished => 1
  }

  lemma CutNone(heads: map<nat, Hash>, stored: nat)
    ensures Cut(heads, stored, stored) == heads
  {
  }

  /** As many pieces of a size fit into a length as its quotient says. */
  lemma Divides(length: nat, size: nat, n: nat)
    requires size > 0
    ensures n * size <= length <==> n <= length / size
  {
    var q, r := length / size, length % size;
    assert length == q * size + r;
    if n <= q {
      assert n * size <= q * size;
    } else {
      assert n * size >= (q + 1) * size;
    }
  }

  function Least(a: nat, b: nat): nat {
    if a < b then a else b
  }

  function Greatest(a: nat, b: nat): nat {
    if a < b then b else a
  }

  /** The number behind the last block of a section. */
  function EndOf(section: nat, size: nat): nat {
    (section + 1) * size
  }

  lemma EndsBelow(head: nat, size: nat)
    requires size > 0
    ensures forall s :: 0 <= s < head / size ==> EndOf(s, size) <= head
  {
    hide EndOf;
    forall s | 0 <= s < head / size ensures EndOf(s, size) <= head {
      EndBelow(s, head / size, size);
      QuotientFits(head, size);
    }
  }

  lemma EndBelow(s: nat, q: nat, size: nat)
    requires s < q
    ensures EndOf(s, size) <= q * size
  {
    assert (q - s - 1) * size >= 0;
  }

  lemma QuotientFits(head: nat, size: nat)
    requires size > 0
    ensures (head / size) * size <= head
  {
    assert head == size * (head / size) + head % size;
  }

  lemma GrowsLinked(headers: Headers, headers': Headers, heads: map<nat, Hash>, checkpoint: nat, size: nat)
    requires HeadsLinked(headers, heads, checkpoint, size) && Grows(headers, headers')
    ensures HeadsLinked(headers', heads, checkpoint, size)
  {
    forall s | s in heads && checkpoint <= s && s > 0 && s - 1 in heads
      ensures Reaches(headers', Some(heads[s]), size, Some(heads[s - 1]))
    {
      ReachesStill(headers, headers', Some(heads[s]), size, Some(heads[s - 1]));
    }
  }

  /** What can happen, in any order. */
  datatype Step =
    | Chain(more: Headers, canon: map<nat, Hash>)
    | Head(head: nat, reorg: bool)
    | Begin
    | FailReset
    | Tick
    | Block(ok: bool)
    | End(ok: bool)

  /** Takes a step if it can happen now. */
  method Take(c: ChainIndexer, step: Step)
    requires c.Valid()
    modifies c
    ensures c.Valid() <==> !(step.Head? && old(c.Strands(step.head, step.reorg)))
    ensures step.Head? && old(c.Strands(step.head, step.reorg)) ==> exists s :: s in c.heads && s >= c.storedSections
    ensures HeadsLinked(c.headers, c.heads, c.checkpointSections, c.sectionSize)
  {
    match step
    case Chain(more, canon) =>
      if forall h :: h in c.headers ==> h in more && more[h] == c.headers[h] {
        c.ChainChanges(more, canon);
      }
    case Head(head, reorg) =>
      c.NewHead(head, reorg);
    case Begin =>
      if c.flight == None && c.unwinding == None { c.Capture(); }
    case FailReset =>
      if c.flight != None && c.unwinding == None { c.FailReset(); }
    case Tick =>
      if c.unwinding != None { c.Tick(); }
    case Block(ok) =>
      if c.unwinding == None && c.flight != None && c.flight.value.next < EndOf(c.flight.value.section, c.sectionSize) {
        var done := c.ProcessBlock(ok);
      }
    case End(ok) =>
      if c.unwinding == None && c.flight != None
        && c.flight.value.next == EndOf(c.flight.value.section, c.sectionSize) {
        var stored := c.Commit(ok);
      }
  }

  /** Over every interleaving of head announcements, changes of the chain and the steps of the
      update loop, with a failed reset going access by access: unless an announcement strands a head,
      when no reset is under way no section head is stored at or beyond the number of stored sections
      and all heads from the checkpoint on are there; and at any moment each head is a section's
      length of parent links above the one before it. The run stops at the first announcement that
      strands a head, and then one is stored at or beyond the count. */
  method Run(size: nat, confirms: nat, stored: nat, index: map<nat, Hash>, chain: Headers, ghost earlier: nat,
             checkpoint: Option<(nat, Hash)>, steps: seq<Step>)
    returns (c: ChainIndexer, taken: nat, stranded: bool)
    requires size > 0 && HeadsOk(index, stored, earlier) && HeadsLinked(chain, index, earlier, size)
    requires earlier <= if checkpoint == None then 0 else checkpoint.value.0 + 1
    ensures c.checkpointSections == if checkpoint == None then 0 else checkpoint.value.0 + 1
    ensures taken <= |steps| && (!stranded ==> taken == |steps|)
    ensures stranded ==> taken > 0 && steps[taken - 1].Head? && exists s :: s in c.heads && s >= c.storedSections
    ensures !stranded && c.unwinding == None ==>
              && (forall s :: s in c.heads ==> s < c.storedSections)
              && (forall s :: c.checkpointSections <= s + 1 && 0 <= s < c.storedSections ==> s in c.heads)
    ensures forall s :: s in c.heads && s > 0 && c.checkpointSections <= s && s - 1 in c.heads ==>
              Reaches(c.headers, Some(c.heads[s]), size, Some(c.heads[s - 1]))
  {
    c := new ChainIndexer(size, confirms, stored, index, chain, earlier, checkpoint);
    taken, stranded := 0, false;
    while taken < |steps|
      invariant fresh(c) && c.Valid() && taken <= |steps| && !stranded
      invariant c.sectionSize == size && c.checkpointSections == if checkpoint == None then 0
                else checkpoint.value.0 + 1
    {
      var step := steps[taken];
      stranded := step.Head? && step.reorg && c.unwinding == Some(Read) && c.storedSections in c.heads
                  && Greatest(step.head / size, c.checkpointSections) < c.storedSections;
      Take(c, step);
      taken := taken + 1;
      if stranded {
        return;
      }
    }
  }

  /** A failed reset has written the count for the first time. */
  method ResetStarts(c: ChainIndexer)
    requires c.Valid() && c.flight == None && c.unwinding == None && c.knownSections > c.storedSections > 0
    modifies c
    ensures c.Valid() && c.unwinding == Some(Read) && c.storedSections == old(c.storedSections) - 1
            && c.heads == old(c.heads)
    ensures c.storedSections in c.heads
  {
    hide HeadsLinked, ChainIndexer.FlightOk;
    c.Capture();
    c.FailReset();
    c.Tick();
    c.Tick();
    c.Tick();
  }

  /** A failed reset that nobody interrupts any more leaves the heads beyond the count alone. */
  method ResetEnds(c: ChainIndexer)
    requires c.unwinding != None && Alone(c.unwinding.value, c.storedSections)
    modifies c
    ensures c.flight == None && c.unwinding == None && c.storedSections == 0
    ensures forall s :: s in old(c.heads) && s > old(c.storedSections) ==> s in c.heads
  {
    hide ChainIndexer.Valid;
    while c.unwinding != None
      invariant c.storedSections <= old(c.storedSections)
      invariant forall s :: s in old(c.heads) && s > old(c.storedSections) ==> s in c.heads
      invariant c.unwinding == None ==> c.flight == None && c.storedSections == 0
      invariant c.unwinding != None ==> Alone(c.unwinding.value, c.storedSections)
      decreases c.storedSections, if c.unwinding == None then 0 else Rest(c.unwinding.value)
    {
      c.Tick();
    }
  }

  /** Any index with a section above the announced one can end up with a head beyond the count: the
      reset writes the count, the announcement truncates the index, and the reset goes on from there. */
  method StrandHead(c: ChainIndexer, head: nat)
    requires c.Valid() && c.flight == None && c.unwinding == None && c.knownSections > c.storedSections > 0
    requires Greatest(head / c.sectionSize, c.checkpointSections) < c.storedSections - 1
    modifies c
    ensures c.flight == None && c.unwinding == None && c.storedSections == 0
    ensures old(c.storedSections) - 1 in c.heads && !c.Valid()
  {
    hide HeadsLinked, ChainIndexer.FlightOk, UnwindOk;
    ResetStarts(c);
    c.NewHead(head, true);
    ResetEnds(c);
  }

  /** The reset works on the count as it is. */
  ghost predicate Alone(u: Unwind, stored: nat) {
    match u
    case Load => stored > 0
    case Put(count) => count == stored > 0
    case Remove(section) => section == stored
    case Last | Finished => stored == 0
    case _ => true
  }

  /** An index of two sections whose second head outlives its section. */
  method StrandedRun() returns (c: ChainIndexer)
    ensures fresh(c) && c.storedSections == 0 && c.unwinding == None && 1 in c.heads
  {
    var chain: Headers := map[10 := Header(None, 0), 11 := Header(Some(10), 1)];
    assert Reaches(chain, Some(11), 1, Some(10)) by {
      assert Reaches(chain, chain[11].parent, 0, Some(10));
    }
    c := new ChainIndexer(1, 0, 2, map[0 := 10, 1 := 11], chain, 0, None);
    c.NewHead(5, false);
    StrandHead(c, 0);
  }

  /** The count after reorganisations to the given heads. */
  function Lowered(count: nat, reorgs: seq<nat>, size: nat, checkpoint: nat): nat
    requires size > 0
    decreases |reorgs|
  {
    if reorgs == [] then count
    else Least(Lowered(count, reorgs[..|reorgs| - 1], size, checkpoint),
               Greatest(reorgs[|reorgs| - 1] / size, checkpoint))
  }

  /** One of the reorganisations goes back into the first section. */
  predicate IntoFirst(reorgs: seq<nat>, size: nat) {
    exists h :: h in reorgs && h < size
  }

  lemma IntoFirstMore(front: seq<nat>, last: nat, size: nat)
    ensures IntoFirst(front + [last], size) <==> IntoFirst(front, size) || last < size
  {
    var all := front + [last];
    if IntoFirst(front, size) {
      var h :| h in front && h < size;
      assert h in all;
    }
    assert last in all;
  }

  /** Reorganisations empty the index exactly if there is no checkpoint and one of them goes back into
      the first section. */
  lemma {:induction false} LoweredToZero(count: nat, reorgs: seq<nat>, size: nat, checkpoint: nat)
    requires size > 0 && count > 0
    ensures Lowered(count, reorgs, size, checkpoint) == 0 <==> checkpoint == 0 && IntoFirst(reorgs, size)
    decreases |reorgs|
  {
    if reorgs != [] {
      var front, last := reorgs[..|reorgs| - 1], reorgs[|reorgs| - 1];
      hide IntoFirst;
      LoweredToZero(count, front, size, checkpoint);
      IntoFirstMore(front, last, size);
      assert reorgs == front + [last];
      InFirst(last, size);
    }
  }

  lemma InFirst(head: nat, size: nat)
    requires size > 0
    ensures head / size == 0 <==> head < size
  {
  }

  /** Announces reorganisations beside a failed reset that does not wait for its own write. */
  method Reorganise(c: ChainIndexer, reorgs: seq<nat>)
    requires c.Valid() && c.unwinding != None && c.unwinding != Some(Read)
    modifies c`storedSections, c`knownSections, c`cascadedHead, c`heads
    ensures c.Valid() && c.storedSections == Lowered(old(c.storedSections), reorgs, c.sectionSize, c.checkpointSections)
    ensures old(c.heads) == map[] ==> c.heads == map[]
  {
    hide HeadsLinked, ChainIndexer.FlightOk, UnwindOk;
    var i := 0;
    while i < |reorgs|
      invariant 0 <= i <= |reorgs| && c.Valid()
      invariant c.storedSections == Lowered(old(c.storedSections), reorgs[..i], c.sectionSize, c.checkpointSections)
      invariant old(c.heads) == map[] ==> c.heads == map[]
    {
      assert reorgs[..i + 1][..i] == reorgs[..i];
      c.NewHead(reorgs[i], true);
      i := i + 1;
    }
    assert reorgs[..i] == reorgs;
  }

  /** The three accesses with which a failed reset counts a section down, with reorganisations between
      the test and the load and between the load and the write. The count wraps around exactly if
      there is no checkpoint and one before the load goes back into the first section; and it rises
      exactly if it wraps around, or those after the load took two sections or more. */
  method CountsDown(c: ChainIndexer, first: seq<nat>, second: seq<nat>) returns (ghost loaded: nat, ghost found: nat)
    requires c.Valid() && c.unwinding == Some(Test) && 0 < c.storedSections < TWO_64
    modifies c
    ensures c.Valid() && c.unwinding == Some(Read)
    ensures loaded == Lowered(old(c.storedSections), first, c.sectionSize, c.checkpointSections)
    ensures found == Lowered(loaded, second, c.sectionSize, c.checkpointSections)
    ensures c.storedSections == if loaded == 0 then TWO_64 - 1 else loaded - 1
    ensures loaded == 0 <==> c.checkpointSections == 0 && IntoFirst(first, c.sectionSize)
    ensures c.storedSections > found <==> loaded == 0 || found + 1 < loaded
  {
    hide HeadsLinked, ChainIndexer.FlightOk, UnwindOk, Lowered;
    c.Tick();
    Reorganise(c, first);
    loaded := c.storedSections;
    c.Tick();
    Reorganise(c, second);
    found := c.storedSections;
    c.Tick();
    LoweredToZero(old(c.storedSections), first, c.sectionSize, c.checkpointSections);
    LoweredIsLess(old(c.storedSections), first, c.sectionSize, c.checkpointSections);
    LoweredIsLess(loaded, second, c.sectionSize, c.checkpointSections);
  }

  lemma {:induction false} LoweredIsLess(count: nat, reorgs: seq<nat>, size: nat, checkpoint: nat)
    requires size > 0
    ensures Lowered(count, reorgs, size, checkpoint) <= count
    decreases |reorgs|
  {
    if reorgs != [] {
      LoweredIsLess(count, reorgs[..|reorgs| - 1], size, checkpoint);
    }
  }

  /** The canonical blocks below a height are all there and linked to one another. */
  ghost predicate CanonLinked(headers: Headers, canon: map<nat, Hash>, top: nat) {
    forall n :: 0 <= n < top ==>
      && n in canon && canon[n] in headers
      && headers[canon[n]].parent == if n > 0 && n - 1 in canon then Some(canon[n - 1]) else None
  }

  /** From a canonical block, parent links lead to canonical blocks only. */
  lemma {:induction false} CanonReaches(headers: Headers, canon: map<nat, Hash>, top: nat, n: nat, k: nat,
                                        a: Option<Hash>)
    requires CanonLinked(headers, canon, top) && k <= n < top && Reaches(headers, Some(canon[n]), k, a)
    ensures a == Some(canon[n - k])
    decreases k
  {
    if k > 0 {
      CanonReaches(headers, canon, top, n - 1, k - 1, a);
    }
  }

  /** The head of a section is the canonical block at the end of the section. */
  ghost predicate CanonHead(heads: map<nat, Hash>, canon: map<nat, Hash>, size: nat, s: nat) {
    s in heads && EndOf(s, size) - 1 in canon && heads[s] == canon[EndOf(s, size) - 1]
  }

  /** Below a canonical head, from the checkpoint on, every head is canonical. */
  lemma {:induction false} CanonBelow(c: ChainIndexer, s: nat, r: nat)
    requires c.Valid() && c.unwinding == None && CanonLinked(c.headers, c.canon, c.storedSections * c.sectionSize)
    requires c.checkpointSections <= r + 1 && r <= s < c.storedSections && CanonHead(c.heads, c.canon, c.sectionSize, s)
    ensures CanonHead(c.heads, c.canon, c.sectionSize, r)
    decreases s
  {
    if r < s {
      var n := EndOf(s, c.sectionSize) - 1;
      EndsWithin(s, c.storedSections, c.sectionSize);
      CanonReaches(c.headers, c.canon, c.storedSections * c.sectionSize, n, c.sectionSize, Some(c.heads[s - 1]));
      CanonBelow(c, s - 1, r);
    }
  }

  lemma EndsWithin(s: nat, stored: nat, size: nat)
    requires 0 < s < stored && size > 0
    ensures size <= EndOf(s, size) - 1 < stored * size && EndOf(s, size) - 1 - size == EndOf(s - 1, size) - 1
  {
    assert (s + 1) * size <= stored * size;
    assert (s + 1) * size == s * size + size;
    assert s * size >= size;
  }

  /** Every head of the index, from the checkpoint on, is canonical exactly if the last one is. */
  lemma IndexCanonical(c: ChainIndexer)
    requires c.Valid() && c.unwinding == None && CanonLinked(c.headers, c.canon, c.storedSections * c.sectionSize)
    requires c.checkpointSections <= c.storedSections && 0 < c.storedSections
    ensures (forall s :: 0 <= s < c.storedSections && c.checkpointSections <= s + 1 ==>
             CanonHead(c.heads, c.canon, c.sectionSize, s))
            <==> CanonHead(c.heads, c.canon, c.sectionSize, c.storedSections - 1)
  {
    var last := c.storedSections - 1;
    if CanonHead(c.heads, c.canon, c.sectionSize, last) {
      forall s | 0 <= s < c.storedSections && c.checkpointSections <= s + 1
        ensures CanonHead(c.heads, c.canon, c.sectionSize, s) {
        CanonBelow(c, last, s);
      }
    }
  }

  /** A section whose last block is replaced after it was read, while its predecessor is left alone,
      is stored all the same, with a head that is not canonical. */
  method StaleSection(c: ChainIndexer, more: Headers, newCanon: map<nat, Hash>, head: nat)
    requires c.Valid() && c.unwinding == None && c.flight != None && c.flight.value.section == c.storedSections
    requires c.flight.value.next == EndOf(c.storedSections, c.sectionSize) && Grows(c.headers, more)
    requires c.flight.value.next - 1 in newCanon ==> c.flight.value.lastHead != Some(newCanon[c.flight.value.next - 1])
    requires Greatest(head / c.sectionSize, c.checkpointSections) >= c.storedSections
    modifies c
    ensures c.Valid() && c.storedSections == old(c.storedSections) + 1 && old(c.storedSections) in c.heads
    ensures c.canon == newCanon && !CanonHead(c.heads, c.canon, c.sectionSize, old(c.storedSections))
  {
    c.ChainChanges(more, newCanon);
    c.NewHead(head, true);
    var stored := c.Commit(true);
  }
}
