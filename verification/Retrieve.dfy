/** On-demand retrieval: one event loop watches any number of requesters through one flag, one
    peer and one counter. The requesters run concurrently and report through a bounded channel. */
module Retrieve {
  import opened Wrappers

  type Peer = nat

  datatype Error = NoPeers | Other(code: int)

  datatype Kind = Sent | SoftTimeout | HardTimeout | DeliveredValid | DeliveredInvalid

  /** What a requester reports; only a Sent report may come without a peer. */
  datatype Event = Event(kind: Kind, peer: Option<Peer>)

  /** What the loop knows about the requesters. */
  datatype Loop = Loop(lastReqQueued: bool, lastReqSentTo: Option<Peer>, reqSrtoCount: int)

  datatype Pc = Requesting | NoMorePeers | Stopped | Done

  function Updated(l: Loop, ev: Event): Loop {
    match ev.kind
    case Sent => l.(lastReqQueued := false, lastReqSentTo := ev.peer)
    case SoftTimeout => l.(lastReqSentTo := None, reqSrtoCount := l.reqSrtoCount + 1)
    case HardTimeout => l.(reqSrtoCount := l.reqSrtoCount - 1)
    case _ => if ev.peer == l.lastReqSentTo then l.(lastReqSentTo := None) else l.(reqSrtoCount := l.reqSrtoCount - 1)
  }

  predicate IsWaiting(l: Loop) {
    l.lastReqQueued || l.lastReqSentTo != None || l.reqSrtoCount > 0
  }

  /** What a state function of the loop does: the next state, whether it starts a requester, and
      the result it stops with, if it does. */
  datatype Turn = Turn(loop: Loop, pc: Pc, spawn: bool, stop: Option<Option<Error>>)

  function Started(l: Loop): Turn {
    Turn(l.(lastReqQueued := true), Requesting, true, None)
  }

  /** The loop takes an event. */
  function Handle(l: Loop, pc: Pc, ev: Event): Turn
    requires pc != Done
  {
    var l' := Updated(l, ev);
    match pc
    case Requesting => (
      match ev.kind
      case Sent =>
        if ev.peer != None then Turn(l', Requesting, false, None)
        else if IsWaiting(l') then Turn(l', NoMorePeers, false, None)
        else Turn(l', Done, false, Some(Some(NoPeers)))
      case SoftTimeout => Started(l')
      case HardTimeout => Turn(l', Requesting, false, None)
      case DeliveredInvalid =>
        if !l'.lastReqQueued && l'.lastReqSentTo == None then Started(l') else Turn(l', Requesting, false, None)
      case DeliveredValid => Turn(l', Stopped, false, Some(None)))
    case NoMorePeers =>
      if ev.kind == DeliveredValid then Turn(l', Stopped, false, Some(None))
      else if IsWaiting(l') then Turn(l', NoMorePeers, false, None)
      else Turn(l', Done, false, Some(Some(NoPeers)))
    case Stopped => Turn(l', Stopped, false, None)
  }

  /** Where a requester is in its life. A requester that waits knows the peer and the channel on
      which the verdict about its delivery arrives. */
  datatype Requester =
    | Queued
    | Got(peer: Option<Peer>)
    | Awaiting(to: Peer, chan: nat, soft: bool)
    | Reporting(to: Peer, chan: nat, soft: bool, kind: Kind)
    | Leaving(to: Peer)
    | Finished
    | Panicked

  /** A peer the request was sent to; `owner` names the verdict channel. */
  datatype Entry = Entry(delivered: bool, owner: nat)

  /** How far the consumed reports of a requester have taken it. */
  datatype Phase = InQueue | AtPeer(peer: Peer) | Overdue(peer: Peer) | Gone

  /** The whole system. `senders`, `seen` and `given` are history: who sent each event in the
      channel, the consumed phase of each requester, and the verdict about the delivery it waited for.
      No step depends on them. */
  datatype Sys = Sys(
    loop: Loop, pc: Pc, stopped: bool, err: Option<Error>,
    events: seq<Event>, sent: map<Peer, Entry>, reqs: seq<Requester>, chans: seq<Option<bool>>,
    senders: seq<nat>, seen: seq<Phase>, given: seq<Option<bool>>)

  const CAPACITY := 10

  datatype Action =
    | Assign(i: nat, p: Peer)
    | Refuse(i: nat)
    | Cancel(i: nat)
    | Report(i: nat)
    | Receive(i: nat)
    | TimeOut(i: nat)
    | Leave(i: nat)
    | Deliver(p: Peer, valid: bool)
    | Stop(reason: Error)
    | Consume
    | SeeStop
    | Retry
    | End

  function Init(): Sys {
    Sys(Loop(true, None, 0), Requesting, false, None, [], map[], [Queued], [None], [], [InQueue], [None])
  }

  function Verdict(chans: seq<Option<bool>>, c: nat): Option<bool> {
    if c < |chans| then chans[c] else None
  }

  function Write(chans: seq<Option<bool>>, c: nat, v: Option<bool>): seq<Option<bool>> {
    if c < |chans| then chans[c := v] else chans
  }

  predicate Enabled(s: Sys, a: Action) {
    match a
    case Assign(i, p) => i < |s.reqs| && s.reqs[i] == Queued && p !in s.sent
    case Refuse(i) => i < |s.reqs| && s.reqs[i] == Queued
    case Cancel(i) => i < |s.reqs| && s.reqs[i] == Queued && s.stopped
    case Report(i) => i < |s.reqs| && (s.reqs[i].Got? || s.reqs[i].Reporting?) && |s.events| < CAPACITY
    case Receive(i) => i < |s.reqs| && s.reqs[i].Awaiting? && Verdict(s.chans, s.reqs[i].chan) != None
    case TimeOut(i) => i < |s.reqs| && s.reqs[i].Awaiting?
    case Leave(i) => i < |s.reqs| && s.reqs[i].Leaving?
    case Deliver(p, _) => p in s.sent && !s.sent[p].delivered
    case Stop(_) => !s.stopped
    case Consume => s.events != []
      && (s.pc == Requesting || s.pc == NoMorePeers || (s.pc == Stopped && IsWaiting(s.loop)))
    case SeeStop => (s.pc == Requesting || s.pc == NoMorePeers) && s.stopped
    case Retry => s.pc == NoMorePeers
    case End => s.pc == Stopped && !IsWaiting(s.loop)
  }

  function StopWith(s: Sys, err: Option<Error>): Sys {
    if s.stopped then s else s.(stopped := true, err := err)
  }

  function Spawn(s: Sys): Sys {
    s.(reqs := s.reqs + [Queued], chans := s.chans + [None], seen := s.seen + [InQueue], given := s.given + [None])
  }

  function Take(s: Sys, t: Turn): Sys {
    var s1 := s.(loop := t.loop, pc := t.pc);
    var s2 := if t.spawn then Spawn(s1) else s1;
    if t.stop == None then s2 else StopWith(s2, t.stop.value)
  }

  function Push(s: Sys, i: nat, ev: Event, next: Requester): Sys
    requires i < |s.reqs|
  {
    s.(events := s.events + [ev], senders := s.senders + [i], reqs := s.reqs[i := next])
  }

  function After(ev: Event): Phase {
    if ev.peer == None then Gone
    else match ev.kind
      case Sent => AtPeer(ev.peer.value)
      case SoftTimeout => Overdue(ev.peer.value)
      case _ => Gone
  }

  /** The first event leaves the channel; the history notes what it says about its sender. */
  function Consumed(s: Sys): Sys
    requires s.events != []
  {
    var s' := s.(events := s.events[1..]);
    if s.senders == [] || s.senders[0] >= |s.seen| then s'
    else s'.(senders := s.senders[1..], seen := s.seen[s.senders[0] := After(s.events[0])])
  }

  function Next(s: Sys, a: Action): Sys
    requires Enabled(s, a)
  {
    match a
    case Assign(i, p) => s.(reqs := s.reqs[i := Got(Some(p))], sent := s.sent[p := Entry(false, i)])
    case Refuse(i) => s.(reqs := s.reqs[i := Got(None)])
    case Cancel(i) => s.(reqs := s.reqs[i := Got(None)])
    case Report(i) => (
      match s.reqs[i]
      case Got(peer) =>
        Push(s, i, Event(Sent, peer),
             if peer == None then Finished
             else if peer.value in s.sent then Awaiting(peer.value, s.sent[peer.value].owner, false) else Panicked)
      case Reporting(p, c, soft, kind) =>
        Push(s, i, Event(kind, Some(p)), if kind == SoftTimeout then Awaiting(p, c, true) else Leaving(p)))
    case Receive(i) =>
      var r := s.reqs[i];
      s.(reqs := s.reqs[i := Reporting(r.to, r.chan, r.soft,
                                       if Verdict(s.chans, r.chan) == Some(true) then DeliveredValid
                                         else DeliveredInvalid)],
         chans := Write(s.chans, r.chan, None))
    case TimeOut(i) =>
      var r := s.reqs[i];
      s.(reqs := s.reqs[i := Reporting(r.to, r.chan, r.soft, if r.soft then HardTimeout else SoftTimeout)])
    case Leave(i) => s.(reqs := s.reqs[i := Finished], sent := s.sent - {s.reqs[i].to})
    case Deliver(p, valid) =>
      s.(sent := s.sent[p := s.sent[p].(delivered := true)], chans := Write(s.chans, s.sent[p].owner, Some(valid)),
         given := Write(s.given, s.sent[p].owner, Some(valid)))
    case Stop(reason) => StopWith(s, Some(reason))
    case Consume =>
      Take(Consumed(s), Handle(s.loop, s.pc, s.events[0]))
    case SeeStop => s.(pc := Stopped)
    case Retry => Take(s, Started(s.loop))
    case End => s.(pc := Done)
  }

  // ----- The invariant

  /** The phase a requester reaches once all its reports are consumed. */
  function Actual(r: Requester): Phase {
    match r
    case Queued => InQueue
    case Got(_) => InQueue
    case Awaiting(p, _, soft) => if soft then Overdue(p) else AtPeer(p)
    case Reporting(p, _, soft, _) => if soft then Overdue(p) else AtPeer(p)
    case _ => Gone
  }

  function Actuals(reqs: seq<Requester>): seq<Phase> {
    seq(|reqs|, i requires 0 <= i < |reqs| => Actual(reqs[i]))
  }

  /** A requester in this phase may report this. */
  predicate Allowed(ph: Phase, ev: Event) {
    match ev.kind
    case Sent => ph == InQueue
    case SoftTimeout => ev.peer != None && ph == AtPeer(ev.peer.value)
    case HardTimeout => ev.peer != None && ph == Overdue(ev.peer.value)
    case _ => ev.peer != None && (ph == AtPeer(ev.peer.value) || ph == Overdue(ev.peer.value))
  }

  predicate Holding(ph: Phase, p: Peer) {
    ph == AtPeer(p) || ph == Overdue(p)
  }

  /** No two requesters are outstanding at the same peer. */
  ghost predicate Exclusive(seen: seq<Phase>) {
    forall i, j, p :: 0 <= i < j < |seen| && Holding(seen[i], p) ==> !Holding(seen[j], p)
  }

  /** Consuming the events one by one is possible and leads from `seen` to `actual`; all along no
      two requesters are outstanding at the same peer. */
  ghost predicate Replays(seen: seq<Phase>, events: seq<Event>, senders: seq<nat>, actual: seq<Phase>)
    decreases |events|
  {
    && |events| == |senders| && Exclusive(seen)
    && if events == [] then seen == actual
       else && senders[0] < |seen| && Allowed(seen[senders[0]], events[0])
            && Replays(seen[senders[0] := After(events[0])], events[1..], senders[1..], actual)
  }

  lemma {:induction false} ReplayPush(seen: seq<Phase>, events: seq<Event>, senders: seq<nat>, actual: seq<Phase>,
                                      i: nat, ev: Event)
    requires Replays(seen, events, senders, actual) && i < |actual| && Allowed(actual[i], ev)
    requires Exclusive(actual[i := After(ev)])
    ensures Replays(seen, events + [ev], senders + [i], actual[i := After(ev)])
    decreases |events|
  {
    if events == [] {
      assert (events + [ev])[1..] == [];
    } else {
      ReplayPush(seen[senders[0] := After(events[0])], events[1..], senders[1..], actual, i, ev);
      assert (events + [ev])[1..] == events[1..] + [ev];
      assert (senders + [i])[1..] == senders[1..] + [i];
    }
  }

  lemma {:induction false} ReplaySpawn(seen: seq<Phase>, events: seq<Event>, senders: seq<nat>, actual: seq<Phase>)
    requires Replays(seen, events, senders, actual)
    ensures Replays(seen + [InQueue], events, senders, actual + [InQueue])
    decreases |events|
  {
    if events != [] {
      ReplaySpawn(seen[senders[0] := After(events[0])], events[1..], senders[1..], actual);
      assert (seen + [InQueue])[senders[0] := After(events[0])] == seen[senders[0] := After(events[0])] + [InQueue];
    }
  }

  function Rank(ph: Phase): nat {
    match ph
    case InQueue => 0
    case AtPeer(_) => 1
    case Overdue(_) => 2
    case Gone => 3
  }

  /** How many requesters are in a phase of the given rank. */
  function Count(seen: seq<Phase>, rank: nat): nat {
    if seen == [] then 0 else Count(seen[..|seen| - 1], rank) + if Rank(seen[|seen| - 1]) == rank then 1 else 0
  }

  lemma {:induction false} CountUpdate(seen: seq<Phase>, i: nat, ph: Phase, rank: nat)
    requires i < |seen|
    ensures Count(seen[i := ph], rank) ==
            Count(seen, rank) - (if Rank(seen[i]) == rank then 1 else 0) + (if Rank(ph) == rank then 1 else 0)
    decreases |seen|
  {
    var n := |seen| - 1;
    if i < n {
      CountUpdate(seen[..n], i, ph, rank);
      assert seen[i := ph][..n] == seen[..n][i := ph];
    } else {
      assert seen[i := ph][..n] == seen[..n];
    }
  }

  lemma CountSpawn(seen: seq<Phase>, rank: nat)
    ensures Count(seen + [InQueue], rank) == Count(seen, rank) + if rank == 0 then 1 else 0
  {
    assert (seen + [InQueue])[..|seen|] == seen;
  }

  /** A requester in a phase is counted there; if the count is one, it is the only one. */
  lemma {:induction false} Counted(seen: seq<Phase>, i: nat, rank: nat)
    requires i < |seen| && Rank(seen[i]) == rank
    ensures Count(seen, rank) > 0
    ensures Count(seen, rank) == 1 ==> forall j :: 0 <= j < |seen| && j != i ==> Rank(seen[j]) != rank
    decreases |seen|
  {
    var n := |seen| - 1;
    if i < n {
      Counted(seen[..n], i, rank);
      if Count(seen, rank) == 1 {
        forall j | 0 <= j < |seen| && j != i ensures Rank(seen[j]) != rank {
          assert j < n ==> seen[j] == seen[..n][j];
        }
      }
    } else if Count(seen, rank) == 1 {
      forall j | 0 <= j < n ensures Rank(seen[j]) != rank {
        if Rank(seen[..n][j]) == rank { Counted(seen[..n], j, rank); }
      }
    }
  }

  /** The flag, the peer and the counter of the loop say how many requesters are in which phase. */
  ghost predicate Tracks(l: Loop, seen: seq<Phase>) {
    && Count(seen, 0) == (if l.lastReqQueued then 1 else 0)
    && Count(seen, 1) == (if l.lastReqSentTo != None then 1 else 0)
    && (forall i :: 0 <= i < |seen| && seen[i].AtPeer? ==> l.lastReqSentTo == Some(seen[i].peer))
    && Count(seen, 2) == l.reqSrtoCount
    && !(l.lastReqQueued && l.lastReqSentTo != None)
  }

  /** Consuming an event keeps the loop's bookkeeping exact; in particular the counter does not
      underflow and a delivery is never booked on the wrong requester. */
  lemma UpdateTracks(l: Loop, seen: seq<Phase>, i: nat, ev: Event)
    requires Tracks(l, seen) && i < |seen| && Allowed(seen[i], ev) && Exclusive(seen)
    ensures Tracks(Updated(l, ev), seen[i := After(ev)])
  {
    Counted(seen, i, Rank(seen[i]));
    CountUpdate(seen, i, After(ev), 0);
    CountUpdate(seen, i, After(ev), 1);
    CountUpdate(seen, i, After(ev), 2);
    if seen[i].Overdue? && ev.peer == l.lastReqSentTo {
      var j := FindAtPeer(seen);
      assert Holding(seen[i], ev.peer.value) && Holding(seen[j], ev.peer.value);
      assert false;
    }
  }

  lemma {:induction false} FindAtPeer(seen: seq<Phase>) returns (j: nat)
    requires Count(seen, 1) > 0
    ensures j < |seen| && seen[j].AtPeer?
    decreases |seen|
  {
    var n := |seen| - 1;
    if seen[n].AtPeer? {
      j := n;
    } else {
      j := FindAtPeer(seen[..n]);
    }
  }

  lemma SpawnTracks(l: Loop, seen: seq<Phase>)
    requires Tracks(l, seen) && !l.lastReqQueued && l.lastReqSentTo == None
    ensures Tracks(l.(lastReqQueued := true), seen + [InQueue])
  {
    CountSpawn(seen, 0);
    CountSpawn(seen, 1);
    CountSpawn(seen, 2);
  }

  /** What each state of the loop means for what is outstanding. */
  predicate PcOk(pc: Pc, l: Loop, stopped: bool) {
    match pc
    case Requesting => l.lastReqQueued || l.lastReqSentTo != None
    case NoMorePeers => !l.lastReqQueued && l.lastReqSentTo == None && l.reqSrtoCount > 0
    case Stopped => stopped
    case Done => !IsWaiting(l) && stopped
  }

  lemma HandleKeeps(l: Loop, pc: Pc, stopped: bool, seen: seq<Phase>, i: nat, ev: Event)
    requires Tracks(l, seen) && i < |seen| && Allowed(seen[i], ev) && Exclusive(seen) && pc != Done
             && PcOk(pc, l, stopped)
    ensures var t := Handle(l, pc, ev);
            var seen' := seen[i := After(ev)];
            && Tracks(t.loop, if t.spawn then seen' + [InQueue] else seen')
            && PcOk(t.pc, t.loop, stopped || t.stop != None)
            && (t.stop == Some(None) ==> ev.kind == DeliveredValid)
  {
    UpdateTracks(l, seen, i, ev);
    Counted(seen, i, Rank(seen[i]));
    var l', seen' := Updated(l, ev), seen[i := After(ev)];
    if !l'.lastReqQueued && l'.lastReqSentTo == None {
      SpawnTracks(l', seen');
    }
  }

  /** The request is registered as sent to the peer, on behalf of this requester. */
  predicate Owns(sent: map<Peer, Entry>, p: Peer, i: nat) {
    p in sent && sent[p].owner == i
  }

  /** What a requester that heard a verdict may report. */
  predicate Told(kind: Kind, verdict: Option<bool>) {
    (kind == DeliveredValid ==> verdict == Some(true)) && (kind == DeliveredInvalid ==> verdict == Some(false))
  }

  predicate RequesterOk(r: Requester, i: nat, sent: map<Peer, Entry>, verdict: Option<bool>) {
    match r
    case Queued => true
    case Got(peer) => peer == None || Owns(sent, peer.value, i)
    case Awaiting(p, c, _) => c == i && Owns(sent, p, i)
    case Reporting(p, c, soft, kind) =>
      && c == i && Owns(sent, p, i) && kind != Sent && kind != (if soft then SoftTimeout else HardTimeout)
      && Told(kind, verdict)
    case Leaving(p) => Owns(sent, p, i)
    case Finished => true
    case Panicked => false
  }

  predicate Refers(r: Requester, p: Peer) {
    r == Got(Some(p)) || ((r.Awaiting? || r.Reporting? || r.Leaving?) && r.to == p)
  }

  /** Requesters and the peers the request was sent to belong together one to one. */
  ghost predicate RequestersOk(reqs: seq<Requester>, sent: map<Peer, Entry>, given: seq<Option<bool>>) {
    && (forall i :: 0 <= i < |reqs| ==> RequesterOk(reqs[i], i, sent, Verdict(given, i)))
    && (forall p :: p in sent ==> sent[p].owner < |reqs| && Refers(reqs[sent[p].owner], p))
  }

  /** A verdict channel is empty until the delivery comes in, and then holds nothing but the verdict. */
  ghost predicate VerdictsOk(reqs: seq<Requester>, sent: map<Peer, Entry>, chans: seq<Option<bool>>,
                             given: seq<Option<bool>>)
  {
    && |chans| == |given| == |reqs|
    && (forall p :: p in sent && !sent[p].delivered ==> Verdict(given, sent[p].owner) == None)
    && (forall i :: 0 <= i < |reqs| && reqs[i] == Queued ==> given[i] == None)
    && (forall c :: 0 <= c < |chans| && chans[c] != None ==> chans[c] == given[c])
  }

  /** Every verdict is reported as it was given. */
  ghost predicate ReportsOk(events: seq<Event>, senders: seq<nat>, given: seq<Option<bool>>) {
    && |events| == |senders|
    && forall k :: 0 <= k < |events| ==> senders[k] < |given| && Told(events[k].kind, given[senders[k]])
  }

  /** Success is reported only for a delivery that was found valid. */
  ghost predicate ResultOk(s: Sys) {
    && ReportsOk(s.events, s.senders, s.given)
    && (s.stopped && s.err == None ==> Some(true) in s.given)
  }

  ghost predicate HistoryOk(s: Sys) {
    Replays(s.seen, s.events, s.senders, Actuals(s.reqs))
  }

  ghost predicate Inv(s: Sys) {
    && RequestersOk(s.reqs, s.sent, s.given) && VerdictsOk(s.reqs, s.sent, s.chans, s.given)
    && ResultOk(s) && HistoryOk(s)
    && Tracks(s.loop, s.seen) && PcOk(s.pc, s.loop, s.stopped)
  }

  lemma InitInv()
    ensures Inv(Init())
  {
    assert Actuals(Init().reqs) == [InQueue];
    assert [InQueue][..0] == [];
  }

  /** Two requesters that own their peers have different ones. */
  lemma OwnersExclude(reqs: seq<Requester>, sent: map<Peer, Entry>, given: seq<Option<bool>>)
    requires RequestersOk(reqs, sent, given)
    ensures Exclusive(Actuals(reqs))
  {
    var phases := Actuals(reqs);
    forall i, j, p | 0 <= i < j < |phases| && Holding(phases[i], p) ensures !Holding(phases[j], p) {
      assert Owns(sent, p, i);
      assert Holding(phases[j], p) ==> Owns(sent, p, j);
    }
  }

  lemma ActualsUpdate(reqs: seq<Requester>, i: nat, r: Requester)
    requires i < |reqs|
    ensures Actuals(reqs[i := r]) == Actuals(reqs)[i := Actual(r)]
  {
  }

  lemma ActualsSpawn(reqs: seq<Requester>)
    ensures Actuals(reqs + [Queued]) == Actuals(reqs) + [InQueue]
  {
  }

  /** A requester moves on without giving up or taking a peer. */
  lemma MoveOn(reqs: seq<Requester>, sent: map<Peer, Entry>, chans: seq<Option<bool>>, given: seq<Option<bool>>, i: nat,
               r: Requester)
    requires RequestersOk(reqs, sent, given) && VerdictsOk(reqs, sent, chans, given)
    requires i < |reqs| && RequesterOk(r, i, sent, Verdict(given, i)) && r != Queued
    requires forall p :: Refers(reqs[i], p) ==> Refers(r, p)
    ensures RequestersOk(reqs[i := r], sent, given)
    ensures VerdictsOk(reqs[i := r], sent, chans, given)
            && VerdictsOk(reqs[i := r], sent, Write(chans, i, None), given)
  {
  }

  lemma AssignKeeps(reqs: seq<Requester>, sent: map<Peer, Entry>, chans: seq<Option<bool>>, given: seq<Option<bool>>,
                    i: nat,
                    p: Peer)
    requires RequestersOk(reqs, sent, given) && VerdictsOk(reqs, sent, chans, given)
    requires i < |reqs| && reqs[i] == Queued && p !in sent
    ensures RequestersOk(reqs[i := Got(Some(p))], sent[p := Entry(false, i)], given)
    ensures VerdictsOk(reqs[i := Got(Some(p))], sent[p := Entry(false, i)], chans, given)
  {
    var reqs', sent' := reqs[i := Got(Some(p))], sent[p := Entry(false, i)];
    forall k | 0 <= k < |reqs'| ensures RequesterOk(reqs'[k], k, sent', Verdict(given, k)) {
      assert RequesterOk(reqs[k], k, sent, Verdict(given, k));
    }
  }

  lemma LeaveKeeps(reqs: seq<Requester>, sent: map<Peer, Entry>, chans: seq<Option<bool>>, given: seq<Option<bool>>,
                   i: nat)
    requires RequestersOk(reqs, sent, given) && VerdictsOk(reqs, sent, chans, given)
    requires i < |reqs| && reqs[i].Leaving?
    ensures RequestersOk(reqs[i := Finished], sent - {reqs[i].to}, given)
    ensures VerdictsOk(reqs[i := Finished], sent - {reqs[i].to}, chans, given)
  {
    assert RequesterOk(reqs[i], i, sent, Verdict(given, i));
    forall k | 0 <= k < |reqs| && k != i ensures RequesterOk(reqs[k], k, sent - {reqs[i].to}, Verdict(given, k)) {
      assert RequesterOk(reqs[k], k, sent, Verdict(given, k));
    }
  }

  lemma DeliverKeeps(reqs: seq<Requester>, sent: map<Peer, Entry>, chans: seq<Option<bool>>,
                     given: seq<Option<bool>>, p: Peer, valid: bool)
    requires RequestersOk(reqs, sent, given) && VerdictsOk(reqs, sent, chans, given)
    requires p in sent && !sent[p].delivered
    ensures var sent', c := sent[p := sent[p].(delivered := true)], sent[p].owner;
            && RequestersOk(reqs, sent', Write(given, c, Some(valid)))
            && VerdictsOk(reqs, sent', Write(chans, c, Some(valid)), Write(given, c, Some(valid)))
  {
    var sent', c := sent[p := sent[p].(delivered := true)], sent[p].owner;
    var given' := Write(given, c, Some(valid));
    assert Refers(reqs[c], p) && given[c] == None;
    forall k | 0 <= k < |reqs| ensures RequesterOk(reqs[k], k, sent', Verdict(given', k)) {
      assert RequesterOk(reqs[k], k, sent, Verdict(given, k));
    }
    forall q | q in sent' && !sent'[q].delivered ensures Verdict(given', sent'[q].owner) == None {
      assert Refers(reqs[sent[q].owner], q);
    }
  }

  lemma SpawnKeeps(reqs: seq<Requester>, sent: map<Peer, Entry>, chans: seq<Option<bool>>, given: seq<Option<bool>>)
    requires RequestersOk(reqs, sent, given) && VerdictsOk(reqs, sent, chans, given)
    ensures RequestersOk(reqs + [Queued], sent, given + [None])
            && VerdictsOk(reqs + [Queued], sent, chans + [None], given + [None])
  {
    forall k | 0 <= k < |reqs| ensures RequesterOk(reqs[k], k, sent, Verdict(given + [None], k)) {
      assert RequesterOk(reqs[k], k, sent, Verdict(given, k));
    }
  }

  lemma RequestersKeep(s: Sys, a: Action)
    requires Inv(s) && Enabled(s, a)
    ensures var s' := Next(s, a);
            RequestersOk(s'.reqs, s'.sent, s'.given) && VerdictsOk(s'.reqs, s'.sent, s'.chans, s'.given)
  {
    hide RequestersOk, VerdictsOk, ResultOk, HistoryOk, Tracks, PcOk, Handle;
    match a
    case Assign(i, p) => AssignKeeps(s.reqs, s.sent, s.chans, s.given, i, p);
    case Leave(i) => LeaveKeeps(s.reqs, s.sent, s.chans, s.given, i);
    case Deliver(p, valid) => DeliverKeeps(s.reqs, s.sent, s.chans, s.given, p, valid);
    case Consume => SpawnKeeps(s.reqs, s.sent, s.chans, s.given);
    case Retry => SpawnKeeps(s.reqs, s.sent, s.chans, s.given);
    case SeeStop =>
    case End =>
    case Stop(_) =>
    case _ => MoverKeeps(s, a);
  }

  lemma MoverKeeps(s: Sys, a: Action)
    requires Inv(s) && Enabled(s, a)
    requires !a.Assign? && !a.Leave? && !a.Deliver? && !a.Consume? && !a.Retry? && !a.SeeStop? && !a.End? && !a.Stop?
    ensures var s' := Next(s, a);
            RequestersOk(s'.reqs, s'.sent, s'.given) && VerdictsOk(s'.reqs, s'.sent, s'.chans, s'.given)
  {
    hide RequestersOk, VerdictsOk, ResultOk, HistoryOk, Tracks, PcOk, Handle;
    RequesterIs(s.reqs, s.sent, s.given, a.i);
    ReceivedIs(s.reqs, s.sent, s.chans, s.given, a.i);
    MoveOn(s.reqs, s.sent, s.chans, s.given, a.i, Next(s, a).reqs[a.i]);
  }

  lemma ReceivedIs(reqs: seq<Requester>, sent: map<Peer, Entry>, chans: seq<Option<bool>>, given: seq<Option<bool>>,
                   i: nat)
    requires VerdictsOk(reqs, sent, chans, given) && i < |reqs|
    ensures Verdict(chans, i) != None ==>
              Told(if Verdict(chans, i) == Some(true) then DeliveredValid else DeliveredInvalid, Verdict(given, i))
  {
    if Verdict(chans, i) != None && Verdict(chans, i) != Some(true) {
      assert !Verdict(chans, i).value;
    }
  }

  lemma RequesterIs(reqs: seq<Requester>, sent: map<Peer, Entry>, given: seq<Option<bool>>, i: nat)
    requires RequestersOk(reqs, sent, given) && i < |reqs|
    ensures RequesterOk(reqs[i], i, sent, Verdict(given, i))
  {
  }

  lemma ResultKeeps(s: Sys, a: Action)
    requires Inv(s) && Enabled(s, a)
    ensures ResultOk(Next(s, a))
  {
    hide HistoryOk, Tracks, PcOk, RequestersOk, Updated, IsWaiting, ReportsOk, Actuals;
    match a
    case Report(i) =>
      RequesterIs(s.reqs, s.sent, s.given, i);
      var ev := Next(s, a).events[|s.events|];
      assert Next(s, a).events == s.events + [ev];
      ReportsMore(s.events, s.senders, s.given, i, ev);
    case Deliver(p, valid) =>
      DeliveredTold(s.reqs, s.sent, s.chans, s.given, p);
      ReportsGiven(s.events, s.senders, s.given, s.sent[p].owner, valid);
    case Consume =>
      FirstSender(s);
      ReportsRest(s.events, s.senders, s.given);
    case Retry =>
      ReportsSpawn(s.events, s.senders, s.given);
    case _ =>
  }

  lemma DeliveredTold(reqs: seq<Requester>, sent: map<Peer, Entry>, chans: seq<Option<bool>>,
                      given: seq<Option<bool>>, p: Peer)
    requires RequestersOk(reqs, sent, given) && VerdictsOk(reqs, sent, chans, given) && p in sent && !sent[p].delivered
    ensures sent[p].owner < |given| && given[sent[p].owner] == None
  {
  }

  lemma FirstSender(s: Sys)
    requires HistoryOk(s) && s.events != []
    ensures s.senders != [] && s.senders[0] < |s.seen|
  {
  }

  lemma ReportsMore(events: seq<Event>, senders: seq<nat>, given: seq<Option<bool>>, i: nat, ev: Event)
    requires ReportsOk(events, senders, given) && i < |given| && Told(ev.kind, given[i])
    ensures ReportsOk(events + [ev], senders + [i], given)
  {
  }

  /** A verdict that comes in has not been reported before. */
  lemma ReportsGiven(events: seq<Event>, senders: seq<nat>, given: seq<Option<bool>>, c: nat, valid: bool)
    requires ReportsOk(events, senders, given) && c < |given| && given[c] == None
    ensures ReportsOk(events, senders, given[c := Some(valid)])
    ensures Some(true) in given ==> Some(true) in given[c := Some(valid)]
  {
    if k :| 0 <= k < |given| && given[k] == Some(true) {
      assert given[c := Some(valid)][k] == Some(true);
    }
  }

  lemma ReportsRest(events: seq<Event>, senders: seq<nat>, given: seq<Option<bool>>)
    requires ReportsOk(events, senders, given) && events != []
    ensures ReportsOk(events[1..], senders[1..], given) && ReportsOk(events[1..], senders[1..], given + [None])
    ensures events[0].kind == DeliveredValid ==> Some(true) in given
  {
  }

  lemma ReportsSpawn(events: seq<Event>, senders: seq<nat>, given: seq<Option<bool>>)
    requires ReportsOk(events, senders, given)
    ensures ReportsOk(events, senders, given + [None])
  {
  }

  lemma HistoryKeeps(s: Sys, a: Action)
    requires Inv(s) && Enabled(s, a)
    ensures HistoryOk(Next(s, a))
  {
    hide Exclusive, Tracks, PcOk, RequestersOk, VerdictsOk, ResultOk, Handle, Owns, Actuals;
    var s' := Next(s, a);
    ActualsSpawn(s.reqs);
    match a
    case Consume =>
      ReplaySpawn(Consumed(s).seen, s.events[1..], s.senders[1..], Actuals(s.reqs));
    case Retry =>
      ReplaySpawn(s.seen, s.events, s.senders, Actuals(s.reqs));
    case Report(i) =>
      ReportReplays(s, i);
    case Deliver(_, _) =>
    case Stop(_) =>
    case SeeStop =>
    case End =>
    case _ =>
      SameActuals(s.reqs, a.i, s'.reqs[a.i]);
  }

  lemma SameActuals(reqs: seq<Requester>, i: nat, r: Requester)
    requires i < |reqs| && Actual(r) == Actual(reqs[i])
    ensures Actuals(reqs[i := r]) == Actuals(reqs)
  {
  }

  lemma ReportReplays(s: Sys, i: nat)
    requires Inv(s) && Enabled(s, Report(i))
    ensures HistoryOk(Next(s, Report(i)))
  {
    hide Exclusive, Tracks, PcOk, RequestersOk, VerdictsOk, ResultOk, Replays;
    var s' := Next(s, Report(i));
    var ev := s'.events[|s.events|];
    assert s'.events == s.events + [ev] && s'.senders == s.senders + [i];
    RequesterIs(s.reqs, s.sent, s.given, i);
    RequestersKeep(s, Report(i));
    OwnersExclude(s'.reqs, s'.sent, s'.given);
    ActualsUpdate(s.reqs, i, s'.reqs[i]);
    ReplayPush(s.seen, s.events, s.senders, Actuals(s.reqs), i, ev);
  }

  lemma LoopKeeps(s: Sys, a: Action)
    requires Inv(s) && Enabled(s, a)
    ensures var s' := Next(s, a); Tracks(s'.loop, s'.seen) && PcOk(s'.pc, s'.loop, s'.stopped)
  {
    hide Tracks, RequestersOk, VerdictsOk, ResultOk, Actuals, Exclusive, Updated;
    match a
    case Consume =>
      HandleKeeps(s.loop, s.pc, s.stopped, s.seen, s.senders[0], s.events[0]);
    case Retry =>
      SpawnTracks(s.loop, s.seen);
    case _ =>
  }

  /** Every step of every participant keeps the invariant. */
  lemma StepKeeps(s: Sys, a: Action)
    requires Inv(s) && Enabled(s, a)
    ensures Inv(Next(s, a))
  {
    hide RequestersOk, VerdictsOk, ResultOk, HistoryOk, Tracks, PcOk, Enabled, Next;
    RequestersKeep(s, a);
    ResultKeeps(s, a);
    HistoryKeeps(s, a);
    LoopKeeps(s, a);
  }

  // ----- Whole runs

  ghost predicate Runs(s: Sys, run: seq<Action>, s': Sys)
    decreases |run|
  {
    if run == [] then s == s' else Enabled(s, run[0]) && Runs(Next(s, run[0]), run[1..], s')
  }

  lemma {:induction false} RunKeeps(s: Sys, run: seq<Action>, s': Sys)
    requires Inv(s) && Runs(s, run, s')
    ensures Inv(s')
    ensures Some(true) in s'.given ==> Some(true) in s.given || exists p :: Deliver(p, true) in run
    decreases |run|
  {
    hide Inv;
    if run != [] {
      StepKeeps(s, run[0]);
      RunKeeps(Next(s, run[0]), run[1..], s');
      ValidatedBy(s, run[0]);
    }
  }

  lemma ValidatedBy(s: Sys, a: Action)
    requires Enabled(s, a)
    ensures Some(true) in Next(s, a).given ==> Some(true) in s.given || (a.Deliver? && a == Deliver(a.p, true))
  {
  }

  /** In every interleaving: the flag, the peer and the counter of the loop equal the numbers of
      requesters whose consumed reports leave them queued, sent and timed out softly; while the
      loop is requesting exactly one is queued or sent; no requester panics; a verdict never meets
      a full channel and is reported as it was given; and success is only ever reported after a
      delivery was found valid. */
  lemma Safety(run: seq<Action>, s: Sys)
    requires Runs(Init(), run, s)
    ensures Count(s.seen, 0) == if s.loop.lastReqQueued then 1 else 0
    ensures Count(s.seen, 1) == if s.loop.lastReqSentTo != None then 1 else 0
    ensures s.loop.reqSrtoCount == Count(s.seen, 2) >= 0
    ensures s.pc == Requesting ==> Count(s.seen, 0) + Count(s.seen, 1) == 1
    ensures s.pc == NoMorePeers ==> Count(s.seen, 0) + Count(s.seen, 1) == 0 && Count(s.seen, 2) > 0
    ensures forall i :: 0 <= i < |s.reqs| ==> s.reqs[i] != Panicked
    ensures forall p :: p in s.sent && !s.sent[p].delivered ==>
              s.sent[p].owner < |s.chans| && s.chans[s.sent[p].owner] == None
    ensures |s.events| == |s.senders| && forall k :: 0 <= k < |s.events| ==>
              && s.senders[k] < |s.given|
              && (s.events[k].kind == DeliveredValid ==> s.given[s.senders[k]] == Some(true))
              && (s.events[k].kind == DeliveredInvalid ==> s.given[s.senders[k]] == Some(false))
    ensures s.stopped && s.err == None ==> exists p :: Deliver(p, true) in run
  {
    InitInv();
    RunKeeps(Init(), run, s);
    forall i | 0 <= i < |s.reqs| ensures s.reqs[i] != Panicked {
      RequesterIs(s.reqs, s.sent, s.given, i);
    }
  }

  lemma {:induction false} CountNone(seen: seq<Phase>, rank: nat)
    requires Count(seen, rank) == 0
    ensures forall i :: 0 <= i < |seen| ==> Rank(seen[i]) != rank
  {
    if i :| 0 <= i < |seen| && Rank(seen[i]) == rank {
      Counted(seen, i, rank);
    }
  }

  lemma SenderIsLeft(seen: seq<Phase>, events: seq<Event>, senders: seq<nat>, actual: seq<Phase>)
    requires Replays(seen, events, senders, actual)
    ensures events != [] ==> exists i :: 0 <= i < |seen| && Rank(seen[i]) != 3
  {
  }

  /** With nothing outstanding the channel is empty and every requester has made its last report. */
  lemma NoneOutstanding(s: Sys)
    requires Inv(s) && !IsWaiting(s.loop)
    ensures s.events == [] && forall i :: 0 <= i < |s.reqs| ==> s.reqs[i] == Finished || s.reqs[i].Leaving?
  {
    CountNone(s.seen, 0);
    CountNone(s.seen, 1);
    CountNone(s.seen, 2);
    SenderIsLeft(s.seen, s.events, s.senders, Actuals(s.reqs));
    forall i | 0 <= i < |s.reqs| ensures s.reqs[i] == Finished || s.reqs[i].Leaving? {
      RequesterIs(s.reqs, s.sent, s.given, i);
      assert Rank(s.seen[i]) == 3 && Actuals(s.reqs)[i] == s.seen[i];
    }
  }

  /** The loop ends only with no requester outstanding. */
  lemma LoopEndsClean(run: seq<Action>, s: Sys)
    requires Runs(Init(), run, s) && s.pc == Done
    ensures s.stopped && s.events == [] && forall i :: 0 <= i < |s.reqs| ==> s.reqs[i] == Finished || s.reqs[i].Leaving?
  {
    InitInv();
    RunKeeps(Init(), run, s);
    NoneOutstanding(s);
  }

  /** At most one requester at a time waits for the distributor, so the request is never queued
      twice. */
  lemma QueuedOnce(run: seq<Action>, s: Sys, i: nat, j: nat)
    requires Runs(Init(), run, s) && i < |s.reqs| && j < |s.reqs| && s.reqs[i] == Queued && s.reqs[j] == Queued
    ensures i == j
  {
    InitInv();
    RunKeeps(Init(), run, s);
    StillInQueue(s.seen, s.events, s.senders, Actuals(s.reqs), i);
    StillInQueue(s.seen, s.events, s.senders, Actuals(s.reqs), j);
    Counted(s.seen, i, 0);
  }

  lemma {:induction false} StillInQueue(seen: seq<Phase>, events: seq<Event>, senders: seq<nat>, actual: seq<Phase>,
                                        i: nat)
    requires Replays(seen, events, senders, actual) && i < |actual| && actual[i] == InQueue
    ensures i < |seen| && seen[i] == InQueue
    decreases |events|
  {
    if events != [] {
      StillInQueue(seen[senders[0] := After(events[0])], events[1..], senders[1..], actual, i);
    }
  }

  // ----- How a retrieval ends

  /** No requester is outstanding, as far as its consumed reports tell. */
  ghost predicate Idle(seen: seq<Phase>) {
    Count(seen, 0) == Count(seen, 1) == Count(seen, 2) == 0
  }

  /** The phases after the first event in the channel. */
  ghost function Heard(s: Sys): seq<Phase>
    requires s.events != [] && s.senders != [] && s.senders[0] < |s.seen|
  {
    s.seen[s.senders[0] := After(s.events[0])]
  }

  /** What an event does to a loop that has not seen a stop. A valid delivery ends the retrieval with
      success. After any other event, while a requester is queued or within its time, the loop waits.
      If none is, a soft timeout or an invalid delivery starts one, unless peers have run out before;
      and without one the loop waits for those that are late, and gives up when there are none. */
  lemma ConsumeExactly(s: Sys)
    requires Inv(s) && Enabled(s, Consume) && s.pc != Stopped
    ensures s.senders != [] && s.senders[0] < |s.seen|
    ensures var s', kind := Next(s, Consume), s.events[0].kind;
            var busy := Count(Heard(s), 0) + Count(Heard(s), 1) > 0;
            var again := s.pc == Requesting && (kind == SoftTimeout || kind == DeliveredInvalid);
            && s'.events == s.events[1..]
            && s'.reqs == (if kind != DeliveredValid && !busy && again then s.reqs + [Queued] else s.reqs)
            && s'.stopped == (s.stopped || kind == DeliveredValid || (!again && Idle(Heard(s))))
            && (s'.stopped && !s.stopped ==> s'.err == if kind == DeliveredValid then None else Some(NoPeers))
            && (s.stopped || !s'.stopped ==> s'.err == s.err)
            && s'.pc == (if kind == DeliveredValid then Stopped
                         else if busy || again then Requesting
                         else if Idle(Heard(s)) then Done else NoMorePeers)
            && s'.seen == (if kind != DeliveredValid && !busy && again then Heard(s) + [InQueue] else Heard(s))
  {
    FirstSender(s);
    ConsumeTracks(s);
    hide RequestersOk, VerdictsOk, ResultOk, HistoryOk, Count, Exclusive, Allowed;
  }

  lemma ConsumeTracks(s: Sys)
    requires Inv(s) && s.events != [] && s.senders != [] && s.senders[0] < |s.seen|
    ensures Allowed(s.seen[s.senders[0]], s.events[0]) && Tracks(Updated(s.loop, s.events[0]), Heard(s))
    ensures s.seen[s.senders[0]].InQueue? ==> s.loop.lastReqQueued
    ensures s.seen[s.senders[0]].AtPeer? ==> s.loop.lastReqSentTo == Some(s.seen[s.senders[0]].peer)
  {
    hide RequestersOk, VerdictsOk, ResultOk, Updated;
    UpdateTracks(s.loop, s.seen, s.senders[0], s.events[0]);
    Counted(s.seen, s.senders[0], Rank(s.seen[s.senders[0]]));
  }

  /** The step that decides how a retrieval ends. */
  ghost predicate Decides(s: Sys, a: Action, err: Option<Error>) {
    match a
    case Stop(reason) => err == Some(reason)
    case Consume => s.events != [] && s.pc != Stopped && s.pc != Done && (
      if s.events[0].kind == DeliveredValid then err == None
      else err == Some(NoPeers) && Idle(Next(s, a).seen))
    case _ => false
  }

  lemma DecidesExactly(s: Sys, a: Action, err: Option<Error>)
    requires Inv(s) && Enabled(s, a) && !s.stopped
    ensures Decides(s, a, err) <==> Next(s, a).stopped && Next(s, a).err == err
  {
    hide Inv, Count;
    if a == Consume {
      PcKnown(s);
      ConsumeExactly(s);
      CountSpawn(Heard(s), 0);
    }
  }

  /** Before a stop, the loop is not in the states after one. */
  lemma PcKnown(s: Sys)
    requires Inv(s) && !s.stopped
    ensures s.pc == Requesting || s.pc == NoMorePeers
  {
  }

  lemma {:induction false} StopsOnce(s: Sys, run: seq<Action>, s': Sys)
    requires s.stopped && Runs(s, run, s')
    ensures s'.stopped && s'.err == s.err
    decreases |run|
  {
    if run != [] {
      StopKept(s, run[0]);
      StopsOnce(Next(s, run[0]), run[1..], s');
    }
  }

  lemma StopKept(s: Sys, a: Action)
    requires s.stopped && Enabled(s, a)
    ensures Next(s, a).stopped && Next(s, a).err == s.err
  {
  }

  /** The run decides with this result at step k, in the state `at`. */
  ghost predicate DecidedAt(s: Sys, run: seq<Action>, k: nat, at: Sys, err: Option<Error>) {
    k < |run| && Runs(s, run[..k], at) && !at.stopped && Decides(at, run[k], err)
  }

  lemma {:induction false} DecidedSome(s: Sys, run: seq<Action>, s': Sys) returns (k: nat, at: Sys)
    requires Inv(s) && Runs(s, run, s') && !s.stopped && s'.stopped
    ensures DecidedAt(s, run, k, at, s'.err)
    decreases |run|
  {
    hide Inv, Decides, Enabled, Next;
    StepKeeps(s, run[0]);
    var next := Next(s, run[0]);
    if next.stopped {
      k, at := 0, s;
      StopsOnce(next, run[1..], s');
      DecidesExactly(s, run[0], s'.err);
    } else {
      k, at := DecidedSome(next, run[1..], s');
      k := k + 1;
      assert run[..k][1..] == run[1..][..k - 1];
    }
  }

  lemma {:induction false} DecidedOnly(s: Sys, run: seq<Action>, s': Sys, k: nat, at: Sys, err: Option<Error>)
    requires Inv(s) && Runs(s, run, s') && DecidedAt(s, run, k, at, err)
    ensures s'.stopped && s'.err == err
    decreases |run|
  {
    hide Inv, Decides, Enabled, Next;
    if k == 0 {
      DecidesExactly(s, run[0], err);
      StopsOnce(Next(s, run[0]), run[1..], s');
    } else {
      StepKeeps(s, run[0]);
      assert run[..k][1..] == run[1..][..k - 1];
      DecidedOnly(Next(s, run[0]), run[1..], s', k - 1, at, err);
    }
  }

  /** In every interleaving the retrieval ends with a result exactly if some step before any stop
      decides it: success by taking a valid delivery, an error from outside by the first stop with it,
      and a lack of peers by taking another event with no requester left. */
  lemma ResultExactly(run: seq<Action>, s: Sys, err: Option<Error>)
    requires Runs(Init(), run, s)
    ensures s.stopped && s.err == err <==> exists k, at :: DecidedAt(Init(), run, k, at, err)
  {
    hide Decides, DecidedAt, Inv, Runs;
    InitInv();
    if s.stopped && s.err == err {
      var k, at := DecidedSome(Init(), run, s);
    }
    if k, at :| DecidedAt(Init(), run, k, at, err) {
      DecidedOnly(Init(), run, s, k, at, err);
    }
  }

  /** A requester reports a valid delivery. */
  predicate ReportsValid(s: Sys, a: Action) {
    a.Report? && a.i < |s.reqs| && s.reqs[a.i].Reporting? && s.reqs[a.i].kind == DeliveredValid
  }

  /** Some requester reports a valid delivery in the run. */
  ghost predicate Reported(s: Sys, run: seq<Action>)
    decreases |run|
  {
    run != [] && Enabled(s, run[0]) && (ReportsValid(s, run[0]) || Reported(Next(s, run[0]), run[1..]))
  }

  ghost predicate ValidWaits(s: Sys) {
    exists k :: 0 <= k < |s.events| && s.events[k].kind == DeliveredValid
  }

  /** What is known when the retrieval is not stopped from outside: a valid delivery was reported
      exactly if the report still waits or has ended the retrieval. */
  ghost predicate Accounted(s: Sys, reported: bool) {
    && (reported <==> ValidWaits(s) || (s.stopped && s.err == None))
    && (s.stopped ==> s.err == None || (s.err == Some(NoPeers) && s.pc == Done))
  }

  lemma AccountedOn(s: Sys, a: Action, reported: bool)
    requires Inv(s) && Enabled(s, a) && !a.Stop? && Accounted(s, reported)
    ensures Accounted(Next(s, a), reported || ReportsValid(s, a))
  {
    hide Inv, Count, ValidWaits, Handle;
    if a == Consume {
      WaitsRest(s);
      if s.stopped {
        StopKept(s, a);
        DoneWaits(s);
      } else {
        PcKnown(s);
        ConsumeExactly(s);
      }
      WaitsSame(s.(events := s.events[1..]), Next(s, a));
    } else if a.Report? {
      WaitsMore(s, Next(s, a));
    } else {
      WaitsSame(s, Next(s, a));
    }
  }

  lemma DoneWaits(s: Sys)
    requires Enabled(s, Consume)
    ensures s.pc != Done
  {
  }

  lemma WaitsSame(s: Sys, s': Sys)
    requires s.events == s'.events
    ensures ValidWaits(s) <==> ValidWaits(s')
  {
  }

  lemma WaitsRest(s: Sys)
    requires s.events != []
    ensures ValidWaits(s) <==> s.events[0].kind == DeliveredValid || ValidWaits(s.(events := s.events[1..]))
  {
    var rest := s.(events := s.events[1..]);
    if k :| 0 <= k < |rest.events| && rest.events[k].kind == DeliveredValid {
      assert s.events[k + 1] == rest.events[k];
    }
    if k :| 0 < k < |s.events| && s.events[k].kind == DeliveredValid {
      assert rest.events[k - 1] == s.events[k];
    }
  }

  lemma WaitsMore(s: Sys, s': Sys)
    requires |s'.events| == |s.events| + 1 && s'.events[..|s.events|] == s.events
    ensures ValidWaits(s') <==> ValidWaits(s) || s'.events[|s.events|].kind == DeliveredValid
  {
    if k :| 0 <= k < |s.events| && s.events[k].kind == DeliveredValid {
      assert s'.events[k] == s.events[k];
    }
    if k :| 0 <= k < |s.events| && s'.events[k].kind == DeliveredValid {
      assert s'.events[k] == s.events[k];
    }
  }

  lemma {:induction false} AccountedRun(s: Sys, run: seq<Action>, s': Sys, reported: bool)
    requires Inv(s) && Runs(s, run, s') && (forall a :: a in run ==> !a.Stop?) && Accounted(s, reported)
    ensures Accounted(s', reported || Reported(s, run))
    decreases |run|
  {
    hide Inv, Accounted, ReportsValid;
    if run != [] {
      AccountedOn(s, run[0], reported);
      StepKeeps(s, run[0]);
      AccountedRun(Next(s, run[0]), run[1..], s', reported || ReportsValid(s, run[0]));
    }
  }

  /** A retrieval that comes to its end without being stopped from outside has succeeded exactly if
      some requester reported a valid delivery; otherwise peers have run out. */
  lemma EndsExactly(run: seq<Action>, s: Sys)
    requires Runs(Init(), run, s) && s.pc == Done && forall a :: a in run ==> !a.Stop?
    ensures s.stopped && (s.err == None <==> Reported(Init(), run))
    ensures s.err == None || s.err == Some(NoPeers)
  {
    hide Runs, Reported, Inv;
    InitInv();
    AccountedRun(Init(), run, s, false);
    LoopEndsClean(run, s);
  }

  // ----- After the stop

  function Weight(r: Requester): nat {
    match r
    case Queued => 12
    case Got(_) => 10
    case Awaiting(_, _, soft) => if soft then 5 else 8
    case Reporting(_, _, _, kind) => if kind == SoftTimeout then 7 else 4
    case Leaving(_) => 2
    case _ => 0
  }

  function Weights(reqs: seq<Requester>): nat {
    if reqs == [] then 0 else Weights(reqs[..|reqs| - 1]) + Weight(reqs[|reqs| - 1])
  }

  lemma {:induction false} WeightsUpdate(reqs: seq<Requester>, i: nat, r: Requester)
    requires i < |reqs|
    ensures Weights(reqs[i := r]) == Weights(reqs) - Weight(reqs[i]) + Weight(r)
    decreases |reqs|
  {
    var n := |reqs| - 1;
    if i < n {
      WeightsUpdate(reqs[..n], i, r);
      assert reqs[i := r][..n] == reqs[..n][i := r];
    } else {
      assert reqs[i := r][..n] == reqs[..n];
    }
  }

  function Undelivered(sent: map<Peer, Entry>): set<Peer> {
    set p | p in sent && !sent[p].delivered
  }

  /** What is left to do. */
  function Left(s: Sys): nat {
    Weights(s.reqs) + |s.events| + |Undelivered(s.sent)| + if s.pc == Done then 0 else 1
  }

  lemma UndeliveredChange(sent: map<Peer, Entry>, p: Peer, i: nat)
    ensures p !in sent ==> |Undelivered(sent[p := Entry(false, i)])| == |Undelivered(sent)| + 1
    ensures p in sent && !sent[p].delivered ==>
              |Undelivered(sent[p := sent[p].(delivered := true)])| == |Undelivered(sent)| - 1
    ensures |Undelivered(sent - {p})| <= |Undelivered(sent)|
  {
    var u := Undelivered(sent);
    assert p !in sent ==> Undelivered(sent[p := Entry(false, i)]) == u + {p};
    assert p in sent && !sent[p].delivered ==> Undelivered(sent[p := sent[p].(delivered := true)]) == u - {p};
    assert Undelivered(sent - {p}) == u - {p};
  }

  /** Once the loop has seen the stop, every further step brings the end nearer. */
  lemma StoppedDrains(s: Sys, a: Action)
    requires Inv(s) && Enabled(s, a) && (s.pc == Stopped || s.pc == Done)
    ensures var s' := Next(s, a); (s'.pc == Stopped || s'.pc == Done) && Left(s') < Left(s)
  {
    hide RequestersOk, VerdictsOk, ResultOk, HistoryOk, Tracks, Weights, Undelivered, Updated;
    if a.Deliver? {
      UndeliveredChange(s.sent, a.p, 0);
    } else if a.Leave? {
      WeightsUpdate(s.reqs, a.i, Finished);
      UndeliveredChange(s.sent, s.reqs[a.i].to, 0);
    } else if a.Assign? {
      WeightsUpdate(s.reqs, a.i, Got(Some(a.p)));
      UndeliveredChange(s.sent, a.p, a.i);
    } else if a.Refuse? || a.Cancel? || a.Report? || a.Receive? || a.TimeOut? {
      RequesterIs(s.reqs, s.sent, s.given, a.i);
      WeightsUpdate(s.reqs, a.i, Next(s, a).reqs[a.i]);
    }
  }

  /** So after the stop no run is longer than what was left. */
  lemma {:induction false} StoppedRunsAreShort(s: Sys, run: seq<Action>, s': Sys)
    requires Inv(s) && (s.pc == Stopped || s.pc == Done) && Runs(s, run, s')
    ensures |run| + Left(s') <= Left(s)
    decreases |run|
  {
    hide Inv, Left;
    if run != [] {
      StoppedDrains(s, run[0]);
      StepKeeps(s, run[0]);
      StoppedRunsAreShort(Next(s, run[0]), run[1..], s');
    }
  }

  /** Unless the loop is done, somebody can move without help from the outside: there is no
      deadlock, whether or not the channel is full. With the bound above, a run that cannot be
      continued after a stop has ended the loop. */
  lemma Progress(s: Sys) returns (a: Action)
    requires Inv(s) && s.pc != Done
    ensures Enabled(s, a) && !a.Deliver? && !a.Stop?
  {
    if s.pc == Stopped && !IsWaiting(s.loop) {
      a := End;
    } else if s.events != [] {
      a := Consume;
    } else if s.pc == NoMorePeers {
      a := Retry;
    } else {
      var i := Outstanding(s.seen);
      RequesterIs(s.reqs, s.sent, s.given, i);
      assert Actuals(s.reqs)[i] == s.seen[i];
      a := match s.reqs[i]
           case Queued => Refuse(i)
           case Awaiting(_, _, _) => TimeOut(i)
           case _ => Report(i);
    }
  }

  lemma Outstanding(seen: seq<Phase>) returns (i: nat)
    requires Count(seen, 0) + Count(seen, 1) + Count(seen, 2) > 0
    ensures i < |seen| && seen[i] != Gone
  {
    NotAllGone(seen);
    i :| 0 <= i < |seen| && seen[i] != Gone;
  }

  lemma NotAllGone(seen: seq<Phase>)
    requires Count(seen, 0) + Count(seen, 1) + Count(seen, 2) > 0
    ensures exists i :: 0 <= i < |seen| && seen[i] != Gone
  {
    if forall i :: 0 <= i < |seen| ==> seen[i] == Gone {
      AllGone(seen);
    }
  }

  lemma {:induction false} AllGone(seen: seq<Phase>)
    requires forall k :: 0 <= k < |seen| ==> seen[k] == Gone
    ensures Count(seen, 0) == Count(seen, 1) == Count(seen, 2) == 0
    decreases |seen|
  {
    if seen != [] {
      AllGone(seen[..|seen| - 1]);
    }
  }

  // ----- The request as an object

  /** What wakes the loop up. */
  datatype Wake = Timer | Closed | Came(ev: Event)

  /** The fields of a request that is being retrieved. The channel of events and the requesters
      are outside of it. */
  class SentReq {
    var lastReqQueued: bool
    var lastReqSentTo: Option<Peer>
    var reqSrtoCount: int
    var stopped: bool
    var err: Option<Error>
    var sentTo: map<Peer, Entry>
    var chans: seq<Option<bool>>

    function Abs(): Loop
      reads this
    {
      Loop(lastReqQueued, lastReqSentTo, reqSrtoCount)
    }

    /** A new request starts its first requester. */
    constructor ()
      ensures Abs() == Init().loop && stopped == Init().stopped && sentTo == Init().sent && chans == Init().chans
              && err == None
    {
      lastReqQueued, lastReqSentTo, reqSrtoCount := true, None, 0;
      stopped, err, sentTo, chans := false, None, map[], [None];
    }

    method Update(ev: Event)
      modifies this`lastReqQueued, this`lastReqSentTo, this`reqSrtoCount
      ensures Abs() == Updated(old(Abs()), ev)
    {
      match ev.kind {
        case Sent =>
          lastReqQueued := false;
          lastReqSentTo := ev.peer;
        case SoftTimeout =>
          lastReqSentTo := None;
          reqSrtoCount := reqSrtoCount + 1;
        case HardTimeout =>
          reqSrtoCount := reqSrtoCount - 1;
        case _ =>
          if ev.peer == lastReqSentTo {
            lastReqSentTo := None;
          } else {
            reqSrtoCount := reqSrtoCount - 1;
          }
      }
    }

    method Waiting() returns (waits: bool)
      ensures waits == IsWaiting(Abs())
    {
      waits := lastReqQueued || lastReqSentTo != None || reqSrtoCount > 0;
    }

    /** Only the first stop counts. */
    method Stop(reason: Option<Error>)
      modifies this`stopped, this`err
      ensures stopped && err == if old(stopped) then old(err) else reason
    {
      if !stopped {
        stopped, err := true, reason;
      }
    }

    /** The loop and the result after a turn of the loop. */
    ghost predicate Took(t: Turn, wasStopped: bool, wasErr: Option<Error>, pc: Pc, spawn: bool)
      reads this
    {
      && Abs() == t.loop && pc == t.pc && spawn == t.spawn
      && stopped == (wasStopped || t.stop != None)
      && err == if wasStopped || t.stop == None then wasErr else t.stop.value
    }

    method StateRequesting(wake: Wake) returns (pc: Pc, spawn: bool)
      requires !wake.Timer?
      modifies this`lastReqQueued, this`lastReqSentTo, this`reqSrtoCount, this`stopped, this`err
      ensures wake.Came? ==> Took(Handle(old(Abs()), Requesting, wake.ev), old(stopped), old(err), pc, spawn)
      ensures wake.Came? && wake.ev.kind == DeliveredValid ==>
                stopped && pc == Stopped && !spawn && err == if old(stopped) then old(err) else None
      ensures !old(stopped) && stopped && !(wake.Came? && wake.ev.kind == DeliveredValid) ==>
                wake.Came? && pc == Done && err == Some(NoPeers)
                && !lastReqQueued && lastReqSentTo == None && reqSrtoCount <= 0
      ensures wake.Closed? ==> Took(Turn(old(Abs()), Stopped, false, None), old(stopped), old(err), pc, spawn)
    {
      if wake.Closed? {
        return Stopped, false;
      }
      var ev := wake.ev;
      Update(ev);
      pc, spawn := Requesting, false;
      match ev.kind {
        case Sent =>
          if ev.peer == None {
            var waits := Waiting();
            if waits {
              return NoMorePeers, false;
            }
            Stop(Some(NoPeers));
            return Done, false;
          }
        case SoftTimeout =>
          spawn, lastReqQueued := true, true;
        case DeliveredInvalid =>
          if !lastReqQueued && lastReqSentTo == None {
            spawn, lastReqQueued := true, true;
          }
        case DeliveredValid =>
          Stop(None);
          return Stopped, false;
        case HardTimeout =>
      }
    }

    method StateNoMorePeers(wake: Wake) returns (pc: Pc, spawn: bool)
      modifies this`lastReqQueued, this`lastReqSentTo, this`reqSrtoCount, this`stopped, this`err
      ensures wake.Came? ==> Took(Handle(old(Abs()), NoMorePeers, wake.ev), old(stopped), old(err), pc, spawn)
      ensures wake.Came? && wake.ev.kind == DeliveredValid ==>
                stopped && pc == Stopped && !spawn && err == if old(stopped) then old(err) else None
      ensures !old(stopped) && stopped && !(wake.Came? && wake.ev.kind == DeliveredValid) ==>
                wake.Came? && pc == Done && err == Some(NoPeers)
                && !lastReqQueued && lastReqSentTo == None && reqSrtoCount <= 0
      ensures wake.Closed? ==> Took(Turn(old(Abs()), Stopped, false, None), old(stopped), old(err), pc, spawn)
      ensures wake.Timer? ==> Took(Started(old(Abs())), old(stopped), old(err), pc, spawn)
    {
      match wake {
        case Timer =>
          lastReqQueued := true;
          return Requesting, true;
        case Closed =>
          return Stopped, false;
        case Came(ev) =>
          Update(ev);
          if ev.kind == DeliveredValid {
            Stop(None);
            return Stopped, false;
          }
          var waits := Waiting();
          if waits {
            return NoMorePeers, false;
          }
          Stop(Some(NoPeers));
          return Done, false;
      }
    }

    /** Takes events until nothing is outstanding; not `done` means that it is still blocked on
        the channel. */
    method StateStopped(feed: seq<Event>) returns (taken: nat, done: bool)
      modifies this`lastReqQueued, this`lastReqSentTo, this`reqSrtoCount
      ensures taken <= |feed| && Abs() == Folded(old(Abs()), feed[..taken])
      ensures done == !IsWaiting(Abs()) && (!done ==> taken == |feed|)
      ensures forall k :: 0 <= k < taken ==> IsWaiting(Folded(old(Abs()), feed[..k]))
    {
      taken := 0;
      done := false;
      var waits := Waiting();
      while waits && taken < |feed|
        invariant taken <= |feed| && Abs() == Folded(old(Abs()), feed[..taken]) && waits == IsWaiting(Abs())
        invariant forall k :: 0 <= k < taken ==> IsWaiting(Folded(old(Abs()), feed[..k]))
      {
        Update(feed[taken]);
        assert feed[..taken + 1][..taken] == feed[..taken];
        taken := taken + 1;
        waits := Waiting();
      }
      done := !waits;
    }

    /** A delivery is expected exactly once from every peer the request was sent to. Under the
        invariant the verdict never meets a full channel. */
    method Deliver(peer: Peer, valid: bool) returns (unexpected: bool, invalid: bool)
      modifies this`sentTo, this`chans
      ensures unexpected == (peer !in old(sentTo) || old(sentTo)[peer].delivered)
      ensures unexpected ==> sentTo == old(sentTo) && chans == old(chans) && !invalid
      ensures !unexpected ==> sentTo == old(sentTo)[peer := old(sentTo)[peer].(delivered := true)] &&
                              chans == Write(old(chans), old(sentTo)[peer].owner, Some(valid)) && invalid == !valid
    {
      if peer !in sentTo || sentTo[peer].delivered {
        return true, false;
      }
      var s := sentTo[peer];
      sentTo := sentTo[peer := Entry(true, s.owner)];
      chans := Write(chans, s.owner, Some(valid));
      return false, !valid;
    }
  }

  function Folded(l: Loop, evs: seq<Event>): Loop {
    if evs == [] then l else Updated(Folded(l, evs[..|evs| - 1]), evs[|evs| - 1])
  }
}
