/** The descriptor ring under the double buffer, and what a whole session delivers. */
module DbufRing {
  import opened Words
  import opened Chains
  import opened Ring
  import opened EngineModel
  import opened EngineRuns
  import opened DbufRuns

  /** Descriptors of the request that is still being submitted. */
  function OpenSum(ts: seq<Ticket>): nat {
    if ts == [] || ts[|ts| - 1].last then 0 else OpenSum(ts[..|ts| - 1]) + ts[|ts| - 1].num
  }

  /** No request has more than p descriptors over all its transfers. */
  predicate SlotsBounded(ts: seq<Ticket>, p: nat) {
    ts == [] || (OpenSum(ts[..|ts| - 1]) + ts[|ts| - 1].num <= p && SlotsBounded(ts[..|ts| - 1], p))
  }

  /** Queued descriptors: p for each request that ends in the queue, and the open one's. */
  lemma {:induction false} QueueBound(front: seq<Ticket>, q: seq<Xfer>, p: nat)
    requires SlotsBounded(front + Tickets(q), p)
    ensures Sum(Nums(q)) <= p * Lasts(q) + OpenSum(front + Tickets(q))
    decreases |q|
  {
    if q != [] {
      var n := |q| - 1;
      var ts, ts' := front + Tickets(q), front + Tickets(q[..n]);
      assert ts[..|ts| - 1] == ts' && ts[|ts| - 1] == q[n].ticket;
      QueueBound(front, q[..n], p);
      assert Nums(q) == Nums(q[..n]) + [q[n].ticket.num];
      SumSnoc(Nums(q[..n]), q[n].ticket.num);
      assert p * (Lasts(q[..n]) + 1) == p * Lasts(q[..n]) + p;
    }
  }

  /** Transfers of one slot take at most p descriptors. */
  ghost predicate PartFits(s: Session, e: Event, p: nat) {
    e.Part? ==> OpenSum(s.sys.submitted) + e.num <= p
  }

  // ---------------------------------------------------------------- who owns a ring entry

  ghost predicate Owned(owner: seq<nat>, cut: Cut, id: nat) {
    cut.first + cut.count <= |owner| && forall k :: cut.first <= k < cut.first + cut.count ==> owner[k] == id
  }

  /** Every queued transfer still owns all of its descriptors. */
  ghost predicate OwnersOk(cuts: seq<Cut>, q: seq<Xfer>, owner: seq<nat>) {
    |cuts| == |q| && forall i :: 0 <= i < |q| ==> Owned(owner, cuts[i], q[i].ticket.id)
  }

  /** Writing a new transfer's descriptors leaves every queued transfer its own exactly when the
      queued descriptors and the new ones fit the ring together. */
  lemma ClaimKeepsOwnersExactly(r: nat, ring: RingState, q: seq<Xfer>, owner: seq<nat>, x: Xfer)
    requires |owner| == r && r > 0 && RingInv(r, ring) && OwnersOk(ring.queue, q, owner)
    requires 1 <= x.ticket.num && ring.next + x.ticket.num <= r
    requires forall i :: 0 <= i < |q| ==> q[i].ticket.id < x.ticket.id
    ensures OwnersOk(ring.queue + [Cut(ring.next, x.ticket.num)], q + [x],
                     Claim(owner, ring.next, x.ticket.num, x.ticket.id))
       <==> Sum(Counts(ring.queue)) + x.ticket.num <= r
  {
    var fresher, cuts, q', owner' := Cut(ring.next, x.ticket.num), ring.queue + [Cut(ring.next, x.ticket.num)], q + [x],
                                     Claim(owner, ring.next, x.ticket.num, x.ticket.id);
    AllocationDisjoint(r, ring.queue, ring.next, x.ticket.num);
    hide RingInv, Gapless, Sum, Counts;
    if forall i :: 0 <= i < |q| ==> Disjoint(ring.queue[i], fresher) {
      forall i | 0 <= i < |q'|
        ensures Owned(owner', cuts[i], q'[i].ticket.id)
      {
        if i < |q| {
          assert Disjoint(ring.queue[i], fresher) && Owned(owner, ring.queue[i], q[i].ticket.id);
        }
      }
    } else {
      var i :| 0 <= i < |q| && !Disjoint(ring.queue[i], fresher);
      var k := if ring.queue[i].first <= fresher.first then fresher.first else ring.queue[i].first;
      assert owner'[k] == x.ticket.id;
      assert cuts[i] == ring.queue[i] && q'[i] == q[i];
      assert !Owned(owner', cuts[i], q'[i].ticket.id);
    }
  }

  // ---------------------------------------------------------------- the ring of a session

  ghost predicate RingMatches(s: Session, p: nat) {
    && s.owner != []
    && SlotsBounded(s.sys.submitted, p)
    && RingInv(|s.owner|, s.ring)
    && Counts(s.ring.queue) == Nums(s.sys.eng.queue)
    && OwnersOk(s.ring.queue, s.sys.eng.queue, s.owner)
  }

  /** The descriptor that the hardware executes is the head's own, so it writes the head's slot. */
  lemma TargetIsHeads(s: Session, p: nat)
    requires SessionInv(s) && RingMatches(s, p) && s.sys.hw.Active? && |s.sys.hw.results| < s.sys.hw.num
    ensures TargetRight(s)
  {
    hide PhaseOk, DataOk, QueueOk, RingInv, SlotsBounded, Inv, WholeRequests;
    ActiveHasWork(s.sys);
    RoomAtHead(s);
    HeadTicket(s.sys);
    assert Counts(s.ring.queue)[0] == Nums(s.sys.eng.queue)[0];
    assert Owned(s.owner, s.ring.queue[0], s.sys.eng.queue[0].ticket.id);
  }

  /** While a slot is being submitted, at most one whole request is queued. */
  lemma FillingLeavesRoom(s: Session, who: Who, num: nat, last: bool, p: nat)
    requires SessionInv(s) && Possible(s, Part(who, num, last)) && EventSafe(s, Part(who, num, last))
    requires SlotsBounded(s.sys.submitted, p) && OpenSum(s.sys.submitted) + num <= p && 2 * p <= |s.owner|
    ensures Sum(Nums(s.sys.eng.queue)) + num <= |s.owner|
  {
    hide SlotsBounded, OpenSum, Lasts, PhaseOk, DataOk, QueueOk, Control, Sum, Nums, WholeRequests;
    QueueBound(Tickets(s.sys.retired), s.sys.eng.queue, p);
    OneWhole(s, who);
    TwiceAtMost(p, Lasts(s.sys.eng.queue));
  }

  lemma TwiceAtMost(p: nat, n: nat)
    requires n <= 1
    ensures p * n <= p
  {
  }

  lemma OneWhole(s: Session, who: Who)
    requires SessionInv(s) && Submitting(s, who) && (who.Reader? ==> s.start.Started?)
    ensures Lasts(s.sys.eng.queue) <= 1
  {
    hide Inv, QueueOk, Lasts;
  }

  /** After a Part, the session's queue and ring each have one more transfer. */
  lemma PartShape(s: Session, who: Who, num: nat, last: bool)
    requires Inv(s.sys) && Possible(s, Part(who, num, last))
    ensures s.owner != []
    ensures var s', x := Next(s, Part(who, num, last)),
                         Xfer(Ticket(|s.sys.submitted|, num, last, Some(SlotOf(s, who))), 0, Submitted, false, false);
            && s'.sys.submitted == s.sys.submitted + [x.ticket]
            && s'.sys.eng.queue == s.sys.eng.queue + [x]
            && s'.ring == RingStep(|s.owner|, s.ring, Allocate(num))
            && s'.owner == Claim(s.owner, s.ring.next, num, |s.sys.submitted|)
  {
    PartQueue(s.sys, num, last, Some(SlotOf(s, who)));
    hide Inv, RingStep, Claim;
  }

  lemma QueueIds(s: System)
    requires Inv(s)
    ensures forall i :: 0 <= i < |s.eng.queue| ==> s.eng.queue[i].ticket.id < |s.submitted|
  {
    RetiredInOrder(s);
    forall i | 0 <= i < |s.eng.queue|
      ensures s.eng.queue[i].ticket.id < |s.submitted|
    {
      assert s.eng.queue[i].ticket == s.submitted[|s.retired| + i];
    }
  }

  lemma PartMatches(s: Session, who: Who, num: nat, last: bool, p: nat)
    requires SessionInv(s) && Possible(s, Part(who, num, last)) && EventSafe(s, Part(who, num, last))
             && RingMatches(s, p)
    requires 2 * p <= |s.owner| && PartFits(s, Part(who, num, last), p)
    ensures RingMatches(Next(s, Part(who, num, last)), p)
  {
    hide PhaseOk, DataOk, QueueOk, Control, History, WholeRequests, Next, RingInv, OwnersOk, Sum, Lasts;
    FillingLeavesRoom(s, who, num, last, p);
    PartShape(s, who, num, last);
    QueueIds(s.sys);
    var s', r := Next(s, Part(who, num, last)), |s.owner|;
    var x := s'.sys.eng.queue[|s.sys.eng.queue|];
    assert s'.sys.submitted[..|s'.sys.submitted| - 1] == s.sys.submitted;
    RingStepKeeps(r, s.ring, Allocate(num));
    ClaimKeepsOwnersExactly(r, s.ring, s.sys.eng.queue, s.owner, x);
    assert Counts(s.ring.queue + [Cut(s.ring.next, num)]) == Counts(s.ring.queue) + [num];
    assert Nums(s'.sys.eng.queue) == Nums(s.sys.eng.queue) + [num];
  }

  lemma SameTickets(q: seq<Xfer>, p: seq<Xfer>)
    requires Tickets(q) == Tickets(p)
    ensures Nums(q) == Nums(p)
    ensures forall i :: 0 <= i < |q| ==> q[i].ticket.id == p[i].ticket.id
  {
    forall i | 0 <= i < |q|
      ensures q[i].ticket == p[i].ticket
    {
      assert Tickets(q)[i] == Tickets(p)[i];
    }
  }

  lemma ServeShapes(s: Session, error: bool)
    requires Possible(s, Serve(error))
    ensures var s', sys' := Next(s, Serve(error)), Apply(s.sys, Pass(error));
            && s'.sys == sys' && s'.sys.submitted == s.sys.submitted && s'.owner == s.owner
            && s'.ring == GivenBack(s.ring, |sys'.retired| - |s.sys.retired|)
  {
    hide Service, MarkFilled, Snapshots, Callbacks, GivenBack;
  }

  lemma ServeMatches(s: Session, error: bool, p: nat)
    requires SessionInv(s) && Possible(s, Serve(error)) && RingMatches(s, p)
    ensures RingMatches(Next(s, Serve(error)), p)
  {
    PassEffect(s.sys, error);
    ServeShapes(s, error);
    var q, q' := s.sys.eng.queue, Next(s, Serve(error)).sys.eng.queue;
    hide SessionInv, RingInv, Apply, Next, Callbacks, Possible;
    if Tickets(q') == Tickets(q) && Next(s, Serve(error)).sys.retired == s.sys.retired {
      SameTickets(q', q);
    } else {
      RingStepKeeps(|s.owner|, s.ring, Retire);
      assert Nums(q') == Nums(q)[1..] && Counts(s.ring.queue[1..]) == Counts(s.ring.queue)[1..];
      assert forall i :: 0 <= i < |q'| ==> q'[i] == q[i + 1] && s.ring.queue[1..][i] == s.ring.queue[i + 1];
    }
  }

  lemma EventMatches(s: Session, e: Event, p: nat)
    requires SessionInv(s) && Possible(s, e) && EventSafe(s, e) && RingMatches(s, p)
    requires 2 * p <= |s.owner| && PartFits(s, e, p)
    ensures RingMatches(Next(s, e), p) && |Next(s, e).owner| == |s.owner|
  {
    hide SessionInv, RingMatches;
    match e
    case Part(who, num, last) =>
      PartMatches(s, who, num, last, p);
      OwnerLength(s, e);
    case Serve(error) =>
      ServeMatches(s, error, p);
      OwnerLength(s, e);
    case _ => QuietMatches(s, e, p);
  }

  lemma OwnerLength(s: Session, e: Event)
    requires Possible(s, e)
    ensures |Next(s, e).owner| == |s.owner|
  {
    hide Apply, Callbacks;
  }

  lemma QuietMatches(s: Session, e: Event, p: nat)
    requires Possible(s, e) && !e.Part? && !e.Serve? && RingMatches(s, p)
    ensures RingMatches(Next(s, e), p) && |Next(s, e).owner| == |s.owner|
  {
    hide RingInv, SlotsBounded, OwnersOk;
  }

  // ---------------------------------------------------------------- every interleaving

  /** A session in which no read overtakes START, and whose slots take at most half the ring. */
  ghost predicate SafeRun(states: seq<Session>, events: seq<Event>, p: nat) {
    && Interleaving(states, events)
    && 2 * p <= |states[0].owner|
    && forall j :: 0 <= j < |events| ==> EventSafe(states[j], events[j]) && PartFits(states[j], events[j], p)
  }

  lemma OpenedMatches(s: Session, p: nat)
    requires Opened(s)
    ensures RingMatches(s, p)
  {
  }

  /** In every state of a safe session the buffers are in order, and every queued transfer owns
      its descriptors alone. */
  lemma {:induction false} SessionHolds(states: seq<Session>, events: seq<Event>, p: nat, i: nat)
    requires SafeRun(states, events, p) && i < |states|
    ensures SessionInv(states[i]) && RingMatches(states[i], p) && |states[i].owner| == |states[0].owner|
    decreases i
  {
    hide SessionInv, RingMatches, PartFits, EventSafe, Opened, Possible, Next;
    if i == 0 {
      OpenedInv(states[0]);
      OpenedMatches(states[0], p);
    } else {
      var s, e := states[i - 1], events[i - 1];
      SessionHolds(states, events, p, i - 1);
      EventMatches(s, e, p);
      if e.DmaWrite? {
        WritesWhileRunning(s, e);
        TargetIsHeads(s, p);
      }
      EventKeeps(s, e);
    }
  }

  lemma WritesWhileRunning(s: Session, e: Event)
    requires Possible(s, e) && e.DmaWrite?
    ensures s.sys.hw.Active? && |s.sys.hw.results| < s.sys.hw.num
  {
  }

  /** Delivered buffers are the first captured ones, unchanged and in order: nothing is lost,
      duplicated or reordered. The k-th completion is for slot k mod 2, and between completion
      and reading there are at most two buffers. */
  lemma DeliveredIsPrefix(states: seq<Session>, events: seq<Event>, p: nat, i: nat)
    requires SafeRun(states, events, p) && i < |states|
    ensures var s := states[i];
            && |s.delivered| <= |s.captured| <= |s.delivered| + 2
            && s.delivered == s.captured[..|s.delivered|]
            && |s.sys.callbacks| == |s.captured|
            && forall k :: 0 <= k < |s.captured| ==> s.sys.callbacks[k] == k % 2
  {
    SessionHolds(states, events, p, i);
    hide Inv, QueueOk, RingMatches, SafeRun, Lasts;
  }

  /** The same when simply no read gets past its wait before START is done. */
  lemma ReadsAfterStartDeliver(states: seq<Session>, events: seq<Event>, p: nat, i: nat)
    requires Interleaving(states, events) && i < |states| && 2 * p <= |states[0].owner|
    requires forall j :: 0 <= j < |events| ==>
               PartFits(states[j], events[j], p) && (events[j].Copy? ==> states[j].start.Started?)
    ensures states[i].delivered <= states[i].captured && |states[i].captured| <= |states[i].delivered| + 2
  {
    hide Interleaving, PartFits, EventSafe;
    EventInRun(states, events);
    forall j | 0 <= j < |events|
      ensures EventSafe(states[j], events[j])
    {
      ReadsAfterStartSafe(states, events, j);
    }
    DeliveredIsPrefix(states, events, p, i);
  }

  lemma EventInRun(states: seq<Session>, events: seq<Event>)
    requires Interleaving(states, events)
    ensures |states| == |events| + 1
  {
  }

  /** A slot is never filled and queued at once, save for flags that START has yet to clear; DMA
      only writes the slot that completes next, which is not filled; once START is done and while
      the reader waits, a slot is filled exactly when it is not queued; and the engine is idle
      exactly when neither slot is queued. */
  ghost predicate Exclusive(s: Session) {
    && |s.filled| == 2
    && (forall t :: 0 <= t < 2 && !Uncleared(s, t) ==> !(s.filled[t] && Queued(s.sys.eng.queue, t)))
    && (s.start.Started? && s.reader.Waiting? ==>
          forall t :: 0 <= t < 2 ==> (s.filled[t] <==> !Queued(s.sys.eng.queue, t)))
    && (s.sys.eng.running <==> Queued(s.sys.eng.queue, 0) || Queued(s.sys.eng.queue, 1))
    && (s.sys.hw.Active? && |s.sys.hw.results| < s.sys.hw.num ==>
          TargetRight(s) && Queued(s.sys.eng.queue, |s.captured| % 2))
  }

  /** In every state of a safe run. */
  lemma SlotsExclusive(states: seq<Session>, events: seq<Event>, p: nat, i: nat)
    requires SafeRun(states, events, p) && i < |states|
    ensures Exclusive(states[i])
  {
    hide RingMatches, SessionInv, Exclusive;
    SessionHolds(states, events, p, i);
    SlotsApart(states[i], p);
  }

  lemma SlotsApart(s: Session, p: nat)
    requires SessionInv(s) && RingMatches(s, p)
    ensures Exclusive(s)
  {
    assert |s.filled| == 2;
    hide RingMatches, PhaseOk, DataOk, QueueOk, Queued, Uncleared, SessionInv, Inv, TargetRight;
    SlotExclusive(s, 0);
    SlotExclusive(s, 1);
    RunningQueued(s);
    if s.sys.hw.Active? && |s.sys.hw.results| < s.sys.hw.num {
      TargetIsHeads(s, p);
      ActiveRuns(s);
    }
  }

  lemma ActiveRuns(s: Session)
    requires SessionInv(s) && s.sys.hw.Active?
    ensures s.sys.eng.running
  {
    hide PhaseOk, DataOk, QueueOk;
  }

  lemma RunningQueued(s: Session)
    requires SessionInv(s)
    ensures s.sys.eng.running <==> Queued(s.sys.eng.queue, 0) || Queued(s.sys.eng.queue, 1)
    ensures s.sys.eng.running ==> Queued(s.sys.eng.queue, |s.captured| % 2)
  {
    hide PhaseOk, DataOk, QueueOk;
    if s.sys.eng.queue != [] {
      RoomAtHead(s);
      assert Queued(s.sys.eng.queue, |s.captured| % 2);
    }
  }

  /** No two queued transfers of a safe session ever share a descriptor, although nothing in the
      driver checks it. */
  lemma SessionRingDisjoint(states: seq<Session>, events: seq<Event>, p: nat, i: nat)
    requires SafeRun(states, events, p) && i < |states|
    ensures var s := states[i];
            && PairwiseDisjoint(s.ring.queue) && Counts(s.ring.queue) == Nums(s.sys.eng.queue)
            && OwnersOk(s.ring.queue, s.sys.eng.queue, s.owner)
  {
    SessionHolds(states, events, p, i);
  }

  /** One-descriptor slots meet the condition on any ring of two or more descriptors. */
  lemma {:induction false} OneDescriptorSlots(states: seq<Session>, events: seq<Event>, i: nat)
    requires Interleaving(states, events) && i < |states|
    requires forall j :: 0 <= j < |events| && events[j].Part? ==> events[j].num == 1 && events[j].last
    ensures OpenSum(states[i].sys.submitted) == 0 && (i < |events| ==> PartFits(states[i], events[i], 1))
    decreases i
  {
    hide Possible, Next, Opened;
    if i == 0 {
      NothingSubmitted(states[0]);
    } else {
      OneDescriptorSlots(states, events, i - 1);
      OpenSumStays(states[i - 1], events[i - 1]);
    }
  }

  lemma NothingSubmitted(s: Session)
    requires Opened(s)
    ensures OpenSum(s.sys.submitted) == 0
  {
  }

  lemma OpenSumStays(s: Session, e: Event)
    requires Possible(s, e) && OpenSum(s.sys.submitted) == 0
    requires e.Part? ==> e.last
    ensures OpenSum(Next(s, e).sys.submitted) == 0
  {
    hide Service, Callbacks, MarkFilled, Snapshots;
  }
}
