/** Two sessions that go wrong: a read that overtakes START, and slots of more than half a ring. */
module DbufWitness {
  import opened Words
  import opened Chains
  import opened Ring
  import opened EngineModel
  import opened EngineRuns
  import opened DbufRuns

  const DONE := Result(false, 0)

  /** A session at the START of one-byte slots, with an idle engine and a ring of r entries. */
  function Beginning(r: nat): Session {
    var e := Engine([], false, 0, false, false, false);
    Session(System(e, Idle, [], [], [], [], false), [false, false], [[0], [0]], 0, Fresh(0), Waiting, [], [],
            RingState([], 0), seq<nat>(r, _ => 0))
  }

  ghost predicate RunsTo(states: seq<Session>, events: seq<Event>, s: Session) {
    Interleaving(states, events) && s == states[|states| - 1] && states[0] == Beginning(4)
  }

  lemma More(states: seq<Session>, events: seq<Event>, s: Session, e: Event)
    returns (states': seq<Session>, events': seq<Event>)
    requires RunsTo(states, events, s) && Possible(s, e)
    ensures RunsTo(states', events', Next(s, e)) && events' == events + [e]
  {
    hide Possible, Next, Opened;
    states', events' := states + [Next(s, e)], events + [e];
  }

  lemma BeginningOpen()
    ensures Opened(Beginning(4)) && RunsTo([Beginning(4)], [], Beginning(4))
  {
  }

  /** One transfer of the queue: num descriptors, then the callback of its slot. */
  function Waits(id: nat, num: nat, last: bool, slot: nat): Xfer {
    Xfer(Ticket(id, num, last, Some(slot)), 0, Submitted, false, false)
  }

  /** The head of the queue has run to its last descriptor and stopped. */
  function Stopped(s: Session): Session
    requires s.sys.hw.Active?
  {
    s.(sys := s.sys.(hw := Active(s.sys.hw.id, s.sys.hw.num, [DONE], false)))
  }

  /** What the last transfer of slot t leaves when it retires from the head. */
  function Retired(s: Session, t: nat): Session
    requires s.sys.eng.queue != [] && s.ring.queue != [] && t < |s.filled| && t < |s.mem|
  {
    var q := s.sys.eng.queue[1..];
    s.(sys := System(EngineAfter(s.sys.eng), if q == [] then Idle else Launch(q[0]), s.sys.submitted,
                     s.sys.retired + [Finished(s.sys.eng.queue[0])], s.sys.seen + [[DONE]],
                     s.sys.callbacks + [t], s.sys.errors),
       filled := s.filled[t := true], captured := s.captured + [s.mem[t]], ring := s.ring.(queue := s.ring.queue[1..]))
  }

  /** A one-descriptor transfer at the head, flagged as its request's last. */
  ghost predicate OneAtHead(s: Session, t: nat) {
    && s.sys.eng.running && s.sys.eng.queue != [] && s.sys.eng.dequeued == 0 && !s.sys.eng.shutRequest
       && !s.sys.eng.shutIdle
    && !s.sys.eng.eopFlush && s.ring.queue != [] && t < 2 && |s.filled| == 2 && |s.mem| == 2
    && s.sys.eng.queue[0] == Waits(s.sys.eng.queue[0].ticket.id, 1, true, t)
    && s.sys.hw == Active(s.sys.eng.queue[0].ticket.id, 1, [], true)
  }

  function Finished(x: Xfer): Xfer { x.(state := EngineModel.Completed, cmpl := 1) }

  function EngineAfter(e: Engine): Engine
    requires e.queue != []
  {
    var q := e.queue[1..];
    if q == [] then e.(queue := [], running := false, dequeued := 1) else Start(e.(queue := q, running := false))
  }

  /** The service pass on such an engine. */
  lemma PassOnOne(e: Engine, x: Xfer)
    requires e.running && e.queue != [] && e.queue[0] == x && e.dequeued == 0 && !e.eopFlush && !e.shutRequest
    requires x.ticket.num == 1 && !x.cyclic
    ensures Service(e, Reading(false, false, 1, [DONE]))
            == Serviced(EngineAfter(e), [Finished(x)], true, e.queue[1..] != [])
  {
    var r := Reading(false, false, 1, [DONE]);
    assert RetireList(e.queue, 1) == ([], e.queue, 1);
    assert Sum(Nums([])) == 0;
    assert Service(e, r) == Finish(e.(running := false), [], 1, true, r);
  }

  lemma OneCallbackOf(x: Xfer, t: nat)
    requires x.ticket.last && x.ticket.cb == Some(t)
    ensures Callbacks([x]) == [t]
  {
    OneCallback(x);
  }

  lemma MarkOne(s: Session, t: nat)
    requires t < 2 && |s.filled| == |s.mem| == 2
    ensures MarkFilled(s.filled, [t]) == s.filled[t := true] && Snapshots(s.mem, [t]) == [s.mem[t]]
  {
  }

  /** Complete, Stop and Serve on such a session. */
  lemma RetireOne(s: Session, t: nat)
    requires OneAtHead(s, t)
    ensures Possible(s, Complete(DONE))
            && Next(s, Complete(DONE)) == s.(sys := s.sys.(hw := s.sys.hw.(results := [DONE])))
    ensures Possible(s.(sys := s.sys.(hw := s.sys.hw.(results := [DONE]))), Stop)
    ensures Next(s.(sys := s.sys.(hw := s.sys.hw.(results := [DONE]))), Stop) == Stopped(s)
    ensures Possible(Stopped(s), Serve(false)) && Next(Stopped(s), Serve(false)) == Retired(s, t)
  {
    hide Service, Callbacks, MarkFilled, Snapshots, CallbackOf;
    var x, s1 := s.sys.eng.queue[0], Stopped(s);
    assert s.sys.hw.results + [DONE] == [DONE];
    PassOnOne(s.sys.eng, x);
    OneCallbackOf(Finished(x), t);
    MarkOne(s, t);
    RetiredShape(s1, x, t);
  }

  lemma RetiredShape(s: Session, x: Xfer, t: nat)
    requires s.sys.eng.queue != [] && s.sys.eng.queue[0] == x && s.ring.queue != [] && t < 2
             && |s.filled| == |s.mem| == 2
    requires s.sys.hw == Active(x.ticket.id, 1, [DONE], false) && Possible(s, Serve(false))
    requires Service(s.sys.eng, Reading(false, false, 1, [DONE]))
          == Serviced(EngineAfter(s.sys.eng), [Finished(x)], true, s.sys.eng.queue[1..] != [])
    requires Callbacks([Finished(x)]) == [t]
    requires MarkFilled(s.filled, [t]) == s.filled[t := true] && Snapshots(s.mem, [t]) == [s.mem[t]]
    ensures Next(s, Serve(false)) == Retired(s, t)
  {
    hide Service, Callbacks, MarkFilled, Snapshots, CallbackOf, Launch;
    var sys' := Apply(s.sys, Pass(false));
    assert seq(1, _ => [DONE]) == [[DONE]];
    assert sys'.retired == s.sys.retired + [Finished(x)];
    assert sys'.retired[|s.sys.retired|..] == [Finished(x)];
  }

  /** The run from one-at-the-head to its completion. */
  lemma RunRetire(states: seq<Session>, events: seq<Event>, s: Session, t: nat)
    returns (states': seq<Session>, events': seq<Event>)
    requires RunsTo(states, events, s) && OneAtHead(s, t)
    ensures RunsTo(states', events', Retired(s, t)) && events' == events + [Complete(DONE), Stop, Serve(false)]
  {
    var s1 := s.(sys := s.sys.(hw := s.sys.hw.(results := [DONE])));
    hide Possible, Next, OneAtHead, Retired, RunsTo;
    RetireOne(s, t);
    states', events' := More(states, events, s, Complete(DONE));
    states', events' := More(states', events', s1, Stop);
    states', events' := More(states', events', Stopped(s), Serve(false));
  }

  /** The session after one more transfer of a slot. */
  function Sent(s: Session, who: Who, num: nat, last: bool): Session
    requires s.owner != [] && Submitting(s, who)
  {
    var x := Waits(|s.sys.submitted|, num, last, SlotOf(s, who));
    var s1 := Allocated(s, num).(sys := s.sys.(submitted := s.sys.submitted + [x.ticket],
                eng := if s.sys.eng.running then s.sys.eng.(queue := s.sys.eng.queue + [x])
                  else Start(s.sys.eng.(queue := s.sys.eng.queue + [x])),
                hw := if s.sys.eng.running then s.sys.hw else Launch((s.sys.eng.queue + [x])[0])));
    if !last then s1 else if who.Starter? then s1.(start := AfterLast(s.start.slot)) else s1.(reader := Toggling)
  }

  lemma RunPart(states: seq<Session>, events: seq<Event>, s: Session, who: Who, num: nat, last: bool)
    returns (states': seq<Session>, events': seq<Event>)
    requires RunsTo(states, events, s) && Submitting(s, who) && !s.sys.eng.shutRequest
    requires 1 <= num < 0x8000_0000 && s.ring.next + num <= |s.owner|
    ensures RunsTo(states', events', Sent(s, who, num, last)) && events' == events + [Part(who, num, last)]
  {
    hide RunsTo, Allocated;
    assert Next(s, Part(who, num, last)) == Sent(s, who, num, last);
    states', events' := More(states, events, s, Part(who, num, last));
  }

  lemma RunClear(states: seq<Session>, events: seq<Event>, s: Session, who: Who)
    returns (states': seq<Session>, events': seq<Event>)
    requires RunsTo(states, events, s) && Possible(s, Clear(who))
    ensures RunsTo(states', events', Cleared(s, who)) && events' == events + [Clear(who)]
  {
    hide RunsTo, Cleared;
    states', events' := More(states, events, s, Clear(who));
  }

  lemma RunWrite(states: seq<Session>, events: seq<Event>, s: Session, t: nat, value: bv8)
    returns (states': seq<Session>, events': seq<Event>)
    requires RunsTo(states, events, s) && Target(s) == Some(t) && t < |s.mem| && |s.mem[t]| == 1
    requires s.sys.hw.Active? && s.sys.hw.busy && |s.sys.hw.results| < s.sys.hw.num
    ensures RunsTo(states', events', s.(mem := s.mem[t := [value]])) && events' == events + [DmaWrite(0, value)]
  {
    hide RunsTo, Target;
    assert s.mem[t][0 := value] == [value];
    states', events' := More(states, events, s, DmaWrite(0, value));
  }

  // ---------------------------------------------------------------- a read that overtakes START

  function System1(queue: seq<Xfer>, hw: Hardware, dequeued: nat, submitted: seq<Ticket>, retired: seq<Xfer>,
                   callbacks: seq<nat>): System {
    System(Engine(queue, queue != [], dequeued, false, false, false), hw, submitted, retired,
           seq(|retired|, _ => [DONE]), callbacks, false)
  }

  /** START has submitted slot 0, which is captured. */
  function FirstCaptured(): Session {
    var x := Waits(0, 1, true, 0);
    Session(System1([], Idle, 1, [x.ticket], [Finished(x)], [0]), [true, false], [[1], [0]], 0, Fresh(1), Waiting,
            [[1]], [],
            RingState([], 1), [0, 0, 0, 0])
  }

  /** START has submitted slot 0 as one transfer of num descriptors. */
  function FirstSent(num: nat): Session {
    var x := Waits(0, num, true, 0);
    Beginning(4).(sys := System1([x], Launch(x), 0, [x.ticket], [], []), start := Fresh(1),
                  ring := RingState([Cut(0, num)], num % 4), owner := [0, 0, 0, 0])
  }

  lemma RunSend(num: nat) returns (states: seq<Session>, events: seq<Event>)
    requires 1 <= num <= 4
    ensures RunsTo(states, events, FirstSent(num)) && events == [Clear(Starter), Part(Starter, num, true)]
  {
    var s0 := Beginning(4);
    BeginningOpen();
    hide RunsTo, Next, Possible;
    states, events := [s0], [];
    ClearOk(s0, Starter);
    states, events := RunClear(states, events, s0, Starter);
    var s1 := s0.(start := Sending(0));
    assert Cleared(s0, Starter) == s1;
    states, events := RunPart(states, events, s1, Starter, num, true);
    SentFirst(s1, num);
  }

  lemma SentFirst(s: Session, num: nat)
    requires s == Beginning(4).(start := Sending(0)) && num <= 4
    ensures Sent(s, Starter, num, true) == FirstSent(num)
  {
    assert Claim(s.owner, 0, num, 0) == [0, 0, 0, 0];
  }

  lemma RunFirst() returns (states: seq<Session>, events: seq<Event>)
    ensures RunsTo(states, events, FirstCaptured())
    ensures events == [Clear(Starter), Part(Starter, 1, true), DmaWrite(0, 1), Complete(DONE), Stop, Serve(false)]
  {
    states, events := RunSend(1);
    var s2, x := FirstSent(1), Waits(0, 1, true, 0);
    hide RunsTo, Next, Possible, OneAtHead;
    states, events := RunWrite(states, events, s2, 0, 1);
    var s3 := s2.(mem := [[1], [0]]);
    assert s2.mem[0 := [1]] == s3.mem;
    OneHead(s3, x, 0);
    states, events := RunRetire(states, events, s3, 0);
    assert Retired(s3, 0) == FirstCaptured();
  }

  lemma ClearOk(s: Session, who: Who)
    requires if who.Starter? then s.start.Fresh? else s.reader.Copied?
    ensures Possible(s, Clear(who))
  {
  }

  lemma OneHead(s: Session, x: Xfer, t: nat)
    requires s.sys.eng.queue != [] && s.sys.eng.queue[0] == x == Waits(x.ticket.id, 1, true, t) && s.sys.hw == Launch(x)
    requires s.sys.eng == Engine(s.sys.eng.queue, true, 0, false, false, false)
    requires s.ring.queue != [] && t < 2 && |s.filled| == |s.mem| == 2
    ensures OneAtHead(s, t)
  {
  }

  /** The read has copied slot 0 and queued it again before START queues slot 1. */
  function Overtaken(): Session {
    var x, y, z := Waits(0, 1, true, 0), Waits(1, 1, true, 0), Waits(2, 1, true, 1);
    Session(System1([y, z], Launch(y), 0, [x.ticket, y.ticket, z.ticket], [Finished(x)], [0]), [false, false],
            [[1], [0]], 1,
            Started, Waiting, [[1]], [[1]], RingState([Cut(1, 1), Cut(2, 1)], 3), [0, 1, 2, 0])
  }

  lemma RunOvertake() returns (states: seq<Session>, events: seq<Event>)
    ensures RunsTo(states, events, Overtaken())
  {
    states, events := RunFirst();
    hide RunsTo, Next, Possible;
    var f, x, y, z := FirstCaptured(), Waits(0, 1, true, 0), Waits(1, 1, true, 0), Waits(2, 1, true, 1);
    var s0 := f.(delivered := [[1]], reader := Copied);
    CopyStep(f, s0);
    states, events := More(states, events, f, Copy);
    ClearOk(s0, Reader);
    states, events := RunClear(states, events, s0, Reader);
    var s1 := s0.(filled := [false, false], reader := Resending);
    assert Cleared(s0, Reader) == s1;
    states, events := RunPart(states, events, s1, Reader, 1, true);
    var s2 := s1.(sys := System1([y], Launch(y), 0, [x.ticket, y.ticket], [Finished(x)], [0]), reader := Toggling,
                  ring := RingState([Cut(1, 1)], 2), owner := [0, 1, 0, 0]);
    assert Sent(s1, Reader, 1, true) == s2;
    states, events := RunStartAgain(states, events, s2);
  }

  lemma CopyStep(s: Session, s': Session)
    requires s.reader.Waiting? && s.readIdx < |s.filled| && s.filled[s.readIdx] && s.readIdx < |s.mem|
    requires s' == s.(delivered := s.delivered + [s.mem[s.readIdx]], reader := Copied)
    ensures Possible(s, Copy) && Next(s, Copy) == s'
  {
  }

  lemma ToggleStep(s: Session, s': Session)
    requires s.reader.Toggling? && s' == s.(readIdx := if s.readIdx == 0 then 1 else 0, reader := Waiting)
    ensures Possible(s, Toggle) && Next(s, Toggle) == s'
  {
  }

  lemma RunStartAgain(states: seq<Session>, events: seq<Event>, s: Session)
    returns (states': seq<Session>, events': seq<Event>)
    requires RunsTo(states, events, s)
    requires s == Overtaken().(sys := System1([Waits(1, 1, true, 0)], Launch(Waits(1, 1, true, 0)), 0,
                                 [Waits(0, 1, true, 0).ticket, Waits(1, 1, true, 0).ticket],
                                   [Finished(Waits(0, 1, true, 0))], [0]),
                               start := Fresh(1), reader := Toggling, readIdx := 0,
                               ring := RingState([Cut(1, 1)], 2), owner := [0, 1, 0, 0])
    ensures RunsTo(states', events', Overtaken())
  {
    hide RunsTo, Next, Possible;
    ClearOk(s, Starter);
    states', events' := RunClear(states, events, s, Starter);
    var s1 := s.(start := Sending(1));
    assert Cleared(s, Starter) == s1;
    states', events' := RunPart(states', events', s1, Starter, 1, true);
    var s2 := Overtaken().(reader := Toggling, readIdx := 0);
    assert Sent(s1, Starter, 1, true) == s2;
    ToggleStep(s2, Overtaken());
    states', events' := More(states', events', s2, Toggle);
  }

  /** One reader and one-descriptor slots, and yet the second read returns the third capture: the
      reads are not in order, and the completions are for slots 0, 0, 1. */
  lemma EarlyReadReorders() returns (states: seq<Session>, events: seq<Event>)
    ensures Interleaving(states, events) && |states[0].owner| == 4
    ensures var s := states[|states| - 1];
            s.captured == [[1], [2], [3]] && s.delivered == [[1], [3]] && s.sys.callbacks == [0, 0, 1]
  {
    states, events := RunOvertake();
    var s0, y, z := Overtaken(), Waits(1, 1, true, 0), Waits(2, 1, true, 1);
    hide Next, Possible, OneAtHead, Interleaving;
    states, events := RunWrite(states, events, s0, 0, 2);
    var s1 := s0.(mem := [[2], [0]]);
    assert s0.mem[0 := [2]] == s1.mem;
    OneHead(s1, y, 0);
    states, events := RunRetire(states, events, s1, 0);
    var s2 := Retired(s1, 0);
    assert s2.sys.eng.queue == [z] && s2.ring.queue == [Cut(2, 1)];
    states, events := RunWrite(states, events, s2, 1, 3);
    var s3 := s2.(mem := s2.mem[1 := [3]]);
    OneHead(s3, z, 1);
    states, events := RunRetire(states, events, s3, 1);
    var s4 := Retired(s3, 1);
    CopyStep(s4, s4.(delivered := s4.delivered + [s4.mem[1]], reader := Copied));
    states, events := More(states, events, s4, Copy);
  }

  // ---------------------------------------------------------------- slots of more than half a ring

  /** START has queued two slots of three descriptors on a ring of four. */
  function Oversized(): Session {
    var x, y, z := Waits(0, 3, true, 0), Waits(1, 1, false, 1), Waits(2, 2, true, 1);
    Session(System1([x, y, z], Launch(x), 0, [x.ticket, y.ticket, z.ticket], [], []), [false, false], [[0], [0]], 0,
            Started, Waiting, [], [], RingState([Cut(0, 3), Cut(3, 1), Cut(0, 2)], 2), [2, 2, 0, 1])
  }

  /** No read overtakes START, and yet the hardware, running slot 0's transfer, writes slot 1: its
      descriptors 0 and 1 are slot 1's by now. */
  lemma OversizedSlotsCollide() returns (states: seq<Session>, events: seq<Event>)
    ensures Interleaving(states, events) && forall j :: 0 <= j < |events| ==> EventSafe(states[j], events[j])
    ensures var s := states[|states| - 1];
            && s.sys.hw.Active? && s.sys.hw.id == 0 && |s.sys.submitted| == 3 && s.sys.submitted[0].cb == Some(0)
            && Target(s) == Some(1) && !TargetRight(s)
  {
    BeginningOpen();
    states, events := RunOversized();
    assert forall j :: 0 <= j < |events| ==> EventSafe(states[j], events[j]);
  }

  lemma RunOversized() returns (states: seq<Session>, events: seq<Event>)
    ensures RunsTo(states, events, Oversized()) && |states| == |events| + 1
    ensures forall e :: e in events ==> !e.Copy? && !(e.Part? && e.who.Reader?)
  {
    states, events := RunSend(3);
    hide RunsTo, Next, Possible;
    var s2, x, y, z := FirstSent(3), Waits(0, 3, true, 0), Waits(1, 1, false, 1), Waits(2, 2, true, 1);
    ClearOk(s2, Starter);
    states, events := RunClear(states, events, s2, Starter);
    var s3 := s2.(start := Sending(1));
    assert Cleared(s2, Starter) == s3;
    states, events := RunPart(states, events, s3, Starter, 1, false);
    var s4 := s3.(sys := System1([x, y], Launch(x), 0, [x.ticket, y.ticket], [], []),
                  ring := RingState([Cut(0, 3), Cut(3, 1)], 0), owner := [0, 0, 0, 1]);
    assert Sent(s3, Starter, 1, false) == s4;
    states, events := RunPart(states, events, s4, Starter, 2, true);
    assert Sent(s4, Starter, 2, true) == Oversized();
    LengthOfRun(states, events, Oversized());
  }

  lemma LengthOfRun(states: seq<Session>, events: seq<Event>, s: Session)
    requires RunsTo(states, events, s)
    ensures |states| == |events| + 1
  {
  }
}
