/** The ping-pong double buffer: a reader, the START ioctl, the hardware and the completion
    callback over one engine, in every interleaving of their atomic steps. */
module DbufRuns {
  import opened Words
  import opened Ring
  import opened EngineModel
  import opened EngineRuns

  type Bytes = seq<bv8>

  /** Where START is: about to submit a slot, queueing the transfers of a slot it marked empty,
      or done. The device is active from the beginning of the first of these. */
  datatype StartPc = Fresh(slot: nat) | Sending(slot: nat) | Started

  /** Where the reader is: waiting for the buffer at dbuf_read_idx, with its bytes at the user,
      queueing its transfers again, or about to switch dbuf_read_idx. */
  datatype ReaderPc = Waiting | Copied | Resending | Toggling

  /** `captured` lists the slot contents at each completion callback, `delivered` what reads
      returned. `ring` is where the queued transfers lie in the descriptor ring, and `owner` the
      serial number of the transfer that each ring entry was last written for. */
  datatype Session = Session(sys: System, filled: seq<bool>, mem: seq<Bytes>, readIdx: nat,
                             start: StartPc, reader: ReaderPc, captured: seq<Bytes>, delivered: seq<Bytes>,
                             ring: RingState, owner: seq<nat>)

  datatype Who = Starter | Reader

  /** `DmaWrite` stores one byte in the buffer of the descriptor that the hardware is executing;
      `Part` queues the next transfer of the slot being submitted (a slot takes two when its
      descriptors meet the end of the ring). */
  datatype Event = Clear(who: Who) | Part(who: Who, num: nat, last: bool) | Copy | Toggle
                 | DmaWrite(offset: nat, value: bv8) | Complete(result: Result) | Stop | Serve(error: bool)

  /** The ring entry that the hardware is executing. */
  function Executing(s: Session): nat
    requires s.ring.queue != [] && s.sys.hw.Active?
  {
    s.ring.queue[0].first + |s.sys.hw.results|
  }

  /** The slot whose memory that descriptor writes. */
  function Target(s: Session): Option<nat> {
    if s.ring.queue == [] || !s.sys.hw.Active? || Executing(s) >= |s.owner| then None
    else
      var id := s.owner[Executing(s)];
      if id < |s.sys.submitted| then s.sys.submitted[id].cb else None
  }

  /** The slot that START or the reader is submitting. */
  function SlotOf(s: Session, who: Who): nat {
    if who.Reader? then s.readIdx else if s.start.Started? then 0 else s.start.slot
  }

  /** dbuf_io_done for each callback of a pass. */
  function MarkFilled(filled: seq<bool>, cbs: seq<nat>): (r: seq<bool>)
    ensures |r| == |filled|
  {
    seq(|filled|, i requires 0 <= i < |filled| => filled[i] || i in cbs)
  }

  function Snapshots(mem: seq<Bytes>, cbs: seq<nat>): (r: seq<Bytes>)
    ensures |r| == |cbs|
  {
    seq(|cbs|, i requires 0 <= i < |cbs| => if cbs[i] < |mem| then mem[cbs[i]] else [])
  }

  predicate Submitting(s: Session, who: Who) { if who.Starter? then s.start.Sending? else s.reader.Resending? }

  predicate Possible(s: Session, e: Event) {
    match e
    case Clear(who) => if who.Starter? then s.start.Fresh? else s.reader.Copied?
    case Part(who, num, _) => Submitting(s, who) && 1 <= num < 0x8000_0000 && s.ring.next + num <= |s.owner|
    case Copy => s.reader.Waiting? && s.readIdx < |s.filled| && s.filled[s.readIdx]
    case Toggle => s.reader.Toggling?
    case DmaWrite(offset, _) =>
      && s.sys.hw.Active? && s.sys.hw.busy && |s.sys.hw.results| < s.sys.hw.num
      && Target(s).Some? && Target(s).value < |s.mem| && offset < |s.mem[Target(s).value]|
    case Complete(result) => Enabled(s.sys, Progress(result))
    case Stop => Enabled(s.sys, Halt)
    case Serve(error) => Enabled(s.sys, Pass(error))
  }

  function Cleared(s: Session, who: Who): Session {
    var slot := SlotOf(s, who);
    var filled := if slot < |s.filled| then s.filled[slot := false] else s.filled;
    if who.Starter? then s.(filled := filled, start := Sending(slot)) else s.(filled := filled, reader := Resending)
  }

  function AfterLast(slot: nat): StartPc { if slot == 0 then Fresh(1) else Started }

  /** The owners after the next num entries were written for transfer id. */
  function Claim(owner: seq<nat>, first: nat, num: nat, id: nat): (r: seq<nat>)
    ensures |r| == |owner|
  {
    seq<nat>(|owner|, k requires 0 <= k < |owner| => if first <= k < first + num then id else owner[k])
  }

  function Allocated(s: Session, num: nat): Session
    requires s.owner != []
  {
    s.(ring := RingStep(|s.owner|, s.ring, Allocate(num)),
       owner := Claim(s.owner, s.ring.next, num, |s.sys.submitted|))
  }

  function GivenBack(ring: RingState, n: nat): RingState {
    if n <= |ring.queue| then ring.(queue := ring.queue[n..]) else ring.(queue := [])
  }

  function Next(s: Session, e: Event): Session
    requires Possible(s, e)
  {
    match e
    case Clear(who) => Cleared(s, who)
    case Part(who, num, last) =>
      var s1 := Allocated(s, num).(sys := Apply(s.sys, Submit(num, last, Some(SlotOf(s, who)))));
      if !last then s1
      else if who.Starter? then s1.(start := AfterLast(s.start.slot))
      else s1.(reader := Toggling)
    case Copy => if s.readIdx < |s.mem| then s.(delivered := s.delivered + [s.mem[s.readIdx]], reader := Copied) else s
    case Toggle => s.(readIdx := if s.readIdx == 0 then 1 else 0, reader := Waiting)
    case DmaWrite(offset, value) =>
      var t := Target(s).value;
      s.(mem := s.mem[t := s.mem[t][offset := value]])
    case Complete(result) => s.(sys := Apply(s.sys, Progress(result)))
    case Stop => s.(sys := Apply(s.sys, Halt))
    case Serve(error) =>
      var sys' := Apply(s.sys, Pass(error));
      var cbs := Callbacks(sys'.retired[|s.sys.retired|..]);
      s.(sys := sys', filled := MarkFilled(s.filled, cbs), captured := s.captured + Snapshots(s.mem, cbs),
         ring := GivenBack(s.ring, |sys'.retired| - |s.sys.retired|))
  }

  /** A read must not take START's first slot before START has cleared its flag, and must not
      queue it again before START has queued its second slot. */
  predicate EventSafe(s: Session, e: Event) {
    && (e.Copy? ==> s.start != Fresh(0))
    && (e.Part? && e.who.Reader? ==> s.start.Started?)
  }

  // ---------------------------------------------------------------- the invariant

  /** The number of requests whose final transfer is in the list. */
  function Lasts(q: seq<Xfer>): nat {
    if q == [] then 0 else Lasts(q[..|q| - 1]) + (if q[|q| - 1].ticket.last then 1 else 0)
  }

  /** Requests submitted in full. */
  function Full(s: Session): nat { |s.captured| + Lasts(s.sys.eng.queue) }

  /** The oldest completed buffer that the reader still needs. */
  function Oldest(s: Session): nat {
    if s.reader.Copied? && |s.delivered| > 0 then |s.delivered| - 1 else |s.delivered|
  }

  /** Requests that START has submitted in full, and that the reader has. */
  function ByStart(s: Session): nat { if s.start.Started? then 2 else s.start.slot }
  function ByReader(s: Session): nat {
    if (s.reader.Copied? || s.reader.Resending?) && |s.delivered| > 0 then |s.delivered| - 1 else |s.delivered|
  }

  /** How far submission is ahead of reading. */
  predicate PhaseOk(s: Session) {
    var r := |s.delivered|;
    && ByStart(s) <= 2 && (!s.start.Started? ==> s.start.slot <= 1 && ByReader(s) == 0)
    && Full(s) == ByStart(s) + ByReader(s)
    && (if s.reader.Waiting? then s.readIdx == r % 2 else r >= 1 && s.readIdx == (r - 1) % 2)
  }

  /** Queued transfers belong to consecutive buffers, in alternating slots. */
  ghost predicate QueueOk(q: seq<Xfer>, completed: nat) {
    forall i :: 0 <= i < |q| ==> SlotRight(q, completed, i)
  }

  ghost predicate SlotRight(q: seq<Xfer>, completed: nat, i: nat)
    requires i < |q|
  {
    q[i].ticket.cb == Some((completed + Lasts(q[..i])) % 2)
  }

  /** Outside a submission the queue ends with a whole request. */
  predicate WholeRequests(s: Session) {
    || s.start.Sending? || (s.start.Started? && s.reader.Resending?)
    || s.sys.eng.queue == [] || s.sys.eng.queue[|s.sys.eng.queue| - 1].ticket.last
  }

  /** Slot i holds a completed buffer that the reader still needs. */
  predicate Pending(oldest: nat, completed: nat, i: nat) {
    (oldest < completed && oldest % 2 == i) || (oldest + 1 < completed && (oldest + 1) % 2 == i)
  }

  /** START has not yet cleared the flag of slot i, which an earlier session may have left set. */
  predicate Uncleared(s: Session, i: nat) {
    (s.start.Fresh? && s.start.slot <= i) || (s.start.Sending? && s.start.slot < i)
  }

  ghost predicate DataOk(s: Session)
    requires |s.filled| == 2 && |s.mem| == 2
  {
    && |s.delivered| <= |s.captured| && s.delivered == s.captured[..|s.delivered|]
    && (forall i :: 0 <= i < 2 ==> Uncleared(s, i) || s.filled[i] == Pending(Oldest(s), |s.captured|, i))
    && (forall k :: Oldest(s) <= k < |s.captured| ==> s.mem[k % 2] == s.captured[k])
    && |s.sys.callbacks| == |s.captured|
    && (forall k :: 0 <= k < |s.captured| ==> s.sys.callbacks[k] == k % 2)
  }

  ghost predicate SessionInv(s: Session) {
    && |s.filled| == 2 && |s.mem| == 2
    && Inv(s.sys)
    && PhaseOk(s)
    && WholeRequests(s)
    && QueueOk(s.sys.eng.queue, |s.captured|)
    && DataOk(s)
  }

  /** START on an inactive device with an empty, idle engine; any flags, any place in the ring. */
  ghost predicate Opened(s: Session) {
    && |s.filled| == 2 && |s.mem| == 2
    && Initial(s.sys) && s.readIdx == 0 && s.start == Fresh(0) && s.reader == Waiting && s.captured == []
       && s.delivered == []
    && s.ring.queue == [] && s.ring.next < |s.owner|
  }

  // ---------------------------------------------------------------- facts

  lemma {:induction false} LastsCons(x: Xfer, q: seq<Xfer>)
    ensures Lasts([x] + q) == (if x.ticket.last then 1 else 0) + Lasts(q)
    decreases |q|
  {
    if q == [] {
      assert [x] + q == [x];
      assert Lasts([x]) == Lasts([x][..0]) + (if x.ticket.last then 1 else 0);
    } else {
      var n := |q| - 1;
      assert ([x] + q)[..n + 1] == [x] + q[..n];
      LastsCons(x, q[..n]);
    }
  }

  lemma LastsSnoc(q: seq<Xfer>, x: Xfer)
    ensures Lasts(q + [x]) == Lasts(q) + (if x.ticket.last then 1 else 0)
  {
    assert (q + [x])[..|q + [x]| - 1] == q;
  }

  lemma {:induction false} LastsPrefix(q: seq<Xfer>, i: nat)
    requires i <= |q|
    ensures Lasts(q[..i]) <= Lasts(q)
    ensures i < |q| && q[|q| - 1].ticket.last ==> Lasts(q[..i]) < Lasts(q)
    decreases |q|
  {
    if i < |q| {
      var n := |q| - 1;
      LastsPrefix(q[..n], i);
      assert q[..n][..i] == q[..i];
    } else {
      assert q[..i] == q;
    }
  }

  /** While anything is queued, at most one completed buffer is still needed, and the head of the
      queue is for the other slot. */
  lemma RoomAtHead(s: Session)
    requires SessionInv(s) && s.sys.eng.queue != []
    ensures |s.captured| <= Oldest(s) + 1
    ensures s.sys.eng.queue[0].ticket.cb == Some(|s.captured| % 2)
  {
    hide Inv, DataOk;
    var q := s.sys.eng.queue;
    assert SlotRight(q, |s.captured|, 0);
    assert q[..0] == [];
    LastsPrefix(q, 0);
  }

  lemma HeadTicket(s: System)
    requires Inv(s) && s.eng.queue != []
    ensures s.hw.Active? && s.hw.num == s.eng.queue[0].ticket.num
    ensures var id := s.eng.queue[0].ticket.id;
            id < |s.submitted| && s.submitted[id] == s.eng.queue[0].ticket
  {
    RetiredInOrder(s);
    assert s.eng.queue[0].ticket == s.submitted[|s.retired| + 0];
  }

  /** The descriptor being executed is for the buffer that completes next. */
  predicate TargetRight(s: Session) { Target(s) == Some(|s.captured| % 2) }

  // ---------------------------------------------------------------- the reader's and START's steps

  lemma ClearKeeps(s: Session, who: Who)
    requires SessionInv(s) && Possible(s, Clear(who))
    ensures SessionInv(Next(s, Clear(who)))
  {
    hide Inv, QueueOk, Lasts;
    var s', r, c := Next(s, Clear(who)), |s.delivered|, |s.captured|;
    assert c <= Full(s);
    if who.Reader? {
      NotPending(r, c);
      forall i | 0 <= i < 2
        ensures Uncleared(s', i) || s'.filled[i] == Pending(Oldest(s'), c, i)
      {
        if i != (r - 1) % 2 {
          AfterRead(r, c, i);
        }
      }
    } else {
      assert c <= s.start.slot && Oldest(s) <= c;
    }
  }

  /** Once its bytes are with the user, the slot of buffer r - 1 is not needed any more. */
  lemma NotPending(r: nat, completed: nat)
    requires 1 <= r && completed <= r + 1
    ensures !Pending(r, completed, (r - 1) % 2)
  {
  }

  /** And the other slot is needed as before. */
  lemma AfterRead(r: nat, completed: nat, i: nat)
    requires 1 <= r <= completed <= r + 1 && i < 2 && i != (r - 1) % 2
    ensures Pending(r, completed, i) == Pending(r - 1, completed, i)
  {
  }

  lemma CopyKeeps(s: Session)
    requires SessionInv(s) && Possible(s, Copy) && s.start != Fresh(0)
    ensures SessionInv(Next(s, Copy))
  {
    hide Inv, QueueOk, Lasts;
    var s' := Next(s, Copy);
    assert |s.delivered| < |s.captured|;
    assert s'.delivered == s.captured[..|s.delivered| + 1];
  }

  lemma ToggleKeeps(s: Session)
    requires SessionInv(s) && Possible(s, Toggle)
    ensures SessionInv(Next(s, Toggle))
  {
    hide Inv, QueueOk, Lasts;
  }

  lemma QueueOkSnoc(q: seq<Xfer>, completed: nat, x: Xfer)
    requires QueueOk(q, completed) && x.ticket.cb == Some((completed + Lasts(q)) % 2)
    ensures QueueOk(q + [x], completed)
  {
    hide Lasts;
    forall i | 0 <= i < |q| + 1
      ensures SlotRight(q + [x], completed, i)
    {
      assert (q + [x])[..i] == q[..i];
      if i < |q| {
        assert SlotRight(q, completed, i);
      } else {
        assert q[..i] == q;
      }
    }
  }

  /** Buffers and callbacks are as before. */
  lemma DataSame(s: Session, s': Session)
    requires |s.filled| == 2 && |s.mem| == 2 && DataOk(s)
    requires s'.filled == s.filled && s'.mem == s.mem && s'.captured == s.captured && s'.delivered == s.delivered
    requires s'.sys.callbacks == s.sys.callbacks && Oldest(s') == Oldest(s)
    requires forall i :: 0 <= i < 2 ==> Uncleared(s, i) ==> Uncleared(s', i)
    ensures DataOk(s')
  {
  }

  lemma PartQueue(s: System, num: nat, last: bool, cb: Option<nat>)
    requires Inv(s)
    ensures var s' := Apply(s, Submit(num, last, cb));
            && s'.eng.queue == s.eng.queue + [Xfer(Ticket(|s.submitted|, num, last, cb), 0, Submitted, false, false)]
            && s'.callbacks == s.callbacks
  {
  }

  /** The next submission is for the slot whose turn it is. */
  lemma SlotTurn(s: Session, who: Who)
    requires SessionInv(s) && Submitting(s, who) && (who.Reader? ==> s.start.Started?)
    ensures SlotOf(s, who) == Full(s) % 2
  {
    hide Inv, QueueOk, Lasts, DataOk;
  }

  lemma PartKeeps(s: Session, who: Who, num: nat, last: bool)
    requires SessionInv(s) && Possible(s, Part(who, num, last)) && EventSafe(s, Part(who, num, last))
    ensures SessionInv(Next(s, Part(who, num, last)))
  {
    hide Inv, QueueOk, DataOk, Apply, Lasts;
    var s', slot := Next(s, Part(who, num, last)), SlotOf(s, who);
    SlotTurn(s, who);
    SubmitKeeps(s.sys, num, last, Some(slot));
    PartQueue(s.sys, num, last, Some(slot));
    var x := Xfer(Ticket(|s.sys.submitted|, num, last, Some(slot)), 0, Submitted, false, false);
    LastsSnoc(s.sys.eng.queue, x);
    QueueOkSnoc(s.sys.eng.queue, |s.captured|, x);
    DataSame(s, s');
  }

  // ---------------------------------------------------------------- hardware and service

  lemma DmaWriteKeeps(s: Session, offset: nat, value: bv8)
    requires SessionInv(s) && Possible(s, DmaWrite(offset, value)) && TargetRight(s)
    ensures SessionInv(Next(s, DmaWrite(offset, value)))
  {
    hide Inv, QueueOk, Lasts, DataOk, Target, PhaseOk, WholeRequests;
    ActiveHasWork(s.sys);
    RoomAtHead(s);
    var t := |s.captured| % 2;
    DataWritten(s, s.mem[t][offset := value]);
    SameOrder(s, Next(s, DmaWrite(offset, value)));
  }

  lemma ActiveHasWork(s: System)
    requires Inv(s) && s.hw.Active?
    ensures s.eng.queue != []
  {
  }

  /** A write to the slot of the next buffer leaves the buffers that the reader still needs. */
  lemma DataWritten(s: Session, bytes: Bytes)
    requires |s.filled| == 2 && |s.mem| == 2 && DataOk(s) && |s.captured| <= Oldest(s) + 1
    ensures DataOk(s.(mem := s.mem[|s.captured| % 2 := bytes]))
  {
    hide Pending;
    forall k | Oldest(s) <= k < |s.captured|
      ensures k % 2 != |s.captured| % 2
    {
      assert k == |s.captured| - 1;
    }
  }

  lemma SameOrder(s: Session, s': Session)
    requires s' == s.(mem := s'.mem)
    ensures PhaseOk(s') == PhaseOk(s) && WholeRequests(s') == WholeRequests(s)
  {
  }

  lemma HardwareKeeps(s: Session, step: Step)
    requires SessionInv(s) && (step.Progress? || step.Halt?) && Enabled(s.sys, step)
    ensures SessionInv(s.(sys := Apply(s.sys, step)))
  {
    hide Inv;
    StepKeeps(s.sys, step);
  }

  /** A pass retires nothing, keeping every ticket, or exactly the head. */
  lemma PassEffect(s: System, error: bool)
    requires Inv(s)
    ensures var s' := Apply(s, Pass(error));
            || (s'.retired == s.retired && s'.callbacks == s.callbacks && Tickets(s'.eng.queue) == Tickets(s.eng.queue))
            || (s.eng.queue != [] && s'.eng.queue == s.eng.queue[1..]
                && |s'.retired| == |s.retired| + 1 && s'.retired[|s.retired|].ticket == s.eng.queue[0].ticket
                && s'.retired[..|s.retired|] == s.retired
                && s'.callbacks == s.callbacks + Callbacks([s'.retired[|s.retired|]]))
  {
    var q := s.eng.queue;
    if q != [] && s.hw.results != [] {
      hide Service, Judge, Left, EngineRuns.Waiting, Callbacks;
      InvHead(s);
      PassQueue(s, error);
      JudgedState(q[0], |s.hw.results|, s.eng.eopFlush, error, s.hw.results);
      NoCallback();
      HeadReplaced(q, Judge(q[0], |s.hw.results|, s.eng.eopFlush, error, s.hw.results).x);
    } else {
      NothingToDo(s, error);
    }
  }

  lemma HeadReplaced(q: seq<Xfer>, x: Xfer)
    requires q != []
    ensures x.ticket == q[0].ticket ==> Tickets([x] + q[1..]) == Tickets(q)
  {
  }

  lemma NothingToDo(s: System, error: bool)
    requires Inv(s) && (s.eng.queue == [] || s.hw.results == [])
    ensures var o := Service(s.eng, ReadingOf(s.hw, error)); o.eng.queue == s.eng.queue && o.retired == []
  {
  }

  lemma LastsTickets(q: seq<Xfer>, p: seq<Xfer>)
    requires Tickets(q) == Tickets(p)
    ensures Lasts(q) == Lasts(p)
    decreases |q|
  {
    if q != [] {
      var n := |q| - 1;
      assert Tickets(q)[n] == Tickets(p)[n];
      assert Tickets(q[..n]) == Tickets(q)[..n] == Tickets(p)[..n] == Tickets(p[..n]);
      LastsTickets(q[..n], p[..n]);
    }
  }

  lemma QueueOkTickets(q: seq<Xfer>, p: seq<Xfer>, completed: nat)
    requires Tickets(q) == Tickets(p) && QueueOk(p, completed)
    ensures QueueOk(q, completed)
  {
    hide Lasts;
    forall i | 0 <= i < |q|
      ensures SlotRight(q, completed, i)
    {
      assert SlotRight(p, completed, i);
      assert Tickets(q)[i] == Tickets(p)[i];
      assert Tickets(q[..i]) == Tickets(q)[..i] == Tickets(p)[..i] == Tickets(p[..i]);
      LastsTickets(q[..i], p[..i]);
    }
  }

  lemma QueueOkTail(q: seq<Xfer>, completed: nat)
    requires q != [] && QueueOk(q, completed)
    ensures QueueOk(q[1..], completed + if q[0].ticket.last then 1 else 0)
    ensures Lasts(q) == Lasts(q[1..]) + if q[0].ticket.last then 1 else 0
  {
    hide Lasts;
    assert q == [q[0]] + q[1..];
    LastsCons(q[0], q[1..]);
    var rest, done := q[1..], completed + if q[0].ticket.last then 1 else 0;
    forall i | 0 <= i < |rest|
      ensures SlotRight(rest, done, i)
    {
      assert SlotRight(q, completed, i + 1);
      assert q[..i + 1] == [q[0]] + q[1..][..i];
      LastsCons(q[0], q[1..][..i]);
    }
  }

  /** A pass that keeps the queue's tickets. */
  lemma QuietPassKeeps(s: Session, s': Session)
    requires SessionInv(s) && Inv(s'.sys) && Tickets(s'.sys.eng.queue) == Tickets(s.sys.eng.queue)
    requires s'.sys.callbacks == s.sys.callbacks && s' == s.(sys := s'.sys, ring := s'.ring)
    ensures SessionInv(s')
  {
    hide Inv;
    var q, q' := s.sys.eng.queue, s'.sys.eng.queue;
    QueueOkTickets(q', q, |s.captured|);
    LastsTickets(q', q);
    if q != [] {
      assert Tickets(q)[|q| - 1] == Tickets(q')[|q| - 1];
    }
  }

  /** A pass that retires the head without completing its buffer. */
  lemma PartialRetireKeeps(s: Session, s': Session)
    requires SessionInv(s) && Inv(s'.sys) && s.sys.eng.queue != [] && s'.sys.eng.queue == s.sys.eng.queue[1..]
    requires !s.sys.eng.queue[0].ticket.last
    requires s'.sys.callbacks == s.sys.callbacks && s' == s.(sys := s'.sys, ring := s'.ring)
    ensures SessionInv(s')
  {
    hide Inv, QueueOk, DataOk;
    QueueOkTail(s.sys.eng.queue, |s.captured|);
    DataSame(s, s');
  }

  /** A pass that retires the final transfer of a buffer: its slot becomes filled. */
  lemma CompletionKeeps(s: Session, s': Session)
    requires SessionInv(s) && Inv(s'.sys) && s.sys.eng.queue != [] && s'.sys.eng.queue == s.sys.eng.queue[1..]
    requires s.sys.eng.queue[0].ticket.last
    requires var t := |s.captured| % 2;
             && s'.sys.callbacks == s.sys.callbacks + [t]
             && s' == s.(sys := s'.sys, ring := s'.ring, filled := s.filled[t := true],
                         captured := s.captured + [s.mem[t]])
    ensures SessionInv(s')
  {
    hide Inv, QueueOk, Lasts;
    RoomAtHead(s);
    QueueOkTail(s.sys.eng.queue, |s.captured|);
    CompletionData(s, s');
    hide DataOk, Target;
  }

  lemma CompletionData(s: Session, s': Session)
    requires |s.filled| == 2 && |s.mem| == 2 && DataOk(s) && |s.captured| <= Oldest(s) + 1
    requires var t := |s.captured| % 2;
             && s'.sys.callbacks == s.sys.callbacks + [t]
             && s' == s.(sys := s'.sys, ring := s'.ring, filled := s.filled[t := true],
                         captured := s.captured + [s.mem[t]])
    ensures DataOk(s')
  {
    assert s'.delivered == s'.captured[..|s.delivered|];
    assert Oldest(s') == Oldest(s);
    PendingNext(Oldest(s), |s.captured|);
  }

  lemma PendingNext(oldest: nat, completed: nat)
    requires oldest <= completed <= oldest + 1
    ensures forall i :: 0 <= i < 2 ==>
              Pending(oldest, completed + 1, i) == (i == completed % 2 || Pending(oldest, completed, i))
  {
    forall i | 0 <= i < 2
      ensures Pending(oldest, completed + 1, i) == (i == completed % 2 || Pending(oldest, completed, i))
    {
      if oldest == completed {
      } else {
        assert oldest + 1 == completed;
      }
    }
  }

  lemma ServiceQuiet(s: Session, error: bool)
    requires SessionInv(s) && Possible(s, Serve(error))
    requires Apply(s.sys, Pass(error)).retired == s.sys.retired
    ensures SessionInv(Next(s, Serve(error)))
  {
    var s' := Next(s, Serve(error));
    PassEffect(s.sys, error);
    StepKeeps(s.sys, Pass(error));
    hide Inv, Apply, SessionInv;
    assert s'.sys.retired[|s.sys.retired|..] == [];
    assert s'.filled == s.filled && s'.captured == s.captured;
    QuietPassKeeps(s, s');
  }

  lemma ServiceRetires(s: Session, error: bool, x: Xfer)
    requires SessionInv(s) && Possible(s, Serve(error)) && s.sys.eng.queue != []
    requires var sys' := Apply(s.sys, Pass(error));
             && |sys'.retired| == |s.sys.retired| + 1 && sys'.retired[|s.sys.retired|] == x
             && x.ticket == s.sys.eng.queue[0].ticket
             && sys'.eng.queue == s.sys.eng.queue[1..]
             && sys'.callbacks == s.sys.callbacks + CallbackOf(x)
    ensures SessionInv(Next(s, Serve(error)))
  {
    hide Inv, Control, History, MarkFilled, Snapshots, Callbacks, Target, Service, QueueOk, DataOk, Lasts;
    StepKeeps(s.sys, Pass(error));
    RoomAtHead(s);
    var s' := Next(s, Serve(error));
    NewCallbacks(s.sys.retired, s'.sys.retired, x);
    hide Apply, SessionInv;
    if x.ticket.last {
      FillOne(s);
      CompletionKeeps(s, s');
    } else {
      NothingFilled(s);
      PartialRetireKeeps(s, s');
    }
  }

  lemma NewCallbacks(before: seq<Xfer>, after: seq<Xfer>, x: Xfer)
    requires |after| == |before| + 1 && after[|before|] == x
    ensures Callbacks(after[|before|..]) == CallbackOf(x)
  {
    CallbacksSnoc([], x);
    assert after[|before|..] == [x] == [] + [x];
  }

  lemma ServiceKeeps(s: Session, error: bool)
    requires SessionInv(s) && Possible(s, Serve(error))
    ensures SessionInv(Next(s, Serve(error)))
  {
    PassEffect(s.sys, error);
    var sys' := Apply(s.sys, Pass(error));
    if sys'.retired == s.sys.retired {
      ServiceQuiet(s, error);
    } else {
      var x := sys'.retired[|s.sys.retired|];
      CallbacksSnoc([], x);
      assert [] + [x] == [x];
      ServiceRetires(s, error, x);
    }
  }

  lemma NothingFilled(s: Session)
    ensures MarkFilled(s.filled, []) == s.filled && Snapshots(s.mem, []) == []
  {
  }

  lemma FillOne(s: Session)
    requires |s.filled| == 2 && |s.mem| == 2
    ensures var t := |s.captured| % 2;
            && MarkFilled(s.filled, [t]) == s.filled[t := true]
            && Snapshots(s.mem, [t]) == [s.mem[t]]
  {
  }

  lemma EventKeeps(s: Session, e: Event)
    requires SessionInv(s) && Possible(s, e) && EventSafe(s, e) && (e.DmaWrite? ==> TargetRight(s))
    ensures SessionInv(Next(s, e))
  {
    hide SessionInv;
    match e
    case Clear(who) => ClearKeeps(s, who);
    case Part(who, num, last) => PartKeeps(s, who, num, last);
    case Copy => CopyKeeps(s);
    case Toggle => ToggleKeeps(s);
    case DmaWrite(offset, value) => DmaWriteKeeps(s, offset, value);
    case Complete(result) => HardwareKeeps(s, Progress(result));
    case Stop => HardwareKeeps(s, Halt);
    case Serve(error) => ServiceKeeps(s, error);
  }

  /** A read that takes a flag which START has not cleared yet returns a buffer that was never
      captured. */
  lemma EarlyCopyBreaks(s: Session)
    requires SessionInv(s) && Possible(s, Copy) && s.start == Fresh(0)
    ensures !SessionInv(Next(s, Copy))
  {
    hide Inv, QueueOk;
  }

  /** A slot that the reader queues again while START is still submitting takes a turn that is
      not its own. */
  lemma EarlyPartBreaks(s: Session, num: nat, last: bool)
    requires SessionInv(s) && Possible(s, Part(Reader, num, last)) && !s.start.Started?
    ensures !SessionInv(Next(s, Part(Reader, num, last)))
  {
    var q, s' := s.sys.eng.queue, Next(s, Part(Reader, num, last));
    PartQueue(s.sys, num, last, Some(s.readIdx));
    hide Inv, DataOk, Apply, Lasts, WholeRequests;
    assert s.readIdx == 0 && |s.captured| + Lasts(q) == 1;
    var n := |q|;
    assert s'.sys.eng.queue[..n] == q;
    assert !SlotRight(s'.sys.eng.queue, |s.captured|, n);
  }

  /** An event keeps the session in order exactly when it is safe. */
  lemma EventKeepsExactly(s: Session, e: Event)
    requires SessionInv(s) && Possible(s, e) && (e.DmaWrite? ==> TargetRight(s))
    ensures SessionInv(Next(s, e)) <==> EventSafe(s, e)
  {
    hide SessionInv;
    if EventSafe(s, e) {
      EventKeeps(s, e);
    } else if e.Copy? {
      EarlyCopyBreaks(s);
    } else {
      EarlyPartBreaks(s, e.num, e.last);
    }
  }

  // ---------------------------------------------------------------- runs

  ghost predicate Interleaving(states: seq<Session>, events: seq<Event>) {
    && |states| == |events| + 1
    && Opened(states[0])
    && forall i :: 0 <= i < |events| ==> Possible(states[i], events[i]) && states[i + 1] == Next(states[i], events[i])
  }

  lemma OpenedInv(s: Session)
    requires Opened(s)
    ensures SessionInv(s)
  {
    assert s.sys.submitted == Tickets(s.sys.retired) + Tickets(s.sys.eng.queue);
  }

  /** While START has not returned, no read has gone past its wait, if every read starts later. */
  lemma {:induction false} ReadsAfterStartSafe(states: seq<Session>, events: seq<Event>, i: nat)
    requires Interleaving(states, events) && i < |states|
    requires forall j :: 0 <= j < |events| && events[j].Copy? ==> states[j].start.Started?
    ensures states[i].start.Started? || states[i].reader.Waiting?
    ensures i < |events| ==> EventSafe(states[i], events[i])
    decreases i
  {
    hide Opened, Apply, Target, MarkFilled, Snapshots, Callbacks;
    if i == 0 {
      assert states[0].reader.Waiting? by {
        OpenedWaiting(states[0]);
      }
    } else {
      ReadsAfterStartSafe(states, events, i - 1);
      assert states[i] == Next(states[i - 1], events[i - 1]);
    }
  }

  lemma OpenedWaiting(s: Session)
    requires Opened(s)
    ensures s.reader.Waiting? && s.start == Fresh(0)
  {
  }

  predicate Queued(q: seq<Xfer>, slot: nat) {
    exists i :: 0 <= i < |q| && q[i].ticket.cb == Some(slot)
  }

  lemma SlotExclusive(s: Session, t: nat)
    requires SessionInv(s) && t < 2
    ensures !Uncleared(s, t) ==> !(s.filled[t] && Queued(s.sys.eng.queue, t))
    ensures Uncleared(s, t) ==> !Queued(s.sys.eng.queue, t)
    ensures s.start.Started? && s.reader.Waiting? ==> (s.filled[t] <==> !Queued(s.sys.eng.queue, t))
  {
    var q, c := s.sys.eng.queue, |s.captured|;
    hide Inv, Lasts;
    if Queued(q, t) {
      var i :| 0 <= i < |q| && q[i].ticket.cb == Some(t);
      LastsPrefix(q, i);
      assert SlotRight(q, c, i);
    } else if s.start.Started? && s.reader.Waiting? && !s.filled[t] {
      QueuedSlot(s, t);
    }
  }

  /** While the reader waits, every buffer not yet completed is queued. */
  lemma QueuedSlot(s: Session, t: nat)
    requires SessionInv(s) && s.start.Started? && s.reader.Waiting? && t < 2 && !Pending(Oldest(s), |s.captured|, t)
    ensures Queued(s.sys.eng.queue, t)
  {
    var q, c := s.sys.eng.queue, |s.captured|;
    hide Inv, DataOk;
    assert q[..0] == [] && Lasts([]) == 0;
    if c % 2 == t {
      assert SlotRight(q, c, 0);
      assert q[0].ticket.cb == Some(t);
    } else {
      var i := FirstAfter(q);
      assert SlotRight(q, c, i);
      assert q[i].ticket.cb == Some(t);
    }
  }

  /** With two whole requests queued, some transfer belongs to the second. */
  lemma {:induction false} FirstAfter(q: seq<Xfer>) returns (i: nat)
    requires Lasts(q) >= 2
    ensures i < |q| && Lasts(q[..i]) == 1
    decreases |q|
  {
    var n := |q| - 1;
    if Lasts(q[..n]) == 1 {
      i := n;
    } else {
      i := FirstAfter(q[..n]);
      assert q[..n][..i] == q[..i];
    }
  }
}
