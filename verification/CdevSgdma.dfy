/** The double-buffer device: START, the completion callback, submission of a slot and the
    reader. Each method carries out events of the session state machine. */
module CdevSgdma {
  import opened Words
  import opened LinearCopy
  import opened Request
  import opened Descriptors
  import opened Chains
  import opened Ring
  import opened EngineModel
  import opened EngineRuns
  import opened DbufRuns
  import opened DbufRing
  import opened LibXdma
  import opened Submit
  import opened Queued
  import opened RingWrites
  import opened SlotRing

  const ERESTARTSYS := 512
  const PAGE_SIZE := 4096
  const DBUF_V1 := 1

  // ---------------------------------------------------------------- submission as session events

  function Serials(from: nat, n: nat): (r: seq<nat>)
    ensures |r| == n
  {
    seq<nat>(n, i requires 0 <= i < n => from + i)
  }

  /** The size of the next transfer of a slot with n descriptors to go. */
  function PartSize(s: Session, n: nat): nat {
    if s.ring.next <= |s.owner| then Min(n, |s.owner| - s.ring.next) else 0
  }

  function NextPart(s: Session, who: Who, n: nat): Event { Part(who, PartSize(s, n), PartSize(s, n) == n) }

  /** The Part events of a slot of n descriptors. */
  function RunParts(s: Session, who: Who, n: nat): Session
    decreases n
  {
    if n == 0 || !Possible(s, NextPart(s, who, n)) || PartSize(s, n) == 0 then s
    else RunParts(DbufRuns.Next(s, NextPart(s, who, n)), who, n - PartSize(s, n))
  }

  /** The slot may be submitted by this party now, and no descriptor of it is submitted yet. */
  ghost predicate MaySend(s: Session, who: Who, n: nat, p: nat) {
    && SessionInv(s) && RingMatches(s, p) && Submitting(s, who) && (who.Reader? ==> s.start.Started?)
    && |s.owner| < 0x8000_0000 && 2 * p <= |s.owner| && OpenSum(s.sys.submitted) + n <= p
  }

  ghost predicate OnlyQueued(s: Session, s': Session) {
    && s'.filled == s.filled && s'.mem == s.mem && s'.readIdx == s.readIdx
    && s'.captured == s.captured && s'.delivered == s.delivered && |s'.owner| == |s.owner|
  }

  function PcAfter(s: Session, who: Who): (StartPc, ReaderPc) {
    if who.Starter? then (if s.start.Sending? then AfterLast(s.start.slot) else s.start, s.reader)
      else (s.start, Toggling)
  }

  lemma PartBounds(s: Session, who: Who, n: nat, p: nat)
    requires MaySend(s, who, n, p) && n > 0
    ensures s.ring.next < |s.owner|
    ensures var num := PartSize(s, n);
            && 1 <= num <= n && Possible(s, NextPart(s, who, n)) && EventSafe(s, NextPart(s, who, n))
            && PartFits(s, NextPart(s, who, n), p)
  {
    hide SessionInv, SlotsBounded, OwnersOk, OpenSum;
  }

  /** What one Part changes. */
  lemma PartEffect(s: Session, who: Who, num: nat, last: bool)
    requires Possible(s, Part(who, num, last))
    ensures s.owner != []
    ensures var s', x := DbufRuns.Next(s, Part(who, num, last)),
                         Xfer(Ticket(|s.sys.submitted|, num, last, Some(SlotOf(s, who))), 0, New, false, false);
            && OnlyQueued(s, s')
            && s'.sys.submitted == s.sys.submitted + [x.ticket]
            && s'.sys.eng == Enqueue(s.sys.eng, x)
            && s'.ring == RingState(s.ring.queue + [Cut(s.ring.next, num)], (s.ring.next + num) % |s.owner|)
            && (s'.start, s'.reader) == (if last then PcAfter(s, who) else (s.start, s.reader))
  {
    hide Enqueue;
  }

  lemma OpenSumSnoc(ts: seq<Ticket>, t: Ticket)
    ensures OpenSum(ts + [t]) == if t.last then 0 else OpenSum(ts) + t.num
  {
    assert (ts + [t])[..|ts|] == ts;
  }

  /** One transfer of a slot: a safe event, after which the rest of the slot may be sent. */
  lemma OnePart(s: Session, who: Who, n: nat, p: nat)
    requires MaySend(s, who, n, p) && n > 0
    ensures s.ring.next < |s.owner|
    ensures var num := PartSize(s, n);
            && 1 <= num <= n && Possible(s, NextPart(s, who, n)) && EventSafe(s, NextPart(s, who, n))
    ensures var num, s' := PartSize(s, n), DbufRuns.Next(s, NextPart(s, who, n));
            && OnlyQueued(s, s') && SessionInv(s') && RingMatches(s', p)
            && (num < n ==> MaySend(s', who, n - num, p) && s'.start == s.start && s'.reader == s.reader)
            && (num == n ==> (s'.start, s'.reader) == PcAfter(s, who) && OpenSum(s'.sys.submitted) == 0)
            && |s'.sys.submitted| == |s.sys.submitted| + 1
            && s'.ring == RingState(s.ring.queue + [Cut(s.ring.next, num)], (s.ring.next + num) % |s.owner|)
            && s'.sys.eng == Enqueue(s.sys.eng,
                                     Xfer(Ticket(|s.sys.submitted|, num, num == n, Some(SlotOf(s, who))), 0, New,
                                          false, false))
  {
    hide SessionInv, RingMatches, Possible, DbufRuns.Next, Enqueue, OpenSum;
    hide PartFits, EventSafe, PcAfter, SlotOf, PartSize;
    PartBounds(s, who, n, p);
    var num, e := PartSize(s, n), NextPart(s, who, n);
    var x := Ticket(|s.sys.submitted|, num, num == n, Some(SlotOf(s, who)));
    PartEffect(s, who, num, num == n);
    EventKeeps(s, e);
    EventMatches(s, e, p);
    OpenSumSnoc(s.sys.submitted, x);
  }

  lemma RunPartsStep(s: Session, who: Who, n: nat)
    requires n > 0 && Possible(s, NextPart(s, who, n)) && PartSize(s, n) > 0
    ensures RunParts(s, who, n) == RunParts(DbufRuns.Next(s, NextPart(s, who, n)), who, n - PartSize(s, n))
  {
  }

  lemma NothingMore(s: Session, who: Who, e: Engine)
    ensures RunParts(s, who, 0) == s && EnqueueAll(e, []) == e
  {
  }

  lemma EnqueueAllStep(e: Engine, xs: seq<Xfer>)
    requires xs != []
    ensures EnqueueAll(e, xs) == EnqueueAll(Enqueue(e, xs[0]), xs[1..])
  {
  }

  lemma CarveHead(n: nat, d: nat, r: nat)
    requires d < r && n > 0
    ensures var k := Min(n, r - d);
            Carve(n, d, r) == [Cut(d, k)] + Carve(n - k, (d + k) % r, r)
    ensures Carve(0, d, r) == []
  {
  }

  /** The transfers of a slot, queued one by one, are the session's Part events and keep its
      invariants. */
  lemma {:induction false} RunPartsEnqueue(s: Session, who: Who, n: nat, p: nat)
    requires MaySend(s, who, n, p) && n > 0
    ensures s.ring.next < |s.owner|
    ensures var s', cuts := RunParts(s, who, n), Carve(n, s.ring.next, |s.owner|);
            && SessionInv(s') && RingMatches(s', p) && OnlyQueued(s, s') && OpenSum(s'.sys.submitted) == 0
            && (s'.start, s'.reader) == PcAfter(s, who)
            && s'.ring == RingState(s.ring.queue + cuts, After(s.ring.next, n, |s.owner|))
            && s'.sys.eng == EnqueueAll(s.sys.eng,
                                        RequestXfers(Serials(|s.sys.submitted|, |cuts|), cuts, SlotOf(s, who)))
    decreases n
  {
    hide MaySend, SessionInv, RingMatches, Possible, DbufRuns.Next, Enqueue;
    hide EnqueueAll, OpenSum, RunParts, EventSafe, Carve;
    OnePart(s, who, n, p);
    var num, s1, r := PartSize(s, n), DbufRuns.Next(s, NextPart(s, who, n)), |s.owner|;
    var cuts := Carve(n, s.ring.next, r);
    var xs := RequestXfers(Serials(|s.sys.submitted|, |cuts|), cuts, SlotOf(s, who));
    CarveHead(n, s.ring.next, r);
    RunPartsStep(s, who, n);
    EnqueueAllStep(s.sys.eng, xs);
    if num == n {
      CarveHead(1, s1.ring.next, r);
      assert xs[1..] == [] && cuts == [Cut(s.ring.next, n)];
      NothingMore(s1, who, s1.sys.eng);
    } else {
      assert (s.ring.queue + [cuts[0]]) + cuts[1..] == s.ring.queue + cuts;
      SameSlot(s, s1, who);
      RunPartsEnqueue(s1, who, n - num, p);
      CarveSome(n - num, s1.ring.next, r);
      assert xs[1..] == RequestXfers(Serials(|s.sys.submitted| + 1, |cuts| - 1), cuts[1..], SlotOf(s, who));
      AfterSplit(s.ring.next, num, n - num, r);
    }
  }

  lemma SameSlot(s: Session, s': Session, who: Who)
    requires s'.start == s.start && s'.reader == s.reader && s'.readIdx == s.readIdx
    ensures SlotOf(s', who) == SlotOf(s, who) && PcAfter(s', who) == PcAfter(s, who)
  {
  }

  /** Who may submit slot idx next: START in order, or the reader for the slot it just copied. */
  predicate MaySubmit(s: Session, who: Who, idx: nat) {
    if who.Starter? then s.start == Fresh(idx) else s.reader == Copied && s.readIdx == idx && s.start.Started?
  }

  /** dbuf_submit_slot as session events: the slot is marked empty, then its transfers are queued. */
  ghost function SlotSubmitted(s: Session, who: Who, n: nat): Session
    requires Possible(s, Clear(who))
  {
    RunParts(DbufRuns.Next(s, Clear(who)), who, n)
  }

  /** A session between two submissions, with slots of p descriptors on a ring that holds two. */
  ghost predicate Settled(s: Session, p: nat) {
    && SessionInv(s) && RingMatches(s, p)
    && 2 * p <= |s.owner| < 0x8000_0000 && OpenSum(s.sys.submitted) == 0
  }

  lemma ClearFacts(s: Session, who: Who, idx: nat, p: nat)
    requires Settled(s, p) && MaySubmit(s, who, idx)
    ensures idx < 2 && |s.filled| == 2 && Possible(s, Clear(who)) && !s.sys.eng.shutRequest
    ensures var s' := DbufRuns.Next(s, Clear(who));
            && MaySend(s', who, p, p)
            && s' == s.(filled := s.filled[idx := false], start := s'.start, reader := s'.reader)
            && (if who.Starter? then s'.start == Sending(idx) && s'.reader == s.reader
                else s'.start == s.start && s'.reader == Resending)
  {
    ClearKeeps(s, who);
    ClearShape(s, who, idx);
    hide DbufRuns.Next, QueueOk, DataOk, RingInv, SlotsBounded, OwnersOk, OpenSum, Lasts, WholeRequests;
  }

  lemma ClearShape(s: Session, who: Who, idx: nat)
    requires Possible(s, Clear(who)) && SlotOf(s, who) == idx && idx < |s.filled|
    ensures var s' := DbufRuns.Next(s, Clear(who));
            && s' == s.(filled := s.filled[idx := false], start := s'.start, reader := s'.reader)
            && (if who.Starter? then s'.start == Sending(idx) && s'.reader == s.reader
                else s'.start == s.start && s'.reader == Resending)
  {
  }

  lemma SubmitFacts(s: Session, who: Who, idx: nat, p: nat)
    requires Settled(s, p) && MaySubmit(s, who, idx) && p > 0
    ensures idx < 2 && |s.filled| == 2 && Possible(s, Clear(who)) && !s.sys.eng.shutRequest && s.ring.next < |s.owner|
    ensures var s', cuts := SlotSubmitted(s, who, p), Carve(p, s.ring.next, |s.owner|);
            && Settled(s', p) && |s'.owner| == |s.owner|
            && s'.filled == s.filled[idx := false] && s'.mem == s.mem && s'.readIdx == s.readIdx
            && s'.captured == s.captured && s'.delivered == s.delivered
            && (s'.start, s'.reader) == (if who.Starter? then (AfterLast(idx), s.reader) else (s.start, Toggling))
            && s'.ring == RingState(s.ring.queue + cuts, After(s.ring.next, p, |s.owner|))
            && PairwiseDisjoint(s'.ring.queue) && EndsWhole(Tickets(s.sys.eng.queue))
            && s'.sys.eng == EnqueueAll(s.sys.eng, RequestXfers(Serials(|s.sys.submitted|, |cuts|), cuts, idx))
  {
    hide RunParts, EnqueueAll, MaySend, SessionInv, RingMatches, OpenSum, DbufRuns.Next, Possible, Carve, RequestXfers;
    ClearFacts(s, who, idx, p);
    RunPartsEnqueue(DbufRuns.Next(s, Clear(who)), who, p, p);
    MatchedDisjoint(SlotSubmitted(s, who, p), p);
    WholeBefore(s, who, idx);
  }

  lemma MatchedDisjoint(s: Session, p: nat)
    requires RingMatches(s, p)
    ensures PairwiseDisjoint(s.ring.queue)
  {
  }

  lemma WholeBefore(s: Session, who: Who, idx: nat)
    requires SessionInv(s) && MaySubmit(s, who, idx)
    ensures EndsWhole(Tickets(s.sys.eng.queue))
  {
    hide Inv, DataOk, QueueOk, PhaseOk;
  }

  /** The two buffers are separate pieces of bus memory. */
  ghost predicate Apart(bus: seq<nat>, size: nat) {
    && |bus| == 2
    && bus[0] + size <= 0x1_0000_0000_0000_0000 && bus[1] + size <= 0x1_0000_0000_0000_0000
    && (bus[0] + size <= bus[1] || bus[1] + size <= bus[0])
  }

  /** The records of the queued transfers lie at these cuts. */
  ghost predicate InPlace(list: seq<Transfer>, cuts: seq<Cut>)
    reads list`descIndex
  {
    |list| == |cuts| && forall i :: 0 <= i < |list| ==> list[i].descIndex == cuts[i].first
  }

  class DoubleBuffer {
    const engine: XdmaEngine
    const blenMax: nat
    var active: bool
    var size: nat
    var epAddr: nat
    var readIdx: nat
    /** The two slots: filled flag, bus address, and the bytes of the coherent buffer. */
    var filled: seq<bool>
    var bus: seq<nat>
    var mem: seq<Bytes>
    /** The session this device is carrying out. */
    ghost var session: Session

    constructor (engine: XdmaEngine, blenMax: nat, ghost session: Session)
      requires engine.ValidQueue() && 0 < blenMax < 0x1_0000_0000 && engine.cfg.dir.FromDevice?
      ensures Valid() && this.engine == engine && this.blenMax == blenMax && !active && this.session == session
    {
      this.engine, this.blenMax, this.session := engine, blenMax, session;
      active, size, epAddr, readIdx := false, 0, 0, 0;
      filled, bus, mem := [false, false], [0, 0], [[], []];
    }

    ghost predicate Valid()
      reads this, engine, engine.transferList
    {
      && |filled| == |bus| == |mem| == 2
      && engine.ValidQueue() && 0 < blenMax < 0x1_0000_0000 && engine.cfg.dir.FromDevice?
      && (active ==> SizeFits(size) && |mem[0]| == |mem[1]| == size && Apart(bus, size))
      && forall i :: 0 <= i < 2 ==> bus[i] < 0x1_0000_0000_0000_0000
    }

    /** A slot's descriptors: no wrap in the 32-bit rounding, and at most half a ring. */
    ghost predicate SizeFits(n: nat)
      requires 0 < blenMax
    {
      && 0 < n < 0x1_0000_0000 && (n <= blenMax || n + blenMax - 1 < 0x1_0000_0000)
      && 2 * CeilDiv(n, blenMax) <= engine.cfg.descMax
    }

    /** The device and the session agree: flags, memory, engine and ring; and the queued descriptors
        store to the buffers of the slots that they were queued for. */
    ghost predicate Tracks()
      requires 0 < blenMax
      reads this, engine, engine.transferList, engine.desc
    {
      && InPlace(engine.transferList, session.ring.queue)
      && Laid(engine.desc[..], session.ring.queue, Tickets(session.sys.eng.queue), Buffers(bus, size, blenMax))
      && session.filled == filled && session.mem == mem && session.readIdx == readIdx
      && session.sys.eng == engine.View()
      && session.ring.next == engine.descIdx && |session.owner| == engine.cfg.descMax
      && Settled(session, CeilDiv(size, blenMax))
    }

    /** dbuf_io_done. A callback that arrives while the device is inactive is ignored. */
    method IoDone(slot: nat, err: int)
      requires |filled| == 2
      modifies `active, `filled
      ensures active == (old(active) && err == 0)
      ensures filled == if old(active) && err == 0 then old(filled)[if slot == 1 then 1 else 0 := true] else old(filled)
    {
      if !active {
        return;
      }
      var idx := if slot == 1 then 1 else 0;
      if err != 0 {
        active := false;
        return;
      }
      filled := filled[idx := true];
    }

    /** dbuf_submit_slot, called by START or by the reader. */
    method SubmitSlot(idx: nat, ghost who: Who) returns (rv: int)
      requires Valid() && active && Tracks() && MaySubmit(session, who, idx) && epAddr < 0x1_0000_0000_0000_0000
      modifies `filled, `session, engine, engine.desc, engine.results
      ensures rv == 0 && Valid() && Tracks()
      ensures Possible(old(session), Clear(who)) && session == SlotSubmitted(old(session), who, CeilDiv(size, blenMax))
      ensures (session.start, session.reader)
           == (if who.Starter? then (AfterLast(idx), old(session).reader) else (old(session).start, Toggling))
      ensures session.captured == old(session).captured && session.delivered == old(session).delivered
      ensures idx < 2
      ensures SlotWritten(engine.cfg, old(engine.desc[..]), engine.desc[..], old(engine.descIdx),
                          Extent(bus[idx], size), blenMax, epAddr)
    {
      hide Settled, RunParts, EnqueueAll, Carve, SlotSubmitted, RequestXfers, Laid, Buffers, RingAfter, Pieces, Sum;
      hide CeilDiv, Separate, InBounds, After, Possible, PairwiseDisjoint, Tickets, EndsWhole, SlotWritten, Counts;
      hide InPlace, Views, Apart, MaySubmit;
      ghost var s, p, list, d := session, CeilDiv(size, blenMax), engine.transferList, engine.descIdx;
      ghost var cuts, ring := Carve(p, d, engine.cfg.descMax), engine.desc[..];
      SomeDescs(size, blenMax);
      SubmitFacts(s, who, idx, p);
      filled := filled[idx := false];
      rv := QueueRequest(engine, [Extent(bus[idx], size)], epAddr, blenMax, idx, |s.sys.submitted|);
      session := SlotSubmitted(s, who, p);
      SlotLaid(engine.cfg, ring, s, cuts, bus, size, blenMax, idx, epAddr, engine.desc[..]);
      InPlaceMore(list, engine.transferList, s.ring.queue, cuts);
      if rv == -EIOCBQUEUED {
        rv := 0;
      }
    }

    /** ioctl_do_dbuf_start, with the bus addresses and contents of the two coherent buffers. The
        filled flags may be left over from an earlier session. */
    method Start(version: nat, bufSize: nat, ep: nat, slotBus: seq<nat>, buffers: seq<Bytes>, ghost sys: System)
      returns (rv: int)
      requires Valid() && |slotBus| == |buffers| == 2 && ep < 0x1_0000_0000_0000_0000
      requires forall i :: 0 <= i < 2 ==> slotBus[i] < 0x1_0000_0000_0000_0000 && |buffers[i]| == bufSize
      requires bufSize > 0 ==> SizeFits(bufSize) && Apart(slotBus, bufSize)
      requires Initial(sys) && sys.eng == engine.View()
      modifies this, engine, engine.desc, engine.results
      ensures Valid()
      ensures rv == if old(active) then -EBUSY
                    else if version != DBUF_V1 || bufSize == 0 || bufSize % PAGE_SIZE != 0 then -EINVAL else 0
      ensures rv != 0 ==>
                active == old(active) && session == old(session) && filled == old(filled)
                  && engine.View() == old(engine.View())
      ensures rv == 0 ==>
                && active && size == bufSize && bus == slotBus && epAddr == ep
                && Tracks() && session.start == Started && session.reader == Waiting
                && StartRun(session, CeilDiv(size, blenMax))
    {
      hide Settled, CeilDiv, Separate, InBounds, Views, StartRun, Initial;
      if active {
        return -EBUSY;
      }
      if version != DBUF_V1 {
        return -EINVAL;
      }
      if bufSize == 0 || bufSize % PAGE_SIZE != 0 {
        return -EINVAL;
      }
      size, epAddr, readIdx, bus, mem := bufSize, ep, 0, slotBus, buffers;
      active := true;
      session := NewSession(sys, filled, buffers, engine.descIdx, engine.cfg.descMax);
      NewSettled(sys, filled, buffers, engine.descIdx, engine.cfg.descMax, CeilDiv(size, blenMax));
      NothingLaid(sys, engine.desc[..], Buffers(bus, size, blenMax));
      rv := SubmitBoth();
    }

    /** Both slots, in order. */
    method SubmitBoth() returns (rv: int)
      requires Valid() && active && Tracks() && Opened(session) && epAddr < 0x1_0000_0000_0000_0000
      modifies `filled, `session, engine, engine.desc, engine.results
      ensures rv == 0 && Valid() && Tracks() && session.start == Started && session.reader == Waiting
      ensures StartRun(session, CeilDiv(size, blenMax))
    {
      hide Settled, CeilDiv, Separate, InBounds, Views, Initial, SlotSubmitted, Possible;
      ghost var begun, p := session, CeilDiv(size, blenMax);
      rv := SubmitSlot(0, Starter);
      ghost var half := session;
      rv := SubmitSlot(1, Starter);
      assert StartSteps(begun, half, session, p);
    }

    /** The double-buffer part of char_sgdma_read, from the end of its wait: the wait ends on a
        signal, on a filled slot or on an inactive device. START has returned. */
    method Read(count: nat, interrupted: bool, copied: bool) returns (rv: int, data: Bytes)
      requires Valid() && epAddr < 0x1_0000_0000_0000_0000
      requires active ==> Tracks() && session.start == Started && session.reader == Waiting
      requires readIdx < 2 && (interrupted || filled[readIdx] || !active)
      modifies `filled, `readIdx, `session, engine, engine.desc, engine.results
      ensures Valid() && active == old(active)
      ensures rv == if count > size then -EINVAL else if interrupted then -ERESTARTSYS
                    else if !active then -EIO else if !copied then -EFAULT else count
      ensures rv < 0 ==>
                && data == [] && session == old(session) && filled == old(filled) && readIdx == old(readIdx)
                && engine.View() == old(engine.View())
      ensures rv >= 0 ==>
                && Tracks() && session.start == Started && session.reader == Waiting && readIdx == 1 - old(readIdx)
                && Delivers(old(session), session, count, data)
    {
      hide Settled, CeilDiv, Separate, InBounds, Views, Delivers;
      data := [];
      if count > size {
        return -EINVAL, data;
      }
      if interrupted {
        return -ERESTARTSYS, data;
      }
      if !active {
        return -EIO, data;
      }
      if !copied {
        return -EFAULT, data;
      }
      rv, data := TakeSlot(count);
    }

    /** The successful end of a read: the buffer goes to the user, its slot back to the engine,
        and the next read is for the other slot. */
    method TakeSlot(count: nat) returns (rv: int, data: Bytes)
      requires Valid() && active && Tracks() && session.start == Started && session.reader == Waiting
      requires epAddr < 0x1_0000_0000_0000_0000 && readIdx < 2 && filled[readIdx] && count <= size
      modifies `filled, `readIdx, `session, engine, engine.desc, engine.results
      ensures Valid() && Tracks() && session.start == Started && session.reader == Waiting && rv == count
      ensures Delivers(old(session), session, count, data) && readIdx == 1 - old(readIdx)
    {
      hide Settled, SlotSubmitted, RunParts, Separate, InBounds, CeilDiv, Carve, Views, Possible, DbufRuns.Next;
      hide Laid, InPlace, Buffers, Tickets, Apart, SlotWritten;
      ghost var p := CeilDiv(size, blenMax);
      CopyFacts(session, p);
      var idx := readIdx;
      data := mem[idx][..count];
      session := DbufRuns.Next(session, Copy);
      rv := SubmitSlot(idx, Reader);
      ToggleFacts(session, p);
      session := DbufRuns.Next(session, Toggle);
      readIdx := if readIdx == 0 then 1 else 0;
      rv := count;
    }

    /** The hardware's result write-backs for the running transfer are in the result ring. */
    ghost predicate ResultsInMemory()
      requires Valid()
      reads this, engine, engine.transferList, engine.results
    {
      engine.cfg.eopFlush && engine.transferList != [] && session.sys.hw.Active? ==>
        session.sys.hw.results <= engine.ResultsOf(engine.transferList[0])
    }

    /** The ring entry that the hardware executes. */
    ghost predicate ExecutesEntry(k: nat)
      reads this, engine, engine.transferList
    {
      && session.sys.hw.Active? && session.sys.hw.busy && |session.sys.hw.results| < session.sys.hw.num
      && engine.transferList != [] && k == engine.transferList[0].descIndex + |session.sys.hw.results|
    }

    /** The hardware stores a byte at a bus address that the descriptor it executes names. It lands in the
        buffer of the transfer's slot, which is the slot that the session's event writes. */
    method Store(k: nat, at: nat, value: bv8)
      requires Valid() && active && Tracks() && ExecutesEntry(k) && Names(engine.desc[..], k, at)
      modifies `mem, `session
      ensures Valid() && Tracks()
      ensures Stores(old(session), session, bus, size, at, value)
      ensures OneByte(bus, size, old(mem), mem, at, value)
    {
      hide Settled, Separate, InBounds, Views, CeilDiv, Laid, Tickets, Buffers, Names, Stores, OneByte;
      session := StoreFacts(session, engine.desc[..], bus, size, blenMax, k, at, value);
      var slot := if bus[0] <= at < bus[0] + size then 0 else 1;
      WroteOne(bus, size, mem, slot, at, value);
      mem := mem[slot := mem[slot][at - bus[slot] := value]];
    }

    /** What the hardware does besides: complete a descriptor, stop. */
    method Hardware(e: Event)
      requires Valid() && active && Tracks() && Possible(session, e) && (e.Complete? || e.Stop?)
      modifies `session
      ensures Valid() && Tracks() && session == DbufRuns.Next(old(session), e)
    {
      hide Settled, Separate, InBounds, Views, CeilDiv, DbufRuns.Next, Possible, Target, Laid, Buffers;
      HardwareFacts(session, e, 0, CeilDiv(size, blenMax));
      session := DbufRuns.Next(session, e);
    }

    /** The interrupt handler's service pass and the callbacks it makes. */
    method Service(busy: bool, error: bool, count: nat)
      requires Valid() && active && Tracks() && ResultsInMemory()
      requires busy == ReadingOf(session.sys.hw, error).busy && count == ReadingOf(session.sys.hw, error).count
      requires Possible(session, Serve(error))
      modifies `active, `filled, `session, engine, engine.transferList
      ensures Valid() && active && Tracks()
      ensures session == DbufRuns.Next(old(session), Serve(error))
    {
      hide Settled, EngineModel.Service, Possible, DbufRuns.Next, Separate, InBounds;
      hide Views, CeilDiv, MarkFilled, Callbacks, ReadingOf, Laid, Buffers, Tickets, InPlace, Apart, GivenBack;
      ghost var s, list, p := session, engine.transferList, CeilDiv(size, blenMax);
      ghost var o, s' := ServeAll(s, error, p, engine.desc[..], Buffers(bus, size, blenMax));
      var from := |engine.ioDone|;
      EnginePass(busy, error, count);
      InPlaceTail(list, s.ring.queue, |o.retired|);
      MarkAll(engine.ioDone[from..]);
      session := s';
    }

    /** The engine's part of the pass. */
    method EnginePass(busy: bool, error: bool, count: nat)
      requires Valid() && Tracks() && ResultsInMemory()
      requires busy == ReadingOf(session.sys.hw, error).busy && count == ReadingOf(session.sys.hw, error).count
      modifies engine`transferList, engine`descDequeued, engine`ioDone, engine`running, engine`shutRequest,
               engine`shutIdle, engine`firstDescLo, engine`firstDescHi, engine`firstDescAdjacent,
               engine.transferList`state, engine.transferList`descCmpl, engine.transferList`eopReceived
      ensures engine.ValidQueue() && engine.descIdx == old(engine.descIdx)
      ensures var o := EngineModel.Service(session.sys.eng, ReadingOf(session.sys.hw, error));
              var list := old(engine.transferList);
              && engine.View() == o.eng && engine.ioDone == old(engine.ioDone) + Callbacks(o.retired)
              && |o.retired| <= |list| && engine.transferList == list[|o.retired|..]
    {
      hide Settled, EngineModel.Service, Separate, InBounds, Views, CeilDiv, Callbacks, Laid, Buffers, Tickets;
      hide RetireList, ReadingOf, U32, SessionInv, XdmaEngine.ResultsOf;
      SettledInv(session, CeilDiv(size, blenMax));
      PassHead(session, error);
      ghost var seen := engine.EngineService(busy, error, count);
      SeenReading(session, error, seen);
    }

    /** The callbacks of a pass, each with error code 0. */
    method MarkAll(cbs: seq<nat>)
      requires active && |filled| == 2 && forall i :: 0 <= i < |cbs| ==> cbs[i] < 2
      modifies `active, `filled
      ensures active && filled == MarkFilled(old(filled), cbs)
    {
      for i := 0 to |cbs|
        invariant active && filled == MarkFilled(old(filled), cbs[..i])
      {
        assert cbs[..i + 1] == cbs[..i] + [cbs[i]];
        IoDone(cbs[i], 0);
      }
      assert cbs[..|cbs|] == cbs;
    }
  }

  /** A read returns the first bytes of the oldest captured buffer that was not yet delivered. */
  ghost predicate Delivers(s: Session, s': Session, count: nat, data: Bytes) {
    && |s.delivered| < |s.captured|
    && count <= |s.captured[|s.delivered|]| && data == s.captured[|s.delivered|][..count]
    && s'.delivered == s.delivered + [s.captured[|s.delivered|]]
    && s'.captured == s.captured
  }

  /** The session is what START's events make of an opened one: both slots, in order. */
  ghost predicate StartRun(s: Session, p: nat) { exists begun, half :: StartSteps(begun, half, s, p) }

  ghost predicate StartSteps(begun: Session, half: Session, s: Session, p: nat) {
    && Opened(begun) && Possible(begun, Clear(Starter)) && half == SlotSubmitted(begun, Starter, p)
    && Possible(half, Clear(Starter)) && s == SlotSubmitted(half, Starter, p)
  }

  /** The session that START opens on an idle engine, with whatever flags are left over. */
  function NewSession(sys: System, filled: seq<bool>, buffers: seq<Bytes>, descIdx: nat, descMax: nat): Session {
    Session(sys, filled, buffers, 0, Fresh(0), Waiting, [], [], RingState([], descIdx), seq<nat>(descMax, _ => 0))
  }

  lemma NewSettled(sys: System, filled: seq<bool>, buffers: seq<Bytes>, descIdx: nat, descMax: nat, p: nat)
    requires Initial(sys) && |filled| == |buffers| == 2 && descIdx < descMax < 0x8000_0000 && 2 * p <= descMax
    ensures var s := NewSession(sys, filled, buffers, descIdx, descMax);
            Opened(s) && Settled(s, p)
  {
    OpenedInv(NewSession(sys, filled, buffers, descIdx, descMax));
    OpenedMatches(NewSession(sys, filled, buffers, descIdx, descMax), p);
    hide SessionInv, RingMatches;
  }

  lemma SettledInv(s: Session, p: nat)
    requires Settled(s, p)
    ensures SessionInv(s)
  {
  }

  /** The buffer that the reader copies is the oldest one not yet delivered. */
  lemma CopyFacts(s: Session, p: nat)
    requires Settled(s, p) && s.start == Started && s.reader == Waiting && s.readIdx < 2 && |s.filled| == 2
             && s.filled[s.readIdx]
    ensures |s.delivered| < |s.captured| && |s.mem| == 2 && s.mem[s.readIdx] == s.captured[|s.delivered|]
    ensures Possible(s, Copy)
    ensures var s' := DbufRuns.Next(s, Copy);
            Settled(s', p) && s' == s.(delivered := s.delivered + [s.captured[|s.delivered|]], reader := Copied)
  {
    hide RingInv, SlotsBounded, OwnersOk, OpenSum;
    CopyKeeps(s);
  }

  lemma ToggleFacts(s: Session, p: nat)
    requires Settled(s, p) && s.reader == Toggling
    ensures Possible(s, Toggle)
    ensures var s' := DbufRuns.Next(s, Toggle);
            Settled(s', p) && s' == s.(readIdx := if s.readIdx == 0 then 1 else 0, reader := Waiting)
  {
    hide RingInv, SlotsBounded, OwnersOk, OpenSum;
    ToggleKeeps(s);
    hide SessionInv;
  }

  lemma NothingLaid(sys: System, ring: seq<Desc>, bufs: seq<seq<Extent>>)
    requires Initial(sys)
    ensures Laid(ring, [], Tickets(sys.eng.queue), bufs) && sys.eng.queue == []
  {
  }

  /** The slot's descriptors, once written, store to its buffer. */
  lemma SlotLaid(c: Config, ring: seq<Desc>, s: Session, cuts: seq<Cut>, bus: seq<nat>, size: nat,
                 blenMax: nat, idx: nat, ep: nat, ring': seq<Desc>)
    requires ValidConfig(c) && c.dir.FromDevice? && |ring| == c.descMax && ep < 0x1_0000_0000_0000_0000
    requires 0 < blenMax && idx < |bus| && forall i :: 0 <= i < |bus| ==> bus[i] < 0x1_0000_0000_0000_0000
    requires s.ring.next < c.descMax && cuts == Carve(CeilDiv(size, blenMax), s.ring.next, c.descMax)
    requires !s.sys.eng.shutRequest && EndsWhole(Tickets(s.sys.eng.queue)) && PairwiseDisjoint(s.ring.queue + cuts)
    requires Laid(ring, s.ring.queue, Tickets(s.sys.eng.queue), Buffers(bus, size, blenMax))
    requires SlotWritten(c, ring, ring', s.ring.next, Extent(bus[idx], size), blenMax, ep)
    ensures var xs := RequestXfers(Serials(|s.sys.submitted|, |cuts|), cuts, idx);
            Laid(ring', s.ring.queue + cuts, Tickets(EnqueueAll(s.sys.eng, xs).queue), Buffers(bus, size, blenMax))
  {
    hide Laid, RingAfter, Carve, CeilDiv, EnqueueAll, Split, Sum, Counts, RequestXfers, Tickets, PairwiseDisjoint;
    var bufs, xs := Buffers(bus, size, blenMax), RequestXfers(Serials(|s.sys.submitted|, |cuts|), cuts, idx);
    OnePiece(bus[idx], size, blenMax);
    CarveFits(CeilDiv(size, blenMax), s.ring.next, c.descMax);
    XferTickets(Serials(|s.sys.submitted|, |cuts|), cuts, idx);
    EnqueuedTickets(s.sys.eng, xs);
    LaidMore(c, ring, s.ring.queue, Tickets(s.sys.eng.queue), bufs, cuts, Tickets(xs), idx, ep);
  }

  /** The ring after one request over this scatter-list entry was built from ring index d on. */
  ghost predicate SlotWritten(c: Config, was: seq<Desc>, now: seq<Desc>, d: nat, entry: Extent, blenMax: nat, ep: nat)
    requires d < c.descMax && 0 < blenMax
  {
    var pieces, cuts := Pieces([entry], blenMax), Carve(CeilDiv(entry.len, blenMax), d, c.descMax);
    Sum(Counts(cuts)) == |pieces| && now == RingAfter(c, was, cuts, pieces, ep)
  }

  lemma InPlaceMore(list: seq<Transfer>, now: seq<Transfer>, cuts: seq<Cut>, more: seq<Cut>)
    requires list <= now && InPlace(list, cuts) && InPlace(now[|list|..], more)
    ensures InPlace(now, cuts + more)
  {
    forall i | 0 <= i < |now|
      ensures now[i].descIndex == (cuts + more)[i].first
    {
      if i < |list| {
        assert now[i] == list[i];
      } else {
        assert now[i] == now[|list|..][i - |list|];
      }
    }
  }

  lemma InPlaceTail(list: seq<Transfer>, cuts: seq<Cut>, n: nat)
    requires InPlace(list, cuts) && n <= |cuts|
    ensures InPlace(list[n..], cuts[n..])
  {
  }

  lemma OnePiece(addr: nat, size: nat, blenMax: nat)
    requires 0 < blenMax && addr < 0x1_0000_0000_0000_0000
    ensures Pieces([Extent(addr, size)], blenMax) == Split(addr, size, blenMax) && BusList(Split(addr, size, blenMax))
    ensures |Split(addr, size, blenMax)| == CeilDiv(size, blenMax)
  {
    assert [Extent(addr, size)][1..] == [];
    SplitFaithful(addr, size, blenMax);
  }

  lemma XferTickets(serials: seq<nat>, cuts: seq<Cut>, cb: nat)
    requires |serials| == |cuts|
    ensures RequestTickets(Tickets(RequestXfers(serials, cuts, cb)), cuts, cb)
  {
  }

  lemma {:induction false} EnqueuedTickets(e: Engine, xs: seq<Xfer>)
    requires !e.shutRequest
    ensures Tickets(EnqueueAll(e, xs).queue) == Tickets(e.queue) + Tickets(xs)
    decreases |xs|
  {
    if xs != [] {
      EnqueuedTickets(Enqueue(e, xs[0]), xs[1..]);
    }
  }

  /** The descriptor at ring entry k names this bus address as a destination. */
  ghost predicate Names(ring: seq<Desc>, k: nat, at: nat) {
    k < |ring| && at in Range(Join(ring[k].dstLo, ring[k].dstHi), ring[k].bytes)
  }

  /** Of the two buffers, exactly the byte at this bus address has this value now. */
  ghost predicate OneByte(bus: seq<nat>, size: nat, was: seq<Bytes>, now: seq<Bytes>, at: nat, value: bv8) {
    && |bus| == |was| == |now| == 2 && |was[0]| == |was[1]| == |now[0]| == |now[1]| == size
    && forall t, o :: 0 <= t < 2 && 0 <= o < size ==> now[t][o] == if bus[t] + o == at then value else was[t][o]
  }

  lemma WroteOne(bus: seq<nat>, size: nat, mem: seq<Bytes>, slot: nat, at: nat, value: bv8)
    requires Apart(bus, size) && |mem| == 2 && |mem[0]| == |mem[1]| == size
    requires slot < 2 && bus[slot] <= at < bus[slot] + size
    ensures OneByte(bus, size, mem, mem[slot := mem[slot][at - bus[slot] := value]], at, value)
  {
  }

  /** The session's write event for a byte at this bus address: it is one of the target slot's buffer. */
  ghost predicate Stores(s: Session, s': Session, bus: seq<nat>, size: nat, at: nat, value: bv8) {
    && Target(s).Some? && Target(s).value < |bus|
    && bus[Target(s).value] <= at < bus[Target(s).value] + size
    && Possible(s, DmaWrite(at - bus[Target(s).value], value))
    && s' == DbufRuns.Next(s, DmaWrite(at - bus[Target(s).value], value))
  }

  /** A byte that the running transfer stores is one of the slot whose turn it is. */
  lemma StoreFacts(s: Session, ring: seq<Desc>, bus: seq<nat>, size: nat, blenMax: nat, k: nat, at: nat, value: bv8)
    returns (s': Session)
    requires 0 < blenMax && Settled(s, CeilDiv(size, blenMax)) && Apart(bus, size)
    requires Laid(ring, s.ring.queue, Tickets(s.sys.eng.queue), Buffers(bus, size, blenMax)) && |ring| == |s.owner|
    requires |s.mem| == 2 && |s.mem[0]| == |s.mem[1]| == size
    requires s.sys.hw.Active? && s.sys.hw.busy && |s.sys.hw.results| < s.sys.hw.num
    requires s.ring.queue != [] && k == Executing(s) && Names(ring, k, at)
    ensures Stores(s, s', bus, size, at, value)
    ensures Settled(s', CeilDiv(size, blenMax)) && s'.sys.eng == s.sys.eng && s'.ring == s.ring
    ensures |s'.owner| == |s.owner| && s'.filled == s.filled && s'.readIdx == s.readIdx
    ensures var t := if bus[0] <= at < bus[0] + size then 0 else 1;
            bus[t] <= at < bus[t] + size && s'.mem == s.mem[t := s.mem[t][at - bus[t] := value]]
  {
    hide Laid, Range, Buffers, CeilDiv, DbufRuns.Next, Settled;
    SettledTarget(s, CeilDiv(size, blenMax));
    StoreInside(ring, s.ring.queue, Tickets(s.sys.eng.queue), bus, size, blenMax, |s.sys.hw.results|, at);
    var t := Target(s).value;
    var e := DmaWrite(at - bus[t], value);
    HardwareFacts(s, e, t, CeilDiv(size, blenMax));
    s' := DbufRuns.Next(s, e);
  }

  lemma SettledTarget(s: Session, p: nat)
    requires Settled(s, p) && s.sys.hw.Active? && |s.sys.hw.results| < s.sys.hw.num
    ensures s.sys.eng.queue != [] && s.sys.hw.num == s.sys.eng.queue[0].ticket.num
    ensures Target(s) == s.sys.eng.queue[0].ticket.cb
  {
    hide RingInv, SlotsBounded, OpenSum, PhaseOk, DataOk, QueueOk, WholeRequests;
    ActiveHasWork(s.sys);
    HeadTicket(s.sys);
    assert Counts(s.ring.queue)[0] == Nums(s.sys.eng.queue)[0];
    assert Owned(s.owner, s.ring.queue[0], s.sys.eng.queue[0].ticket.id);
  }

  lemma HardwareFacts(s: Session, e: Event, slot: nat, p: nat)
    requires Settled(s, p) && Possible(s, e)
    requires e.Complete? || e.Stop? || (e.DmaWrite? && Target(s) == Some(slot))
    ensures var s' := DbufRuns.Next(s, e);
            && Settled(s', p) && s'.sys.eng == s.sys.eng && s'.ring == s.ring && |s'.owner| == |s.owner|
            && s'.filled == s.filled && s'.readIdx == s.readIdx
            && (if e.DmaWrite? then
                  slot < |s.mem| && e.offset < |s.mem[slot]|
                    && s'.mem == s.mem[slot := s.mem[slot][e.offset := e.value]]
                else s'.mem == s.mem)
  {
    hide RingMatches, SessionInv, OpenSum;
    HardwareShape(s, e, slot);
    if e.DmaWrite? {
      WritesWhileRunning(s, e);
      TargetIsHeads(s, p);
    }
    EventMatches(s, e, p);
    EventKeeps(s, e);
  }

  lemma HardwareShape(s: Session, e: Event, slot: nat)
    requires Possible(s, e) && (e.Complete? || e.Stop? || (e.DmaWrite? && Target(s) == Some(slot)))
    ensures var s' := DbufRuns.Next(s, e);
            && s'.sys.eng == s.sys.eng && s'.sys.submitted == s.sys.submitted && s'.ring == s.ring
               && s'.owner == s.owner
            && s'.filled == s.filled && s'.readIdx == s.readIdx
            && (if e.DmaWrite? then
                  slot < |s.mem| && e.offset < |s.mem[slot]|
                    && s'.mem == s.mem[slot := s.mem[slot][e.offset := e.value]]
                else s'.mem == s.mem)
  {
  }

  lemma ServeShape(s: Session, error: bool)
    requires Possible(s, Serve(error))
    ensures var o, s' := EngineModel.Service(s.sys.eng, ReadingOf(s.sys.hw, error)), DbufRuns.Next(s, Serve(error));
            && s'.sys.eng == o.eng && s'.sys.callbacks == s.sys.callbacks + Callbacks(o.retired)
            && s'.filled == MarkFilled(s.filled, Callbacks(o.retired)) && s'.sys.submitted == s.sys.submitted
            && s'.mem == s.mem && s'.readIdx == s.readIdx && s'.owner == s.owner
            && s'.ring == GivenBack(s.ring, |o.retired|)
  {
    hide EngineModel.Service, Callbacks, MarkFilled, Snapshots, ReadingOf, HardwareAfter;
    var o, sys' := EngineModel.Service(s.sys.eng, ReadingOf(s.sys.hw, error)), Apply(s.sys, Pass(error));
    assert sys'.retired[|s.sys.retired|..] == o.retired;
  }

  /** What a service pass does to the session. */
  lemma ServeFacts(s: Session, error: bool, p: nat)
    requires Settled(s, p) && Possible(s, Serve(error))
    ensures var o, s' := EngineModel.Service(s.sys.eng, ReadingOf(s.sys.hw, error)), DbufRuns.Next(s, Serve(error));
            && Settled(s', p) && s'.sys.eng == o.eng
            && s'.filled == MarkFilled(s.filled, Callbacks(o.retired))
            && s'.mem == s.mem && s'.readIdx == s.readIdx && s'.owner == s.owner
            && s'.ring == GivenBack(s.ring, |o.retired|) && s'.ring.next == s.ring.next
            && forall i :: 0 <= i < |Callbacks(o.retired)| ==> Callbacks(o.retired)[i] < 2
  {
    hide EngineModel.Service, DbufRuns.Next, Callbacks, MarkFilled, SessionInv;
    hide RingMatches, ReadingOf, Possible, OpenSum;
    ServiceKeeps(s, error);
    ServeMatches(s, error, p);
    ServeShape(s, error);
    AlternatingTail(DbufRuns.Next(s, Serve(error)), s.sys.callbacks,
                    Callbacks(EngineModel.Service(s.sys.eng, ReadingOf(s.sys.hw, error)).retired));
  }

  /** The cuts of retired transfers go back with them. */
  lemma ServedLaid(s: Session, error: bool, p: nat, ring: seq<Desc>, bufs: seq<seq<Extent>>)
    requires Settled(s, p) && Possible(s, Serve(error))
    requires Laid(ring, s.ring.queue, Tickets(s.sys.eng.queue), bufs)
    ensures var o, s' := EngineModel.Service(s.sys.eng, ReadingOf(s.sys.hw, error)), DbufRuns.Next(s, Serve(error));
            && |o.retired| <= |s.ring.queue| && s'.ring.queue == s.ring.queue[|o.retired|..]
            && Laid(ring, s'.ring.queue, Tickets(o.eng.queue), bufs)
  {
    hide EngineModel.Service, Laid, DbufRuns.Next, Possible, Callbacks, RingMatches, ReadingOf;
    ServeShape(s, error);
    SettledInv(s, p);
    ServedTickets(s.sys, error);
    var o, ts := EngineModel.Service(s.sys.eng, ReadingOf(s.sys.hw, error)), Tickets(s.sys.eng.queue);
    LaidCount(ring, s.ring.queue, ts, bufs);
    LaidTail(ring, s.ring.queue, ts, bufs, |o.retired|);
  }

  /** All that a pass changes. */
  lemma ServeAll(s: Session, error: bool, p: nat, ring: seq<Desc>, bufs: seq<seq<Extent>>)
    returns (o: Serviced, s': Session)
    requires Settled(s, p) && Possible(s, Serve(error))
    requires Laid(ring, s.ring.queue, Tickets(s.sys.eng.queue), bufs)
    ensures o == EngineModel.Service(s.sys.eng, ReadingOf(s.sys.hw, error)) && s' == DbufRuns.Next(s, Serve(error))
    ensures Settled(s', p) && s'.sys.eng == o.eng && s'.filled == MarkFilled(s.filled, Callbacks(o.retired))
    ensures s'.mem == s.mem && s'.readIdx == s.readIdx && s'.owner == s.owner && s'.ring.next == s.ring.next
    ensures |o.retired| <= |s.ring.queue| && s'.ring.queue == s.ring.queue[|o.retired|..]
    ensures Laid(ring, s'.ring.queue, Tickets(o.eng.queue), bufs)
    ensures forall i :: 0 <= i < |Callbacks(o.retired)| ==> Callbacks(o.retired)[i] < 2
  {
    hide *;
    o, s' := EngineModel.Service(s.sys.eng, ReadingOf(s.sys.hw, error)), DbufRuns.Next(s, Serve(error));
    ServeFacts(s, error, p);
    ServedLaid(s, error, p, ring, bufs);
  }

  lemma LaidCount(ring: seq<Desc>, cuts: seq<Cut>, ts: seq<Ticket>, bufs: seq<seq<Extent>>)
    requires Laid(ring, cuts, ts, bufs)
    ensures |cuts| == |ts|
  {
  }

  lemma ServedTickets(s: System, error: bool)
    requires Inv(s)
    ensures var o := EngineModel.Service(s.eng, ReadingOf(s.hw, error));
            |o.retired| <= |s.eng.queue| && Tickets(o.eng.queue) == Tickets(s.eng.queue)[|o.retired|..]
  {
    hide EngineModel.Service, Callbacks, Control, History, ReadingOf;
    PassEffect(s, error);
    var o, s' := EngineModel.Service(s.eng, ReadingOf(s.hw, error)), Apply(s, Pass(error));
    assert s'.retired == s.retired + o.retired && s'.eng == o.eng;
  }

  lemma AlternatingTail(s: Session, before: seq<nat>, news: seq<nat>)
    requires SessionInv(s) && s.sys.callbacks == before + news
    ensures forall i :: 0 <= i < |news| ==> news[i] < 2
  {
    hide Inv, QueueOk;
    forall i | 0 <= i < |news|
      ensures news[i] < 2
    {
      assert s.sys.callbacks[|before| + i] == (|before| + i) % 2;
    }
  }

  /** A pass on the head of the queue reads its results only to find a packet end. */
  lemma SameReading(e: Engine, busy: bool, error: bool, count: nat, xs: seq<Result>, ys: seq<Result>)
    requires e.running && e.queue != [] && e.dequeued == 0 && count <= e.queue[0].ticket.num < 0x8000_0000
    requires e.eopFlush ==> (HasEop(xs, count) <==> HasEop(ys, count))
    ensures EngineModel.Service(e, Reading(busy, error, count, xs))
            == EngineModel.Service(e, Reading(busy, error, count, ys))
  {
    hide HasEop, Resume;
  }

  /** The list loop of a session's pass retires nothing: the run belongs to the head. */
  lemma PassHead(s: Session, error: bool)
    requires SessionInv(s)
    ensures s.sys.eng.running && s.sys.hw.Active? && s.sys.hw.results != [] ==>
              var r := ReadingOf(s.sys.hw, error);
              && r.count > 0 && s.sys.eng.queue != []
              && |RetireList(s.sys.eng.queue, U32(r.count - s.sys.eng.dequeued)).0| == 0
  {
    if s.sys.eng.running && s.sys.hw.Active? {
      assert EngineRuns.Waiting(s.sys.eng.queue[0]);
    }
  }

  lemma SeenReading(s: Session, error: bool, seen: seq<Result>)
    requires SessionInv(s)
    requires s.sys.eng.running && s.sys.hw.Active? && s.sys.eng.eopFlush && s.sys.hw.results != [] ==>
               s.sys.hw.results <= seen
    ensures var r := ReadingOf(s.sys.hw, error);
            EngineModel.Service(s.sys.eng, Reading(r.busy, error, r.count, seen)) == EngineModel.Service(s.sys.eng, r)
  {
    var e, r := s.sys.eng, ReadingOf(s.sys.hw, error);
    if e.running && r.count > 0 {
      assert EngineRuns.Waiting(e.queue[0]);
      hide EngineModel.Service;
      SameReading(e, r.busy, error, r.count, seen, r.results);
    }
  }

  lemma SomeDescs(size: nat, blenMax: nat)
    requires 0 < blenMax && 0 < size
    ensures CeilDiv(size, blenMax) > 0
  {
    QuotientAtLeast(size + blenMax - 1, blenMax, 1);
  }

  lemma SerialPair(serial: nat, n: nat)
    requires n <= 2
    ensures [serial, serial + 1][..n] == Serials(serial, n)
  {
  }

  /** The queued submission of one slot: a request over its single entry, with callback `cb`. */
  method QueueRequest(engine: XdmaEngine, sgl: seq<Extent>, epAddr: nat, blenMax: nat, cb: nat, ghost serial: nat)
    returns (rv: int)
    requires engine.ValidQueue() && !engine.shutRequest && epAddr < 0x1_0000_0000_0000_0000
    requires |sgl| == 1 && BusList(sgl) && 0 < sgl[0].len < 0x1_0000_0000 && 0 < blenMax < 0x1_0000_0000
    requires NoRoundingWrap(sgl, blenMax) && CeilDiv(sgl[0].len, blenMax) <= engine.cfg.descMax
    modifies engine, engine.desc, engine.results
    ensures rv == -EIOCBQUEUED && engine.ValidQueue() && engine.ioDone == old(engine.ioDone)
    ensures var n := CeilDiv(sgl[0].len, blenMax);
            var cuts := Carve(n, old(engine.descIdx), engine.cfg.descMax);
            && engine.View() == EnqueueAll(old(engine.View()), RequestXfers(Serials(serial, |cuts|), cuts, cb))
            && engine.descIdx == After(old(engine.descIdx), n, engine.cfg.descMax)
            && SlotWritten(engine.cfg, old(engine.desc[..]), engine.desc[..], old(engine.descIdx), sgl[0], blenMax,
                           epAddr)
            && old(engine.transferList) <= engine.transferList
            && InPlace(engine.transferList[|old(engine.transferList)|..], cuts)
  {
    hide RingAfter, Sum, Counts;
    hide EnqueueAll, Carve, RequestXfers, Separate, InBounds, Views, Reserved;
    hide SlotCount, U32, After, FlagsFinal, LogBuilt, Cuts;
    SlotsEnough(sgl, blenMax);
    var req := InitRequest(sgl, epAddr, blenMax);
    PiecesFaithful(sgl, blenMax);
    assert sgl == [sgl[0]];
    assert req.value.swDescCnt == CeilDiv(sgl[0].len, blenMax) by {
      assert sgl[1..] == [];
    }
    ghost var n := |Carve(CeilDiv(sgl[0].len, blenMax), engine.descIdx, engine.cfg.descMax)|;
    TwoTransfersSuffice(req.value.swDescCnt, engine.descIdx, engine.cfg.descMax);
    SerialPair(serial, n);
    hide CeilDiv, Pieces, PieceCount, Serials, Total;
    var first := new Transfer(serial);
    var second := new Transfer(serial + 1);
    ghost var log;
    rv, log := SubmitNowait(engine, req.value, [first, second], cb);
  }
}
