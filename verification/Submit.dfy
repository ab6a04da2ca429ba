/** The blocking submission loop over the engine (xdma_xfer_submit), proved against the loop as a
    value. */
module Submit {
  import opened Words
  import opened LinearCopy
  import opened Request
  import opened Descriptors
  import opened AdjacentWalk
  import opened Chains
  import opened Ring
  import opened EngineModel
  import opened BlockingLoop
  import opened LibXdma
  import opened RingWrites

  // ---------------------------------------------------------------- the log of a loop

  /** One submitted transfer: its ring range, its last_in_request flag and its descriptors. */
  datatype Turn = Turn(cut: Cut, last: bool, descs: seq<Desc>)

  function Cuts(log: seq<Turn>): (r: seq<Cut>)
    ensures |r| == |log|
  {
    seq(|log|, i requires 0 <= i < |log| => log[i].cut)
  }

  /** The descriptors of all submitted transfers, in order. */
  function AllBuilt(log: seq<Turn>): seq<Desc> {
    if log == [] then [] else AllBuilt(log[..|log| - 1]) + log[|log| - 1].descs
  }

  /** The log of submitted transfers is the start of the carving of n descriptors from d, and
      exactly the final transfer of the carving is flagged. */
  ghost predicate FlagsFinal(log: seq<Turn>, n: nat, d: nat, r: nat)
    requires d < r
  {
    && Cuts(log) <= Carve(n, d, r)
    && forall i :: 0 <= i < |log| ==> (log[i].last <==> i + 1 == |Carve(n, d, r)|)
  }

  /** The log so far, and what is left to carve. */
  ghost predicate LogOk(log: seq<Turn>, n: nat, d: nat, left: nat, d': nat, r: nat)
    requires d < r && d' < r
  {
    && Carve(n, d, r) == Cuts(log) + Carve(left, d', r)
    && forall i :: 0 <= i < |log| ==> (log[i].last <==> i + 1 == |log| && left == 0)
  }

  /** The submitted descriptors are those of a request with these pieces, which continues at ep'. */
  ghost predicate LogBuilt(c: Config, log: seq<Turn>, pieces: seq<Extent>, ep: nat, ep': nat) {
    && Sum(Counts(Cuts(log))) == |pieces|
    && AllBuilt(log) == RequestDescs(c, Cuts(log), pieces, ep)
    && ep' == EpAfter(c, pieces, ep)
  }

  lemma LogStart(c: Config, n: nat, d: nat, ep: nat)
    requires d < c.descMax && ep < 0x1_0000_0000_0000_0000
    ensures LogOk([], n, d, n, d, c.descMax) && LogBuilt(c, [], [], ep, ep)
  {
    assert Cuts([]) == [];
    NoDescs(c, [], ep);
  }

  lemma LogStep(c: Config, log: seq<Turn>, n: nat, d: nat, left: nat, d': nat, descs: seq<Desc>)
    requires d < c.descMax && d' < c.descMax && left > 0 && LogOk(log, n, d, left, d', c.descMax)
    ensures var k := Min(left, c.descMax - d');
            LogOk(log + [Turn(Cut(d', k), left == k, descs)], n, d, left - k, NextIndex(c, d', k), c.descMax)
  {
    hide Carve, NextIndex;
    var k := Min(left, c.descMax - d');
    var log' := log + [Turn(Cut(d', k), left == k, descs)];
    CarveStep(c, left, d');
    assert Cuts(log') == Cuts(log) + [Cut(d', k)];
  }

  lemma LogBuiltStep(c: Config, log: seq<Turn>, pieces: seq<Extent>, more: seq<Extent>, ep: nat, ep': nat, first: nat,
                     last: bool)
    requires LogBuilt(c, log, pieces, ep, ep') && ep < 0x1_0000_0000_0000_0000
    ensures LogBuilt(c, log + [Turn(Cut(first, |more|), last, TransferDescs(c, first, more, ep'))], pieces + more, ep,
                     EpAfter(c, more, ep'))
  {
    hide TransferDescs, EpAfter, RequestDescs, Sum, Counts;
    var t := Turn(Cut(first, |more|), last, TransferDescs(c, first, more, ep'));
    assert Cuts(log + [t]) == Cuts(log) + [t.cut];
    assert (log + [t])[..|log|] == log;
    RequestDescsSnoc(c, Cuts(log), pieces, first, more, ep);
    EpAfterConcat(c, pieces, more, ep);
  }

  lemma LogFlags(log: seq<Turn>, n: nat, d: nat, left: nat, d': nat, r: nat)
    requires d < r && d' < r && LogOk(log, n, d, left, d', r)
    ensures FlagsFinal(log, n, d, r)
  {
    CarveFacts(left, d', r);
  }

  lemma {:induction false} CarveFits(n: nat, d: nat, r: nat)
    requires d < r
    ensures forall i :: 0 <= i < |Carve(n, d, r)| ==> Carve(n, d, r)[i].first + Carve(n, d, r)[i].count <= r
    decreases n
  {
    if n > 0 {
      CarveFits(n - Min(n, r - d), (d + Min(n, r - d)) % r, r);
    }
  }

  /** Executing what a loop submitted is one linear copy of the pieces it took. */
  lemma SubmittedIsOneCopy(c: Config, log: seq<Turn>, pieces: seq<Extent>, n: nat, d: nat, ep: nat, ep': nat,
                           m: Machine)
    requires ValidConfig(c) && MemoryMapped(c) && d < c.descMax
    requires FlagsFinal(log, n, d, c.descMax) && LogBuilt(c, log, pieces, ep, ep')
    ensures |Flatten(pieces)| == Total(pieces)
    ensures ExecAll(c, AllBuilt(log), m) == Linear(c.dir, Flatten(pieces), Range(ep, Total(pieces)), m)
  {
    hide Flatten, Total, Linear, ExecAll, RequestDescs, Carve, Range, AllBuilt, EpAfter;
    CarveFits(n, d, c.descMax);
    PiecesAreOneCopy(c, Cuts(log), pieces, ep, m);
  }

  // ---------------------------------------------------------------- building one transfer

  lemma SplicedOutside(was: seq<Desc>, now: seq<Desc>, first: nat, ds: seq<Desc>)
    requires SameOutside(was, now, first, |ds|) && first + |ds| <= |was| && now[first..first + |ds|] == ds
    ensures now == Spliced(was, first, ds)
  {
    SplicedIs(was, now, first, ds);
  }

  /** transfer_init, and the flag of the request's last transfer. `left` is what the request has left. */
  method BuildOne(engine: XdmaEngine, req: RequestCb, xfer: Transfer, ghost left: seq<Extent>)
    requires engine.Valid()
    requires req.swDescIdx < req.swDescCnt <= req.sdesc.Length && req.epAddr < 0x1_0000_0000_0000_0000
    requires left == req.sdesc[req.swDescIdx..req.swDescCnt]
    modifies engine`descIdx, engine`descUsed, engine.desc, engine.results, xfer, req`epAddr, req`swDescIdx
    ensures engine.Valid()
    ensures var first := old(engine.descIdx);
            var n := Min(|left|, engine.cfg.descMax - first);
            && n >= 1 && first + n <= engine.cfg.descMax
            && engine.desc[first..first + n] == TransferDescs(engine.cfg, first, left[..n], old(req.epAddr))
            && engine.desc[..] == Spliced(old(engine.desc[..]), first,
                                          TransferDescs(engine.cfg, first, left[..n], old(req.epAddr)))
            && xfer.descIndex == first && xfer.descNum == n && xfer.len == U32(Total(left[..n]))
            && (xfer.lastInRequest <==> |left| == n)
            && xfer.View() == FreshXfer(xfer.serial, n, xfer.lastInRequest).(state := New)
            && req.swDescIdx == old(req.swDescIdx) + n && req.epAddr == EpAfter(engine.cfg, left[..n], old(req.epAddr))
            && engine.descIdx == NextIndex(engine.cfg, first, n) && engine.descUsed == old(engine.descUsed) + n
    ensures req.swDescIdx <= req.swDescCnt && req.epAddr < 0x1_0000_0000_0000_0000
  {
    hide ChainAt, SameOutside, EpAfter, Total, TransferDescs, U32;
    ghost var first, ep := engine.descIdx, req.epAddr;
    ghost var n := Min(|left|, engine.cfg.descMax - first);
    EpAfterBound(engine.cfg, left[..n], ep);
    assert left[..n] == req.sdesc[req.swDescIdx..req.swDescIdx + n];
    engine.TransferInit(req, xfer);
    ChainSlice(engine.cfg, engine.desc[..], first, left[..n], ep);
    assert engine.desc[..][first..first + n] == engine.desc[first..first + n];
    SplicedOutside(old(engine.desc[..]), engine.desc[..], first, TransferDescs(engine.cfg, first, left[..n], ep));
    hide Spliced;
    xfer.lastInRequest := req.swDescIdx == req.swDescCnt;
  }

  // ---------------------------------------------------------------- one wait

  /** A service pass on a queue of one transfer. */
  lemma SingleService(e: Engine, x: Xfer, r: Reading)
    requires e.queue == [x] && e.running && e.dequeued == 0 && !x.cyclic && !e.shutRequest
    requires 1 <= r.count <= x.ticket.num && r.count < 0x1_0000_0000
    ensures RetireList(e.queue, U32(r.count - e.dequeued)).0 == []
    ensures var o := Service(e, r);
            match Judge(x, r.count, e.eopFlush, r.error, r.results)
            case Keep(y) => o.retired == [] && o.eng == (if r.busy then e.(queue := [y]) else Start(e.(queue := [y])))
            case Remove(y, _, n) => o.retired == [y] && o.eng == e.(queue := [], running := false, dequeued := n)
  {
    assert RetireList([x], r.count) == ([], [x], r.count);
    assert Sum(Nums([])) == 0;
    ServiceDrains(e, r);
    DrainCases(e.(running := r.busy), r.count, r.error, r.results);
  }

  /** A transfer that waits at the head, perhaps after passes that kept it. */
  ghost predicate StillWaits(x: Xfer) {
    x.state == EngineModel.Submitted && !x.eop && !x.cyclic && 1 <= x.ticket.num < 0x8000_0000
  }

  /** The verdict depends on the number of descriptors only. */
  lemma JudgeWaiting(x: Xfer, n: nat, k: nat, eopFlush: bool, error: bool, results: seq<Result>)
    requires StillWaits(x) && x.ticket.num == n && k >= 1
    ensures var u, v := Judge(x, k, eopFlush, error, results),
            Judge(FreshXfer(0, n, false), k, eopFlush, error, results);
            && u.Keep? == v.Keep? && (u.Keep? ==> StillWaits(u.x) && u.x == x.(cmpl := k))
            && (u.Remove? ==> u.x.state == v.x.state && (u.x.state == Completed || u.x.state == Failed)
                              && u.x.ticket == x.ticket
                                 && (u.x.state == Completed ==> u.x.cmpl == v.x.cmpl && u.x.eop == v.x.eop))
  {
    hide HasEop;
  }

  function ReadingIn(c: Config, n: nat, p: ServicePass): Reading {
    Reading(p.busy, p.error, Min(p.count, n), Padded(p.results, n))
  }

  /** A pass that ends a wait, read off its registers. */
  lemma PassValue(c: Config, e: Engine, x: Xfer, p: ServicePass)
    requires e.queue == [x] && e.running && e.dequeued == 0 && !e.shutRequest && e.eopFlush == c.eopFlush
             && StillWaits(x)
    ensures var n := x.ticket.num;
            var o, f := Service(e, ReadingIn(c, n, p)), EffectOf(c, n, p);
            && !o.eng.shutRequest
            && (f.Stays? ==> o.retired == [] && o.eng.running && o.eng.dequeued == 0 && |o.eng.queue| == 1
                             && StillWaits(o.eng.queue[0]) && o.eng.queue[0].ticket == x.ticket)
            && (f.Stuck? ==> o.retired == [] && !o.eng.running && o.eng.queue == [x])
            && (f.Leaves? ==>
                  |o.retired| == 1 && o.eng.queue == [] && !o.eng.running && LeftAs(o.retired[0], f.outcome))
  {
    hide Padded, HasEop;
    var n := x.ticket.num;
    var r := ReadingIn(c, n, p);
    if r.count >= 1 {
      SingleService(e, x, r);
      JudgeWaiting(x, n, r.count, e.eopFlush, r.error, r.results);
      hide Service;
    } else {
      ServiceIdle(e, r);
    }
  }

  ghost predicate LeftAs(x: Xfer, o: Outcome) {
    match o
    case Success(cmpl, eop) => x.state == Completed && x.cmpl == cmpl && x.eop == eop
    case Failure => x.state == Failed
    case _ => false
  }

  /** The engine writes back the results of one transfer. */
  method WriteBack(engine: XdmaEngine, first: nat, results: seq<Result>)
    requires first + |results| <= engine.results.Length
    modifies engine.results
    ensures engine.results[first..first + |results|] == results
    ensures SameOutside(old(engine.results[..]), engine.results[..], first, |results|)
  {
    for i := 0 to |results|
      invariant forall k :: first <= k < first + i ==> engine.results[k] == results[k - first]
      invariant forall k :: 0 <= k < engine.results.Length && !(first <= k < first + i) ==>
                  engine.results[k] == old(engine.results[k])
    {
      engine.results[first + i] := results[i];
    }
  }

  /** A service pass on an engine whose only transfer is `xfer`. */
  method RunPass(engine: XdmaEngine, xfer: Transfer, busy: bool, error: bool, k: nat, ghost r: Reading)
    requires engine.ValidQueue() && engine.transferList == [xfer] && engine.running && engine.descDequeued == 0
             && !xfer.cyclic
    requires k <= xfer.descNum && r == Reading(busy, error, k, engine.ResultsOf(xfer))
    requires |Service(engine.View(), r).retired| <= 1
    modifies engine`transferList, engine`descDequeued, engine`ioDone, engine`running, engine`shutRequest,
             engine`shutIdle, engine`firstDescLo, engine`firstDescHi, engine`firstDescAdjacent,
             xfer`state, xfer`descCmpl, xfer`eopReceived
    ensures engine.ValidQueue()
    ensures var o := Service(old(engine.View()), r);
            && engine.running == o.eng.running && engine.shutRequest == o.eng.shutRequest
               && engine.descDequeued == o.eng.dequeued
            && (o.retired == [] ==> engine.transferList == [xfer] && o.eng.queue == [xfer.View()])
            && (o.retired != [] ==> engine.transferList == [] && o.retired == [xfer.View()])
  {
    hide Service, Views;
    ghost var q, e := engine.transferList, engine.View();
    HeadIsJudged(e, k);
    var seen := engine.EngineService(busy, error, k);
    assert q == [xfer];
    if k == 0 {
      ServiceIdle(e, r);
      ServiceIdle(e, Reading(busy, error, k, seen));
    } else {
      assert seen == engine.ResultsOf(xfer);
    }
    if Service(e, r).retired == [] {
      assert engine.transferList == q;
    }
  }

  lemma HeadIsJudged(e: Engine, k: nat)
    requires |e.queue| == 1 && !e.queue[0].cyclic && e.dequeued == 0 && k <= e.queue[0].ticket.num < 0x1_0000_0000
    ensures RetireList(e.queue, U32(k - e.dequeued)).0 == []
  {
  }

  /** The wait so far: the transfer waits at the head of the running engine and these passes are to
      come, or the engine is stuck, or the transfer has left. */
  ghost predicate InWait(engine: XdmaEngine, xfer: Transfer, goal: Ending, rest: seq<ServicePass>)
    reads engine, engine.transferList, engine.results, xfer
  {
    && engine.ValidQueue() && !engine.shutRequest
    && xfer.descIndex + xfer.descNum <= engine.cfg.descMax && 1 <= xfer.descNum < 0x8000_0000
    && if engine.transferList == [] then
         && !engine.running && LeftAs(xfer.View(), goal.outcome)
         && engine.results[xfer.descIndex..xfer.descIndex + xfer.descNum] == goal.results
       else
         && engine.transferList == [xfer] && StillWaits(xfer.View())
         && (if engine.running then engine.descDequeued == 0 && EndingOf(engine.cfg, xfer.descNum, rest) == goal
             else goal.outcome == Expired)
  }

  lemma EndingStep(c: Config, n: nat, p: ServicePass, rest: seq<ServicePass>)
    ensures EndingOf(c, n, [p] + rest) == match EffectOf(c, n, p)
                                          case Stays => EndingOf(c, n, rest)
                                          case Stuck => Ending(Expired, [])
                                          case Leaves(o) => Ending(o, Padded(p.results, n))
  {
    hide EffectOf, Padded;
    assert ([p] + rest)[1..] == rest;
  }

  /** One service pass of a wait; on a stopped engine it returns at once. */
  method OnePass(engine: XdmaEngine, xfer: Transfer, p: ServicePass, ghost goal: Ending, ghost rest: seq<ServicePass>)
    requires engine.transferList == [xfer] && InWait(engine, xfer, goal, [p] + rest)
    modifies engine`transferList, engine`descDequeued, engine`ioDone, engine`running, engine`shutRequest,
             engine`shutIdle, engine`firstDescLo, engine`firstDescHi, engine`firstDescAdjacent,
             engine.results,
             xfer`state, xfer`descCmpl, xfer`eopReceived
    ensures InWait(engine, xfer, goal, rest)
    ensures SameOutside(old(engine.results[..]), engine.results[..], xfer.descIndex, xfer.descNum)
  {
    hide Padded, Service, Views, EffectOf, EndingOf, StillWaits, LeftAs, Separate, InBounds, SameOutside;
    ghost var n, e, x := xfer.descNum, engine.View(), xfer.View();
    WriteBack(engine, xfer.descIndex, Padded(p.results, xfer.descNum));
    if engine.running {
      OneInQueue(xfer);
      PassValue(engine.cfg, e, x, p);
      EndingStep(engine.cfg, n, p, rest);
      WaitingIsPlain(x);
      RunPass(engine, xfer, p.busy, p.error, Min(p.count, xfer.descNum), ReadingIn(engine.cfg, n, p));
    }
  }

  lemma OneInQueue(xfer: Transfer)
    ensures Views([xfer]) == [xfer.View()]
  {
  }

  lemma WaitingIsPlain(x: Xfer)
    requires StillWaits(x)
    ensures !x.cyclic && 1 <= x.ticket.num < 0x8000_0000
  {
  }

  /** The passes of a wait, until the transfer has left the queue. */
  method Settle(engine: XdmaEngine, xfer: Transfer, passes: seq<ServicePass>)
    requires engine.ValidQueue() && engine.transferList == [xfer] && engine.running && engine.descDequeued == 0
             && !engine.shutRequest
    requires xfer.descIndex + xfer.descNum <= engine.cfg.descMax && StillWaits(xfer.View())
    modifies engine`transferList, engine`descDequeued, engine`ioDone, engine`running, engine`shutRequest,
             engine`shutIdle, engine`firstDescLo, engine`firstDescHi, engine`firstDescAdjacent,
             engine.results,
             xfer`state, xfer`descCmpl, xfer`eopReceived
    ensures SameOutside(old(engine.results[..]), engine.results[..], xfer.descIndex, xfer.descNum)
    ensures InWait(engine, xfer, EndingOf(engine.cfg, xfer.descNum, passes), [])
  {
    hide StillWaits, EndingOf, LeftAs, SameOutside, Separate, InBounds;
    WaitingIsPlain(xfer.View());
    ghost var goal, was := EndingOf(engine.cfg, xfer.descNum, passes), engine.results[..];
    assert passes[0..] == passes;
    SameOutsideSelf(was, xfer.descIndex, xfer.descNum);
    var i: nat := 0;
    while i < |passes| && xfer.state == EngineModel.Submitted
      invariant i <= |passes| && InWait(engine, xfer, goal, passes[i..])
      invariant SameOutside(was, engine.results[..], xfer.descIndex, xfer.descNum)
      decreases |passes| - i
    {
      ghost var before := engine.results[..];
      assert passes[i..] == [passes[i]] + passes[i + 1..];
      LeftIsNotSubmitted(xfer.View(), goal.outcome);
      OnePass(engine, xfer, passes[i], goal, passes[i + 1..]);
      SameOutsideJoin(was, before, engine.results[..], xfer.descIndex, xfer.descNum);
      i := i + 1;
    }
    WaitOver(engine, xfer, goal, passes[i..]);
  }

  lemma SameOutsideSelf<T>(a: seq<T>, first: nat, n: nat)
    ensures SameOutside(a, a, first, n)
  {
  }

  lemma SameOutsideJoin<T>(a: seq<T>, b: seq<T>, c: seq<T>, first: nat, n: nat)
    requires SameOutside(a, b, first, n) && SameOutside(b, c, first, n)
    ensures SameOutside(a, c, first, n)
  {
  }

  lemma LeftIsNotSubmitted(x: Xfer, o: Outcome)
    ensures LeftAs(x, o) ==> x.state != EngineModel.Submitted
  {
  }

  /** Once the transfer has left, or the passes are used up, nothing more is to come. */
  lemma WaitOver(engine: XdmaEngine, xfer: Transfer, goal: Ending, rest: seq<ServicePass>)
    requires InWait(engine, xfer, goal, rest) && (rest == [] || xfer.state != EngineModel.Submitted)
    ensures InWait(engine, xfer, goal, [])
  {
  }

  /** transfer_abort followed by xdma_engine_stop, after a timeout. */
  method AbortAndStop(engine: XdmaEngine, xfer: Transfer)
    requires engine.Valid() && engine.transferList == [xfer]
    modifies engine`transferList, engine`running, xfer`state
    ensures engine.transferList == [] && !engine.running
    ensures xfer.state == if old(xfer.state) == EngineModel.Submitted then Aborted else old(xfer.state)
  {
    engine.transferList := engine.transferList[1..];
    if xfer.state == EngineModel.Submitted {
      xfer.state := Aborted;
    }
    engine.running := false;
  }

  ghost predicate IdleEngine(engine: XdmaEngine)
    reads engine`descIdx, engine`transferList, engine`running, engine`shutRequest
  {
    engine.Valid() && engine.transferList == [] && !engine.running && !engine.shutRequest
  }

  /** How the record shows an ending. */
  ghost predicate Shown(xfer: Transfer, results: seq<Result>, e: Ending)
    reads xfer
  {
    match e.outcome
    case Success(cmpl, eop) => xfer.state == Completed && xfer.descCmpl == cmpl && xfer.eopReceived == eop
      && results == e.results
    case Failure => xfer.state == Failed
    case Expired => xfer.state == Aborted
    case Refusal => true
  }

  /** Queue the built transfer and wait; a transfer still submitted at the timeout is aborted. */
  method QueueAndWait(engine: XdmaEngine, xfer: Transfer, w: Wait) returns (rv: int)
    requires IdleEngine(engine)
    requires 1 <= xfer.descNum && xfer.descIndex + xfer.descNum <= engine.cfg.descMax
    requires xfer.View() == FreshXfer(xfer.serial, xfer.descNum, xfer.lastInRequest).(state := New)
    modifies engine`transferList, engine`descDequeued, engine`ioDone, engine`running, engine`shutRequest,
             engine`shutIdle, engine`firstDescLo, engine`firstDescHi, engine`firstDescAdjacent,
             engine.results,
             xfer`state, xfer`descCmpl, xfer`eopReceived
    ensures IdleEngine(engine)
    ensures SameOutside(old(engine.results[..]), engine.results[..], xfer.descIndex, xfer.descNum)
    ensures rv == if w.Refused? then -EBUSY else 0
    ensures Shown(xfer, engine.results[xfer.descIndex..xfer.descIndex + xfer.descNum],
                  WaitEnding(engine.cfg, xfer.descNum, w))
  {
    SameOutsideSelf(engine.results[..], xfer.descIndex, xfer.descNum);
    hide SameOutside, EndingOf, Separate, InBounds;
    rv := engine.TransferQueue(xfer, w.Refused?);
    if rv < 0 {
      return;
    }
    Settle(engine, xfer, w.passes);
    EndingBounds(engine.cfg, xfer.descNum, w.passes);
    NothingToCome(engine.cfg, xfer.descNum);
    if xfer.state == EngineModel.Submitted {
      AbortAndStop(engine, xfer);
    }
  }

  lemma NothingToCome(c: Config, n: nat)
    ensures EndingOf(c, n, []) == Ending(Expired, [])
  {
  }

  /** The write-back lengths of the completed descriptors. */
  method SumLengths(engine: XdmaEngine, xfer: Transfer, ghost results: seq<Result>) returns (bytes: nat)
    requires engine.Valid() && xfer.descIndex + xfer.descNum <= engine.cfg.descMax && xfer.descCmpl <= xfer.descNum
    requires engine.results[xfer.descIndex..xfer.descIndex + xfer.descNum] == results
    ensures bytes == Sum(Lengths(results)[..xfer.descCmpl])
  {
    bytes := 0;
    for i := 0 to xfer.descCmpl
      invariant bytes == Sum(Lengths(results)[..i])
    {
      SumTake(Lengths(results), i);
      assert engine.results[xfer.descIndex + i] == results[i];
      bytes := bytes + engine.results[xfer.descIndex + i].length;
    }
  }

  /** The switch on the transfer's state, and the descriptor accounting after it. */
  method SwitchOnState(engine: XdmaEngine, xfer: Transfer, ghost results: seq<Result>)
    returns (rv: int, bytes: nat, ended: bool)
    requires engine.Valid() && xfer.descIndex + xfer.descNum <= engine.cfg.descMax
    requires xfer.state == Completed ==>
               xfer.descCmpl <= xfer.descNum && engine.results[xfer.descIndex..xfer.descIndex + xfer.descNum] == results
    modifies engine`descUsed
    ensures engine.descUsed == old(engine.descUsed) - xfer.descNum
    ensures rv == if xfer.state == Completed then 0 else if xfer.state == Failed then -EIO else -ETIMEDOUT
    ensures xfer.state == Completed ==>
              && bytes == (if StreamIn(engine.cfg) then Sum(Lengths(results)[..xfer.descCmpl]) else xfer.len)
              && ended == (StreamIn(engine.cfg) && engine.cfg.eopFlush && xfer.eopReceived)
  {
    rv, bytes, ended := 0, 0, false;
    match xfer.state {
      case Completed =>
        if engine.cfg.streaming && engine.cfg.dir.FromDevice? {
          bytes := SumLengths(engine, xfer, results);
          ended := engine.cfg.eopFlush && xfer.eopReceived;
        } else {
          bytes := xfer.len;
        }
      case Failed => rv := -EIO;
      case _ => rv := -ETIMEDOUT;
    }
    engine.descUsed := engine.descUsed - xfer.descNum;
  }

  // ---------------------------------------------------------------- one turn of the loop

  /** How a transfer of the first n pieces ended; `used` descriptors stay accounted. */
  ghost predicate Ended(c: Config, left: seq<Extent>, n: nat, w: Wait, rv: int, bytes: nat, ended: bool, used: int) {
    && n <= |left|
    && var e := WaitEnding(c, n, w);
       && used == (if w.Refused? then n else 0)
       && (e.outcome.Refusal? ==> rv == -EBUSY)
       && (e.outcome.Expired? ==> rv == -ETIMEDOUT)
       && (e.outcome.Failure? ==> rv == -EIO)
       && (e.outcome.Success? ==> rv == 0 && bytes == BytesOf(c, left, n, e) && ended == EndsRequest(c, e.outcome))
  }

  /** Queue the built transfer, wait, and account for how it ended. */
  method RunTurn(engine: XdmaEngine, xfer: Transfer, w: Wait, ghost left: seq<Extent>)
    returns (rv: int, bytes: nat, ended: bool)
    requires IdleEngine(engine)
    requires 1 <= xfer.descNum <= |left| && xfer.descIndex + xfer.descNum <= engine.cfg.descMax
    requires xfer.View() == FreshXfer(xfer.serial, xfer.descNum, xfer.lastInRequest).(state := New)
    requires xfer.len == U32(Total(left[..xfer.descNum]))
    modifies engine`transferList, engine`descDequeued, engine`ioDone, engine`running, engine`shutRequest,
             engine`shutIdle, engine`firstDescLo, engine`firstDescHi, engine`firstDescAdjacent,
             engine.results, engine`descUsed,
             xfer`state, xfer`descCmpl, xfer`eopReceived
    ensures IdleEngine(engine)
    ensures Ended(engine.cfg, left, xfer.descNum, w, rv, bytes, ended,
                  engine.descUsed - old(engine.descUsed) + xfer.descNum)
  {
    rv, bytes, ended := 0, 0, false;
    ghost var n, e := xfer.descNum, WaitEnding(engine.cfg, xfer.descNum, w);
    WaitBounds(engine.cfg, n, w);
    hide WaitEnding, Total, Sum, Lengths, U32, SameOutside;
    rv := QueueAndWait(engine, xfer, w);
    if rv == 0 {
      rv, bytes, ended := SwitchOnState(engine, xfer, e.results);
    }
  }

  lemma WaitBounds(c: Config, n: nat, w: Wait)
    ensures var e := WaitEnding(c, n, w);
            (e.outcome.Refusal? <==> w.Refused?) && (e.outcome.Success? ==> e.outcome.cmpl <= n && |e.results| == n)
  {
    if w.Served? {
      EndingBounds(c, n, w.passes);
    }
  }

  /** A turn of the loop from index d. */
  ghost predicate Turned(c: Config, left: seq<Extent>, d: nat, w: Wait, rv: int, bytes: nat, ended: bool, leak: int) {
    d < c.descMax && left != [] && Ended(c, left, Min(|left|, c.descMax - d), w, rv, bytes, ended, leak)
  }

  /** One turn of the blocking loop: its status, the bytes it adds, whether a packet end finishes the
      request, and the chain it submitted. */
  method OneTurn(engine: XdmaEngine, req: RequestCb, xfer: Transfer, w: Wait, ghost left: seq<Extent>)
    returns (rv: int, bytes: nat, ended: bool)
    requires IdleEngine(engine)
    requires req.swDescIdx < req.swDescCnt <= req.sdesc.Length && req.epAddr < 0x1_0000_0000_0000_0000
    requires left == req.sdesc[req.swDescIdx..req.swDescCnt]
    modifies engine, engine.desc, engine.results, xfer, req`epAddr, req`swDescIdx
    ensures IdleEngine(engine)
    ensures var first := old(engine.descIdx);
            var n := Min(|left|, engine.cfg.descMax - first);
            && 1 <= n && first + n <= engine.cfg.descMax && req.swDescIdx == old(req.swDescIdx) + n
            && engine.desc[first..first + n] == TransferDescs(engine.cfg, first, left[..n], old(req.epAddr))
            && req.epAddr == EpAfter(engine.cfg, left[..n], old(req.epAddr))
            && xfer.descNum == n && (xfer.lastInRequest <==> |left| == n)
            && engine.descIdx == NextIndex(engine.cfg, first, n)
            && Turned(engine.cfg, left, first, w, rv, bytes, ended, engine.descUsed - old(engine.descUsed))
    ensures req.swDescIdx <= req.swDescCnt && req.epAddr < 0x1_0000_0000_0000_0000
  {
    hide TransferDescs, Total, EpAfter, NextIndex, U32, Ended;
    BuildOne(engine, req, xfer, left);
    rv, bytes, ended := RunTurn(engine, xfer, w, left);
  }

  // ---------------------------------------------------------------- the loop

  /** The loop before a turn: `goal` is the account of the whole request, of which `done` bytes are
      counted, and transfer `final` of its carving is the first to end the loop. */
  ghost predicate Going(c: Config, left: seq<Extent>, d: nat, waits: nat -> Wait, t: nat, done: nat, goal: Account,
                        final: nat) {
    && d < c.descMax
    && goal == Plus(done, Blocking(c, left, d, waits, t))
    && final == t + FirstEnding(c, Carve(|left|, d, c.descMax), waits, t)
  }

  /** What a turn decides. */
  lemma TurnGoal(c: Config, left: seq<Extent>, d: nat, waits: nat -> Wait, t: nat, done: nat, goal: Account, final: nat,
                 rv: int, bytes: nat, ended: bool, leak: int)
    requires Going(c, left, d, waits, t, done, goal, final) && Turned(c, left, d, waits(t), rv, bytes, ended, leak)
    ensures rv <= 0 && leak >= 0
    ensures rv < 0 ==> goal == Account(done, rv, leak) && final == t
    ensures rv == 0 ==> leak == 0
    ensures rv == 0 && ended ==> goal == Account(done + bytes, 0, 0) && final == t
    ensures rv == 0 && !ended ==>
              var n := Min(|left|, c.descMax - d);
              Going(c, left[n..], NextIndex(c, d, n), waits, t + 1, done + bytes, goal, final)
  {
    hide WaitEnding, BytesOf, NextIndex, Blocking, FirstEnding, Carve, EndsRequest;
    var n, cuts := Min(|left|, c.descMax - d), Carve(|left|, d, c.descMax);
    BlockingUnfolds(c, left, d, waits, t);
    CarveStep(c, |left|, d);
    WaitBounds(c, n, waits(t));
    EndingOrNext(c, cuts, waits, t);
  }

  lemma EndingOrNext(c: Config, cuts: seq<Cut>, waits: nat -> Wait, t: nat)
    requires cuts != []
    ensures FirstEnding(c, cuts, waits, t)
         == if GoesOn(c, OutcomeOf(c, cuts[0].count, waits(t))) then 1 + FirstEnding(c, cuts[1..], waits, t + 1) else 0
  {
    hide OutcomeOf, GoesOn;
  }

  lemma LoopEntry(c: Config, all: seq<Extent>, d: nat, waits: nat -> Wait)
    requires d < c.descMax
    ensures Going(c, all[0..], d, waits, 0, 0, Blocking(c, all, d, waits, 0),
                  FirstEnding(c, Carve(|all|, d, c.descMax), waits, 0))
  {
    hide OutcomeOf, BytesOf, Blocking, FirstEnding;
    assert all[0..] == all;
  }

  lemma LoopEnd(c: Config, left: seq<Extent>, d: nat, waits: nat -> Wait, t: nat, done: nat, goal: Account, final: nat)
    requires Going(c, left, d, waits, t, done, goal, final)
    ensures left == [] ==> goal == Account(done, 0, 0) && final == t
  {
    hide OutcomeOf, BytesOf;
  }

  /** A request on its way: its software descriptors, where it started, and what is submitted. */
  ghost predicate OnItsWay(engine: XdmaEngine, req: RequestCb, all: seq<Extent>, d: nat, ep: nat, log: seq<Turn>)
    reads engine`descIdx, req, req.sdesc
  {
    && req.swDescIdx <= req.swDescCnt <= req.sdesc.Length && req.sdesc[..req.swDescCnt] == all
    && req.epAddr < 0x1_0000_0000_0000_0000 && ep < 0x1_0000_0000_0000_0000
    && d < engine.cfg.descMax && engine.descIdx == After(d, req.swDescIdx, engine.cfg.descMax)
    && LogOk(log, |all|, d, |all| - req.swDescIdx, engine.descIdx, engine.cfg.descMax)
    && LogBuilt(engine.cfg, log, all[..req.swDescIdx], ep, req.epAddr)
  }

  lemma IndexAfter(c: Config, d: nat, m: nat, n: nat)
    requires d < c.descMax
    ensures NextIndex(c, After(d, m, c.descMax), n) == After(d, m + n, c.descMax)
  {
    AfterSplit(d, m, n, c.descMax);
  }

  lemma AtStart(d: nat, r: nat)
    requires d < r
    ensures After(d, 0, r) == d
  {
    DivUnique(d, r, 0, d);
  }

  /** Submitting the next n pieces moves a request on. */
  lemma MovesOn(c: Config, log: seq<Turn>, all: seq<Extent>, m: nat, d: nat, first: nat, ep: nat, ep': nat)
    requires d < c.descMax && first == After(d, m, c.descMax) && m < |all| && ep < 0x1_0000_0000_0000_0000
    requires LogOk(log, |all|, d, |all| - m, first, c.descMax) && LogBuilt(c, log, all[..m], ep, ep')
    ensures var n := Min(|all| - m, c.descMax - first);
            var more := all[m..][..n];
            var log' := log + [Turn(Cut(first, n), |all| - m == n, TransferDescs(c, first, more, ep'))];
            && NextIndex(c, first, n) == After(d, m + n, c.descMax)
            && LogOk(log', |all|, d, |all| - m - n, NextIndex(c, first, n), c.descMax)
            && LogBuilt(c, log', all[..m + n], ep, EpAfter(c, more, ep'))
  {
    hide LogOk, LogBuilt, TransferDescs, EpAfter, NextIndex;
    var n := Min(|all| - m, c.descMax - first);
    var more := all[m..][..n];
    IndexAfter(c, d, m, n);
    LogStep(c, log, |all|, d, |all| - m, first, TransferDescs(c, first, more, ep'));
    LogBuiltStep(c, log, all[..m], more, ep, ep', first, |all| - m == n);
    assert all[..m] + more == all[..m + n];
  }

  /** A turn of the loop together with what it decides. */
  method LoopTurn(engine: XdmaEngine, req: RequestCb, xfer: Transfer, waits: nat -> Wait, t: nat,
                  ghost all: seq<Extent>, ghost d: nat, ghost ep: nat, ghost done: nat, ghost goal: Account,
                  ghost final: nat,
                  ghost log: seq<Turn>)
    returns (rv: int, bytes: nat, ended: bool, ghost log': seq<Turn>)
    requires IdleEngine(engine) && OnItsWay(engine, req, all, d, ep, log) && req.swDescIdx < req.swDescCnt
    requires Going(engine.cfg, all[req.swDescIdx..], engine.descIdx, waits, t, done, goal, final)
    modifies engine, engine.desc, engine.results, xfer, req`epAddr, req`swDescIdx
    ensures IdleEngine(engine) && OnItsWay(engine, req, all, d, ep, log')
    ensures |log'| == |log| + 1
    ensures req.swDescIdx == old(req.swDescIdx) + xfer.descNum && xfer.descNum >= 1
    ensures rv <= 0
    ensures rv < 0 ==> goal == Account(done, rv, engine.descUsed - old(engine.descUsed)) && final == t
    ensures rv == 0 ==> engine.descUsed == old(engine.descUsed)
    ensures rv == 0 && ended ==> goal == Account(done + bytes, 0, 0) && final == t
    ensures rv == 0 && !ended ==>
              Going(engine.cfg, all[req.swDescIdx..], engine.descIdx, waits, t + 1, done + bytes, goal, final)
  {
    hide Going, LogOk, LogBuilt, Turned, NextIndex, TransferDescs, EpAfter, After;
    ghost var first, m, left, used, ep' := engine.descIdx, req.swDescIdx, all[req.swDescIdx..], engine.descUsed,
      req.epAddr;
    ghost var n := Min(|left|, engine.cfg.descMax - first);
    assert left == req.sdesc[req.swDescIdx..req.swDescCnt];
    MovesOn(engine.cfg, log, all, m, d, first, ep, ep');
    rv, bytes, ended := OneTurn(engine, req, xfer, waits(t), left);
    log' := log + [Turn(Cut(first, n), xfer.lastInRequest, engine.desc[first..first + n])];
    assert all[m..][n..] == all[req.swDescIdx..];
    TurnGoal(engine.cfg, left, first, waits, t, done, goal, final, rv, bytes, ended, engine.descUsed - used);
  }

  /** xdma_xfer_submit on an otherwise idle engine: the byte count or the error, the descriptors left
      accounted, how many transfers were submitted, which one is flagged, and that the submitted
      descriptors are the request's. The loop ends because every turn takes at least one of them. */
  method XferSubmit(engine: XdmaEngine, req: RequestCb, xfer: Transfer, waits: nat -> Wait)
    returns (ret: int, ghost log: seq<Turn>)
    requires IdleEngine(engine)
    requires req.swDescIdx == 0 && req.swDescCnt <= req.sdesc.Length && req.epAddr < 0x1_0000_0000_0000_0000
    modifies engine, engine.desc, engine.results, xfer, req`epAddr, req`swDescIdx
    ensures IdleEngine(engine)
    ensures var all, d, c := old(req.Descs()), old(engine.descIdx), engine.cfg;
            var a, cuts := Blocking(c, all, d, waits, 0), Carve(|all|, d, c.descMax);
            && ret == (if a.done > 0 then a.done else a.rv)
            && (StreamIn(c) ==>
                  var n := StreamCount(c, |all|, d, waits, 0); if n > 0 then ret == n else ret <= 0)
            && engine.descUsed == old(engine.descUsed) + Leak(c, cuts, waits, 0)
            && |log| == Min(FirstEnding(c, cuts, waits, 0) + 1, |cuts|)
            && FlagsFinal(log, |all|, d, c.descMax)
            && req.swDescIdx <= |all| && LogBuilt(c, log, all[..req.swDescIdx], old(req.epAddr), req.epAddr)
  {
    hide Blocking, Going, LogOk, LogBuilt, Carve, FlagsFinal, Cuts, FirstEnding, Leak, After, StreamCount;
    var done: nat, rv, nents: nat, t: nat := 0, 0, req.swDescCnt, 0;
    ghost var all, d, c, used, ep := req.Descs(), engine.descIdx, engine.cfg, engine.descUsed, req.epAddr;
    ghost var goal, final := Blocking(c, all, d, waits, 0), FirstEnding(c, Carve(|all|, d, c.descMax), waits, 0);
    log := [];
    assert all[..0] == [];
    LoopEntry(c, all, d, waits);
    LogStart(c, |all|, d, ep);
    AtStart(d, c.descMax);
    ghost var stopped := false;
    while nents > 0
      invariant IdleEngine(engine) && OnItsWay(engine, req, all, d, ep, log)
      invariant rv == 0 && engine.descUsed == used && |log| == t
      invariant stopped ==> nents == 0 && goal == Account(done, 0, 0) && final + 1 == t
      invariant !stopped ==> nents == req.swDescCnt - req.swDescIdx
      invariant !stopped ==> Going(c, all[req.swDescIdx..], engine.descIdx, waits, t, done, goal, final)
      decreases nents
    {
      var bytes, ended;
      rv, bytes, ended, log := LoopTurn(engine, req, xfer, waits, t, all, d, ep, done, goal, final, log);
      t := t + 1;
      if rv < 0 {
        break;
      }
      nents := nents - xfer.descNum;
      done := done + bytes;
      if ended {
        nents := 0;
        stopped := true;
      }
    }
    if rv == 0 && !stopped {
      LoopEnd(c, all[req.swDescIdx..], engine.descIdx, waits, t, done, goal, final);
    }
    FinalBound(c, all, d, waits, final, t, log, req.swDescIdx, engine.descIdx);
    LeaksExactly(c, all, d, waits, 0);
    if StreamIn(c) {
      StreamCounts(c, all, d, waits, 0);
    }
    LogFlags(log, |all|, d, |all| - req.swDescIdx, engine.descIdx, c.descMax);
    return if done > 0 then done else rv, log;
  }

  /** The loop submits the transfers up to the first that ends it. */
  lemma FinalBound(c: Config, all: seq<Extent>, d: nat, waits: nat -> Wait, final: nat, t: nat, log: seq<Turn>,
                   m: nat, d': nat)
    requires d < c.descMax && d' < c.descMax && m <= |all| && |log| == t
    requires LogOk(log, |all|, d, |all| - m, d', c.descMax)
    requires final == FirstEnding(c, Carve(|all|, d, c.descMax), waits, 0)
    requires final + 1 == t || (final == t && m == |all|)
    ensures t == Min(final + 1, |Carve(|all|, d, c.descMax)|)
  {
    hide FirstEnding, OutcomeOf;
    CarveFacts(|all| - m, d', c.descMax);
  }
}
