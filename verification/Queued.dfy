/** The queued submission loop over the engine (xdma_xfer_submit_nowait). */
module Queued {
  import opened Words
  import opened LinearCopy
  import opened Request
  import opened Descriptors
  import opened Chains
  import opened Ring
  import opened EngineModel
  import opened BlockingLoop
  import opened LibXdma
  import opened RingWrites
  import opened Submit

  const EIOCBQUEUED := 529

  /** Submissions one after the other. */
  function EnqueueAll(e: Engine, xs: seq<Xfer>): Engine
    decreases |xs|
  {
    if xs == [] then e else EnqueueAll(Enqueue(e, xs[0]), xs[1..])
  }

  /** The transfers of a queued request: only the final one is flagged. */
  function RequestXfers(serials: seq<nat>, cuts: seq<Cut>, cb: nat): (r: seq<Xfer>)
    requires |serials| == |cuts|
    ensures |r| == |cuts|
  {
    seq(|cuts|, i requires 0 <= i < |cuts| =>
      Xfer(Ticket(serials[i], cuts[i].count, i + 1 == |cuts|, Some(cb)), 0, New, false, false))
  }

  lemma {:induction false} EnqueueAllSnoc(e: Engine, xs: seq<Xfer>, x: Xfer)
    ensures EnqueueAll(e, xs + [x]) == Enqueue(EnqueueAll(e, xs), x)
    decreases |xs|
  {
    hide Enqueue;
    if xs == [] {
      assert [x][1..] == [] && [] + [x] == [x];
    } else {
      assert (xs + [x])[1..] == xs[1..] + [x];
      EnqueueAllSnoc(Enqueue(e, xs[0]), xs[1..], x);
    }
  }

  /** transfer_init for a queued request: chain, callback, and the flag of the last transfer. */
  method BuildQueued(engine: XdmaEngine, req: RequestCb, xfer: Transfer, cb: nat, ghost left: seq<Extent>)
    requires engine.ValidQueue() && xfer !in engine.transferList
    requires req.swDescIdx < req.swDescCnt <= req.sdesc.Length && req.epAddr < 0x1_0000_0000_0000_0000
    requires left == req.sdesc[req.swDescIdx..req.swDescCnt]
    modifies engine`descIdx, engine`descUsed, engine.desc, engine.results, xfer, req`epAddr, req`swDescIdx
    ensures engine.ValidQueue() && engine.View() == old(engine.View())
    ensures var first := old(engine.descIdx);
            var n := Min(|left|, engine.cfg.descMax - first);
            && n >= 1 && req.swDescIdx == old(req.swDescIdx) + n
            && xfer.descIndex == first && xfer.descNum == n && first + n <= engine.cfg.descMax
            && engine.desc[first..first + n] == TransferDescs(engine.cfg, first, left[..n], old(req.epAddr))
            && engine.desc[..] == Spliced(old(engine.desc[..]), first,
                                          TransferDescs(engine.cfg, first, left[..n], old(req.epAddr)))
            && req.epAddr == EpAfter(engine.cfg, left[..n], old(req.epAddr))
            && xfer.View() == Xfer(Ticket(xfer.serial, n, |left| == n, Some(cb)), 0, New, false, false)
            && engine.descIdx == NextIndex(engine.cfg, first, n) && engine.descUsed == old(engine.descUsed) + n
    ensures req.swDescIdx <= req.swDescCnt && req.epAddr < 0x1_0000_0000_0000_0000
  {
    hide TransferDescs, EpAfter, Total, Views, Separate, InBounds, U32, NextIndex, XdmaEngine.View, Spliced;
    BuildOne(engine, req, xfer, left);
    xfer.cb := Some(cb);
  }

  /** One turn of the queued loop. */
  method NowaitTurn(engine: XdmaEngine, req: RequestCb, xfer: Transfer, cb: nat, ghost left: seq<Extent>)
    returns (rv: int)
    requires engine.ValidQueue() && xfer !in engine.transferList
    requires req.swDescIdx < req.swDescCnt <= req.sdesc.Length && req.epAddr < 0x1_0000_0000_0000_0000
    requires left == req.sdesc[req.swDescIdx..req.swDescCnt]
    modifies engine, engine.desc, engine.results, xfer, req`epAddr, req`swDescIdx
    ensures engine.ValidQueue() && engine.ioDone == old(engine.ioDone)
    ensures var first := old(engine.descIdx);
            var n := Min(|left|, engine.cfg.descMax - first);
            && n >= 1 && req.swDescIdx == old(req.swDescIdx) + n && first + n <= engine.cfg.descMax
            && engine.desc[first..first + n] == TransferDescs(engine.cfg, first, left[..n], old(req.epAddr))
            && engine.desc[..] == Spliced(old(engine.desc[..]), first,
                                          TransferDescs(engine.cfg, first, left[..n], old(req.epAddr)))
            && req.epAddr == EpAfter(engine.cfg, left[..n], old(req.epAddr))
            && engine.descIdx == NextIndex(engine.cfg, first, n) && engine.descUsed == old(engine.descUsed) + n
            && rv == (if old(engine.shutRequest) then -EBUSY else 0)
            && engine.View() == Enqueue(old(engine.View()),
                 Xfer(Ticket(xfer.serial, n, |left| == n, Some(cb)), 0, New, false, false))
    ensures engine.transferList == if rv == 0 then old(engine.transferList) + [xfer] else old(engine.transferList)
    ensures xfer.descIndex == old(engine.descIdx)
    ensures req.swDescIdx <= req.swDescCnt && req.epAddr < 0x1_0000_0000_0000_0000
  {
    hide TransferDescs, EpAfter, Views, Separate, InBounds, Enqueue, NextIndex, Spliced;
    ghost var e := engine.View();
    BuildQueued(engine, req, xfer, cb, left);
    ghost var x := xfer.View();
    rv := engine.TransferQueue(xfer, false);
    RefusedStays(e, x);
  }

  lemma RefusedStays(e: Engine, x: Xfer)
    ensures e.shutRequest ==> Enqueue(e, x) == e
    ensures !e.shutRequest ==> !Enqueue(e, x).shutRequest
  {
  }

  /** What a queued submission starts from: the engine, its list and accounts, the request's pieces,
      its carving and endpoint address, its transfers as values and as records, and the ring that it
      leads to. */
  datatype Origin = Origin(e: Engine, list: seq<Transfer>, used: int, io: seq<nat>,
                           all: seq<Extent>, d: nat, ep: nat, cuts: seq<Cut>, xs: seq<Xfer>, tfer: seq<Transfer>,
                           goal: seq<Desc>)

  ghost predicate OriginOk(s: Origin, r: nat, cb: nat) {
    && s.d < r && s.cuts == Carve(|s.all|, s.d, r) && |s.xs| == |s.cuts| <= |s.tfer| == 2
    && s.tfer[0] != s.tfer[1] && s.tfer[0] !in s.list && s.tfer[1] !in s.list
    && forall i :: 0 <= i < |s.cuts| ==>
         s.xs[i] == Xfer(Ticket(s.tfer[i].serial, s.cuts[i].count, i + 1 == |s.cuts|, Some(cb)), 0, New, false, false)
  }

  /** The engine and the request during the loop: view, list, accounts, ring index, descriptors done. */
  datatype Spot = Spot(view: Engine, list: seq<Transfer>, used: int, io: seq<nat>, idx: nat, done: nat)

  /** k transfers of the request are queued, and the rest of the carving is to come. */
  ghost predicate Reached(s: Origin, k: nat, p: Spot, r: nat) {
    && k <= |s.cuts| == |s.xs| && |s.cuts| <= |s.tfer| && p.done <= |s.all| && p.idx < r
    && s.cuts[k..] == Carve(|s.all| - p.done, p.idx, r)
    && p.view == EnqueueAll(s.e, s.xs[..k]) && p.list == s.list + s.tfer[..k]
    && p.used == s.used + p.done && p.io == s.io
    && (k > 0 ==> !p.view.shutRequest && !s.e.shutRequest)
    && (k == 0 ==> p.done == 0)
  }

  ghost function SpotOf(engine: XdmaEngine, req: RequestCb): Spot
    reads engine, engine.transferList, req`swDescIdx
  {
    Spot(engine.View(), engine.transferList, engine.descUsed, engine.ioDone, engine.descIdx, req.swDescIdx)
  }

  /** Writing the other transfers into this ring leads to the goal. */
  ghost predicate ToWrite(c: Config, s: Origin, k: nat, ring: seq<Desc>, ep: nat, done: nat) {
    && k <= |s.cuts| && done <= |s.all| && Sum(Counts(s.cuts[k..])) == |s.all| - done
    && RingAfter(c, ring, s.cuts[k..], s.all[done..], ep) == s.goal
  }

  lemma WriteNext(c: Config, s: Origin, k: nat, ring: seq<Desc>, ep: nat, done: nat)
    requires ToWrite(c, s, k, ring, ep, done) && k < |s.cuts|
    ensures var first, n, left := s.cuts[k].first, s.cuts[k].count, s.all[done..];
            && n <= |left|
            && ToWrite(c, s, k + 1, Spliced(ring, first, TransferDescs(c, first, left[..n], ep)),
                       EpAfter(c, left[..n], ep), done + n)
  {
    hide RingAfter, Spliced, TransferDescs, EpAfter, Sum, Counts;
    var n, left := s.cuts[k].count, s.all[done..];
    RingAfterStep(c, ring, s.cuts[k..], left, ep);
    assert s.cuts[k..][1..] == s.cuts[k + 1..];
    assert left[n..] == s.all[done + n..];
  }

  lemma AllToWrite(c: Config, s: Origin, ring: seq<Desc>, ep: nat)
    requires Sum(Counts(s.cuts)) == |s.all| && s.goal == RingAfter(c, ring, s.cuts, s.all, ep)
    ensures ToWrite(c, s, 0, ring, ep, 0)
  {
    assert s.cuts[0..] == s.cuts && s.all[0..] == s.all;
  }

  lemma Written(c: Config, s: Origin, ring: seq<Desc>, ep: nat)
    requires ToWrite(c, s, |s.cuts|, ring, ep, |s.all|)
    ensures ring == s.goal
  {
    assert s.cuts[|s.cuts|..] == [] && s.all[|s.all|..] == [];
  }

  /** The records of the queued transfers lie at their cuts. */
  ghost predicate Lie(s: Origin, k: nat)
    reads s.tfer`descIndex
  {
    k <= |s.cuts| <= |s.tfer| && forall i :: 0 <= i < k ==> s.tfer[i].descIndex == s.cuts[i].first
  }

  /** The queued loop after k transfers. */
  ghost predicate QueuedLoop(engine: XdmaEngine, req: RequestCb, s: Origin, k: nat, log: seq<Turn>)
    reads engine, engine.transferList, engine.desc, req, req.sdesc, s.tfer`descIndex
  {
    && engine.ValidQueue() && OnItsWay(engine, req, s.all, s.d, s.ep, log) && |log| == k
    && Reached(s, k, SpotOf(engine, req), engine.cfg.descMax)
    && ToWrite(engine.cfg, s, k, engine.desc[..], req.epAddr, req.swDescIdx) && Lie(s, k)
  }

  /** The next transfer of the carving. */
  ghost function NextXfer(s: Origin, k: nat, n: nat, left: nat, cb: nat): Xfer
    requires k < |s.tfer|
  {
    Xfer(Ticket(s.tfer[k].serial, n, left == n, Some(cb)), 0, New, false, false)
  }

  ghost function NextSpot(c: Config, s: Origin, k: nat, cb: nat, p: Spot): Spot
    requires k < |s.tfer| && p.idx < c.descMax && p.done < |s.all|
  {
    var n := Min(|s.all| - p.done, c.descMax - p.idx);
    Spot(Enqueue(p.view, NextXfer(s, k, n, |s.all| - p.done, cb)),
         if p.view.shutRequest then p.list else p.list + [s.tfer[k]],
         p.used + n, p.io, NextIndex(c, p.idx, n), p.done + n)
  }

  lemma SpotMoves(c: Config, s: Origin, k: nat, cb: nat, p: Spot)
    requires OriginOk(s, c.descMax, cb) && Reached(s, k, p, c.descMax) && p.done < |s.all|
    ensures k < |s.cuts| <= |s.tfer| && p.idx < c.descMax && s.tfer[k] !in p.list
    ensures s.cuts[k] == Cut(p.idx, Min(|s.all| - p.done, c.descMax - p.idx))
    ensures !p.view.shutRequest ==> Reached(s, k + 1, NextSpot(c, s, k, cb, p), c.descMax)
    ensures p.view.shutRequest ==> k == 0 && s.e.shutRequest && NextSpot(c, s, k, cb, p).view == s.e
  {
    hide Carve, Enqueue, EnqueueAll, NextIndex;
    var left := |s.all| - p.done;
    var n := Min(left, c.descMax - p.idx);
    QueuedStep(c, s.cuts, k, left, p.idx, s.e, s.xs);
    StillFree(s, k, c.descMax, cb);
    RefusedStays(p.view, NextXfer(s, k, n, left, cb));
    TakeNone(s.e, s.xs);
    NextBelow(c, p.idx, n);
  }

  lemma NextBelow(c: Config, d: nat, n: nat)
    requires d < c.descMax
    ensures NextIndex(c, d, n) < c.descMax
  {
  }

  lemma QueuedStep(c: Config, cuts: seq<Cut>, k: nat, left: nat, d: nat, e: Engine, xs: seq<Xfer>)
    requires d < c.descMax && k <= |cuts| == |xs| && left > 0 && cuts[k..] == Carve(left, d, c.descMax)
    ensures var n := Min(left, c.descMax - d);
            && k < |cuts| && cuts[k] == Cut(d, n)
            && cuts[k + 1..] == Carve(left - n, NextIndex(c, d, n), c.descMax)
            && (left == n <==> k + 1 == |cuts|)
    ensures EnqueueAll(e, xs[..k + 1]) == Enqueue(EnqueueAll(e, xs[..k]), xs[k])
  {
    hide EnqueueAll, Enqueue, NextIndex, Carve;
    var n := Min(left, c.descMax - d);
    CarveStep(c, left, d);
    assert cuts[k..][1..] == cuts[k + 1..];
    assert cuts[k..][0] == cuts[k];
    CarveFacts(left - n, NextIndex(c, d, n), c.descMax);
    CarveEmpty(c, NextIndex(c, d, n));
    assert xs[..k + 1] == xs[..k] + [xs[k]];
    EnqueueAllSnoc(e, xs[..k], xs[k]);
  }

  lemma CarveEmpty(c: Config, d: nat)
    requires d < c.descMax
    ensures Carve(0, d, c.descMax) == []
  {
  }

  lemma TakeNone(e: Engine, xs: seq<Xfer>)
    ensures EnqueueAll(e, xs[..0]) == e
  {
  }

  /** The record of turn k is not queued yet. */
  lemma StillFree(s: Origin, k: nat, r: nat, cb: nat)
    requires OriginOk(s, r, cb) && k < |s.cuts|
    ensures s.tfer[k] !in s.list + s.tfer[..k]
    ensures s.list + s.tfer[..k] + [s.tfer[k]] == s.list + s.tfer[..k + 1]
    ensures s.xs[k] == Xfer(Ticket(s.tfer[k].serial, s.cuts[k].count, k + 1 == |s.cuts|, Some(cb)), 0, New, false,
                            false)
  {
  }

  method QueuedTurn(engine: XdmaEngine, req: RequestCb, xfer: Transfer, cb: nat, ghost s: Origin, ghost k: nat,
                    ghost log: seq<Turn>)
    returns (rv: int, ghost log': seq<Turn>)
    requires OriginOk(s, engine.cfg.descMax, cb) && QueuedLoop(engine, req, s, k, log)
    requires req.swDescIdx < req.swDescCnt && k < |s.cuts| && xfer == s.tfer[k]
    modifies engine, engine.desc, engine.results, xfer, req`epAddr, req`swDescIdx
    ensures old(req.swDescIdx) < req.swDescIdx <= req.swDescCnt
    ensures engine.ValidQueue() && engine.ioDone == old(engine.ioDone)
    ensures rv == 0 || (rv == -EBUSY && k == 0 && s.e.shutRequest)
    ensures rv == 0 ==> QueuedLoop(engine, req, s, k + 1, log')
    ensures rv < 0 ==> engine.View() == s.e
  {
    hide Carve, Enqueue, EnqueueAll, NextIndex, Views, Separate, InBounds, Min;
    hide LogOk, LogBuilt, TransferDescs, EpAfter, OriginOk, After;
    hide Reached, ToWrite, Spliced;
    ghost var p, left := SpotOf(engine, req), s.all[req.swDescIdx..];
    SpotMoves(engine.cfg, s, k, cb, p);
    WriteNext(engine.cfg, s, k, engine.desc[..], req.epAddr, p.done);
    OthersLie(s, k, engine.cfg.descMax, cb);
    MovesOn(engine.cfg, log, s.all, p.done, s.d, p.idx, s.ep, req.epAddr);
    rv := NowaitTurn(engine, req, xfer, cb, left);
    ghost var n := req.swDescIdx - p.done;
    log' := log + [Turn(Cut(p.idx, n), |left| == n, engine.desc[p.idx..p.idx + n])];
  }

  lemma OthersLie(s: Origin, k: nat, r: nat, cb: nat)
    requires OriginOk(s, r, cb) && k < |s.cuts|
    ensures forall i :: 0 <= i < k ==> s.tfer[i] != s.tfer[k]
  {
  }

  /** The loop of the queued submission. */
  method QueueAll(engine: XdmaEngine, req: RequestCb, tfer: seq<Transfer>, cb: nat, ghost s: Origin)
    returns (rv: int, ghost log: seq<Turn>)
    requires OriginOk(s, engine.cfg.descMax, cb) && s.tfer == tfer && QueuedLoop(engine, req, s, 0, [])
    modifies engine, engine.desc, engine.results, tfer, req`epAddr, req`swDescIdx
    ensures engine.ValidQueue() && engine.ioDone == old(engine.ioDone)
    ensures rv == if s.e.shutRequest && |s.all| > 0 then -EBUSY else -EIOCBQUEUED
    ensures rv == -EBUSY ==> engine.View() == s.e
    ensures rv == -EIOCBQUEUED ==> QueuedLoop(engine, req, s, |s.cuts|, log) && req.swDescIdx == |s.all|
  {
    hide Carve, EnqueueAll, Views, Separate, InBounds, LogOk, LogBuilt, OriginOk, XdmaEngine.View, ToWrite;
    var nents: nat, tferIdx: nat := req.swDescCnt, 0;
    log := [];
    while nents > 0
      invariant nents == req.swDescCnt - req.swDescIdx
      invariant QueuedLoop(engine, req, s, tferIdx, log)
      decreases nents
    {
      CarveSome(nents, engine.descIdx, engine.cfg.descMax);
      OneOfTwo(s, engine.cfg.descMax, cb);
      rv, log := QueuedTurn(engine, req, tfer[tferIdx], cb, s, tferIdx, log);
      if rv < 0 {
        return;
      }
      nents := req.swDescCnt - req.swDescIdx;
      tferIdx := tferIdx + 1;
    }
    CarveEmpty(engine.cfg, engine.descIdx);
    rv := -EIOCBQUEUED;
  }

  lemma OneOfTwo(s: Origin, r: nat, cb: nat)
    requires OriginOk(s, r, cb)
    ensures |s.cuts| <= |s.tfer| == 2
  {
  }

  lemma CarveSome(n: nat, d: nat, r: nat)
    requires d < r && n > 0
    ensures Carve(n, d, r) != []
  {
  }

  /** xdma_xfer_submit_nowait: the request is queued as its one or two transfers, of which only
      the final one is flagged, with the descriptors of the request, or refused as a whole. The two
      transfer records suffice exactly because it has at most 2 * desc_max - desc_idx descriptors. */
  method SubmitNowait(engine: XdmaEngine, req: RequestCb, tfer: seq<Transfer>, cb: nat)
    returns (rv: int, ghost log: seq<Turn>)
    requires engine.ValidQueue() && |tfer| == 2 && tfer[0] != tfer[1]
    requires tfer[0] !in engine.transferList && tfer[1] !in engine.transferList
    requires req.swDescIdx == 0 && req.swDescCnt <= req.sdesc.Length && req.epAddr < 0x1_0000_0000_0000_0000
    requires req.swDescCnt <= 2 * engine.cfg.descMax - engine.descIdx
    modifies engine, engine.desc, engine.results, tfer, req`epAddr, req`swDescIdx
    ensures engine.ValidQueue() && engine.ioDone == old(engine.ioDone)
    ensures old(engine.shutRequest) && req.swDescCnt > 0 ==> rv == -EBUSY && engine.View() == old(engine.View())
    ensures !(old(engine.shutRequest) && req.swDescCnt > 0) ==>
              var all, d := old(req.Descs()), old(engine.descIdx);
              var cuts := Carve(|all|, d, engine.cfg.descMax);
              && rv == -EIOCBQUEUED && |cuts| <= 2
              && engine.transferList == old(engine.transferList) + tfer[..|cuts|]
              && engine.View() == EnqueueAll(old(engine.View()),
                                             RequestXfers([tfer[0].serial, tfer[1].serial][..|cuts|], cuts, cb))
              && engine.descUsed == old(engine.descUsed) + |all|
              && engine.descIdx == After(d, |all|, engine.cfg.descMax)
              && FlagsFinal(log, |all|, d, engine.cfg.descMax) && Cuts(log) == cuts
              && LogBuilt(engine.cfg, log, all, old(req.epAddr), req.epAddr)
              && Sum(Counts(cuts)) == |all|
              && engine.desc[..] == RingAfter(engine.cfg, old(engine.desc[..]), cuts, all, old(req.epAddr))
              && forall i :: 0 <= i < |cuts| ==> tfer[i].descIndex == cuts[i].first
  {
    hide RingAfter, Sum, Counts, ToWrite;
    hide Carve, EnqueueAll, Views, Separate, InBounds, LogOk, LogBuilt, RequestXfers, After, FlagsFinal, Cuts, OriginOk;
    ghost var c, all, d, ep := engine.cfg, req.Descs(), engine.descIdx, req.epAddr;
    ghost var cuts := Carve(|all|, d, c.descMax);
    TwoTransfersSuffice(|all|, d, c.descMax);
    ghost var xs := RequestXfers([tfer[0].serial, tfer[1].serial][..|cuts|], cuts, cb);
    CarveFacts(|all|, d, c.descMax);
    ghost var goal := RingAfter(c, engine.desc[..], cuts, all, ep);
    ghost var s := Origin(engine.View(), engine.transferList, engine.descUsed, engine.ioDone, all, d, ep, cuts, xs,
                          tfer, goal);
    OriginShape(s, c.descMax, cb);
    AllToWrite(c, s, engine.desc[..], ep);
    LogStart(c, |all|, d, ep);
    AtStart(d, c.descMax);
    TakeNone(s.e, xs);
    assert cuts[0..] == cuts && all[..0] == [] && s.list + tfer[..0] == s.list;
    TakeAll(xs);
    TakeAll(all);
    rv, log := QueueAll(engine, req, tfer, cb, s);
    if rv == -EIOCBQUEUED {
      LogWhole(log, |all|, d, engine.descIdx, c.descMax);
      Written(c, s, engine.desc[..], req.epAddr);
    }
  }

  lemma TakeAll<T>(xs: seq<T>)
    ensures xs[..|xs|] == xs
  {
  }

  lemma OriginShape(s: Origin, r: nat, cb: nat)
    requires s.d < r && s.cuts == Carve(|s.all|, s.d, r) && |s.cuts| <= |s.tfer| == 2
    requires s.tfer[0] != s.tfer[1] && s.tfer[0] !in s.list && s.tfer[1] !in s.list
    requires s.xs == RequestXfers([s.tfer[0].serial, s.tfer[1].serial][..|s.cuts|], s.cuts, cb)
    ensures OriginOk(s, r, cb)
  {
    hide Carve;
  }

  /** The log of a request submitted in full is its carving, which ends where the ring index is. */
  lemma LogWhole(log: seq<Turn>, n: nat, d: nat, d': nat, r: nat)
    requires d < r && d' < r && LogOk(log, n, d, 0, d', r)
    ensures FlagsFinal(log, n, d, r) && Cuts(log) == Carve(n, d, r)
  {
    assert Carve(0, d', r) == [];
    assert Cuts(log) + [] == Cuts(log);
  }
}
