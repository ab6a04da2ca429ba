/** struct xdma_engine and struct xdma_transfer, with the methods that fill the descriptor ring
    and keep the transfer queue, each proved against the value-level functions. */
module LibXdma {
  import opened Words
  import opened LinearCopy
  import opened Request
  import opened Descriptors
  import opened AdjacentWalk
  import opened Chains
  import opened EngineModel
  import opened EngineRuns

  class Transfer {
    /** Which submission this record stands for. */
    ghost const serial: nat
    var descIndex: nat
    var descAdjacent: nat
    var descNum: nat
    var descCmpl: nat
    var descCmplTh: nat
    var state: XferState
    var eopReceived: bool
    var cyclic: bool
    var lastInRequest: bool
    var len: nat
    var cb: Option<nat>

    constructor (ghost serial: nat)
      ensures this.serial == serial && state == New && descNum == 0 && !lastInRequest && cb == None && !eopReceived
              && !cyclic && descCmpl == 0
    {
      this.serial := serial;
      descIndex, descAdjacent, descNum, descCmpl, descCmplTh := 0, 0, 0, 0, 0;
      state, eopReceived, cyclic, lastInRequest, len, cb := New, false, false, false, 0, None;
    }

    /** The cleared record at its place in the ring. */
    method Reset(index: nat)
      modifies this
      ensures descIndex == index && len == 0
      ensures View() == Xfer(Ticket(serial, 0, false, None), 0, New, false, false)
    {
      descIndex, descAdjacent, descNum, descCmpl, descCmplTh := index, 0, 0, 0, 0;
      state, eopReceived, cyclic, lastInRequest, len, cb := New, false, false, false, 0, None;
    }

    ghost function View(): Xfer
      reads this
    {
      Xfer(Ticket(serial, descNum, lastInRequest, cb), descCmpl, state, eopReceived, cyclic)
    }
  }

  // ---------------------------------------------------------------- steps on one descriptor

  /** transfer_desc_init for descriptor i of n. */
  function Blanked(c: Config, first: nat, n: nat, i: nat, d: Desc): Desc {
    var next := NextAddr(c, first, n, i);
    d.(nextLo := Lo(next), nextHi := Hi(next), bytes := 0, control := MAGIC)
  }

  /** xdma_desc_set. */
  function Addressed(c: Config, host: nat, ep: nat, len: nat, d: Desc): Desc {
    if c.dir.ToDevice? then
      d.(bytes := len, srcLo := Lo(host), srcHi := Hi(host), dstLo := Lo(ep), dstHi := Hi(ep))
    else
      d.(bytes := len, srcLo := Lo(ep), srcHi := Hi(ep), dstLo := Lo(host), dstHi := Hi(host))
  }

  /** One turn of the transfer_build loop: a C2H stream's source is its result slot. */
  function Filled(c: Config, index: nat, piece: Extent, ep: nat, d: Desc): Desc {
    var a := Addressed(c, piece.addr, ep, piece.len, d);
    if c.streaming && c.dir.FromDevice?
      then a.(srcLo := Lo(c.resBus + 32 * index), srcHi := Hi(c.resBus + 32 * index)) else a
  }

  function FilledAt(c: Config, first: nat, pieces: seq<Extent>, ep: nat, k: nat, d: Desc): Desc
    requires first <= k < first + |pieces|
  {
    Filled(c, k, pieces[k - first], EpAt(c, pieces, ep, k - first), d)
  }

  function Flagged(c: Config, n: nat, i: nat, d: Desc): Desc {
    if ChainFlags(c, n, i) == 0 then d else d.(control := SetControl(d.control, ChainFlags(c, n, i)))
  }

  function Counted(n: nat, i: nat, d: Desc): Desc
    requires i < n
  {
    d.(control := SetAdjacent(d.control, GetNextAdj(n - i - 1, d.nextLo)))
  }

  lemma StepsBuild(c: Config, first: nat, n: nat, i: nat, piece: Extent, ep: nat, d: Desc)
    requires i < n
    ensures Counted(n, i, Flagged(c, n, i, Filled(c, first + i, piece, ep, Blanked(c, first, n, i, d))))
         == Built(c, first, n, i, piece, ep)
  {
    assert SetControl(MAGIC, 0) == MAGIC;
  }

  /** Two rings agree outside [first, first+n). */
  ghost predicate SameOutside<T>(a: seq<T>, b: seq<T>, first: nat, n: nat) {
    |a| == |b| && forall k :: 0 <= k < |a| && !(first <= k < first + n) ==> a[k] == b[k]
  }

  class XdmaEngine {
    const cfg: Config
    const desc: array<Desc>
    const results: array<Result>
    var descIdx: nat
    var descUsed: int
    var running: bool
    var descDequeued: nat
    var shutRequest: bool
    var shutIdle: bool
    var transferList: seq<Transfer>
    /** first_desc_lo/hi and first_desc_adjacent as last written. */
    var firstDescLo: nat
    var firstDescHi: nat
    var firstDescAdjacent: nat
    /** The io_done calls made so far. */
    var ioDone: seq<nat>

    ghost predicate Valid()
      reads `descIdx
    {
      && ValidConfig(cfg) && desc.Length == results.Length == cfg.descMax
      && descIdx < cfg.descMax
    }

    constructor (c: Config)
      requires ValidConfig(c)
      ensures Valid() && cfg == c && descIdx == 0 && descUsed == 0 && !running && transferList == [] && ioDone == []
      ensures fresh(desc) && fresh(results)
    {
      cfg := c;
      desc := new Desc[c.descMax](_ => BLANK);
      results := new Result[c.descMax](_ => Result(false, 0));
      descIdx, descUsed, running, descDequeued, shutRequest, shutIdle := 0, 0, false, 0, false, false;
      transferList, firstDescLo, firstDescHi, firstDescAdjacent, ioDone := [], 0, 0, 0, [];
    }

    // -------------------------------------------------------------- building a transfer

    /** transfer_desc_init. */
    method DescInit(first: nat, count: nat)
      requires Valid() && 1 <= count && first + count <= cfg.descMax
      modifies desc
      ensures SameOutside(old(desc[..]), desc[..], first, count)
      ensures forall k :: first <= k < first + count ==> desc[k] == Blanked(cfg, first, count, k - first, old(desc[k]))
    {
      var bus: nat := DescAddr(cfg, first);
      for i := 0 to count - 1
        invariant bus == DescAddr(cfg, first + i)
        invariant forall k :: first <= k < first + i ==> desc[k] == Blanked(cfg, first, count, k - first, old(desc[k]))
        invariant forall k :: 0 <= k < desc.Length && !(first <= k < first + i) ==> desc[k] == old(desc[k])
      {
        bus := bus + 32;
        desc[first + i] := desc[first + i].(nextLo := Lo(bus), nextHi := Hi(bus), bytes := 0, control := MAGIC);
      }
      var last := first + count - 1;
      desc[last] := desc[last].(nextLo := 0, nextHi := 0, bytes := 0, control := MAGIC);
    }

    /** transfer_build. */
    method Build(req: RequestCb, xfer: Transfer, n: nat)
      requires Valid() && xfer.descIndex + n <= cfg.descMax
      requires req.swDescIdx + n <= req.swDescCnt <= req.sdesc.Length
      requires req.epAddr < 0x1_0000_0000_0000_0000 && xfer.len == 0
      modifies desc, results, req`epAddr, req`swDescIdx, xfer`len
      ensures var pieces := old(req.sdesc[req.swDescIdx..req.swDescIdx + n]);
              && req.epAddr == EpAfter(cfg, pieces, old(req.epAddr))
              && xfer.len == U32(Total(pieces))
              && FilledTo(cfg, xfer.descIndex, pieces, old(req.epAddr), old(desc[..]), desc[..], n)
      ensures req.swDescIdx == old(req.swDescIdx) + n
      ensures ClearedTo(cfg.streaming && cfg.dir.FromDevice?, xfer.descIndex, old(results[..]), results[..], n)
    {
      hide EpAt, Filled, Sum, Lens, FilledTo, ClearedTo, U32, U64, EpAfter;
      var first := xfer.descIndex;
      ghost var pieces, ep0, was, rwas := req.sdesc[req.swDescIdx..req.swDescIdx + n], req.epAddr, desc[..],
        results[..];
      ghost var clears := cfg.streaming && cfg.dir.FromDevice?;
      BuildStart(cfg, pieces, ep0, first, was);
      NothingCleared(clears, first, rwas);
      for j := 0 to n
        invariant req.swDescIdx == old(req.swDescIdx)
        invariant req.epAddr == EpAt(cfg, pieces, ep0, j) && xfer.len == U32(Sum(Lens(pieces)[..j]))
        invariant FilledTo(cfg, first, pieces, ep0, was, desc[..], j)
        invariant ClearedTo(clears, first, rwas, results[..], j)
      {
        BuildStep(cfg, pieces, ep0, j);
        FilledMore(cfg, first, pieces, ep0, was, desc[..], j);
        ClearedMore(clears, first, rwas, results[..], j);
        FillOne(req, xfer, first + j, req.sdesc[req.swDescIdx + j]);
      }
      BuildEnd(cfg, pieces, ep0);
      req.swDescIdx := req.swDescIdx + n;
    }

    /** One turn of the transfer_build loop. */
    method FillOne(req: RequestCb, xfer: Transfer, index: nat, piece: Extent)
      requires Valid() && index < cfg.descMax
      modifies desc, results, req`epAddr, xfer`len
      ensures desc[..] == old(desc[..])[index := Filled(cfg, index, piece, old(req.epAddr), old(desc[index]))]
      ensures results[..] == if cfg.streaming && cfg.dir.FromDevice? then old(results[..])[index := Result(false, 0)]
              else old(results[..])
      ensures xfer.len == U32(old(xfer.len) + piece.len)
      ensures req.epAddr == if cfg.nonIncr then old(req.epAddr) else U64(old(req.epAddr) + piece.len)
    {
      desc[index] := Addressed(cfg, piece.addr, req.epAddr, piece.len, desc[index]);
      xfer.len := U32(xfer.len + piece.len);
      if !cfg.nonIncr {
        req.epAddr := U64(req.epAddr + piece.len);
      }
      if cfg.streaming && cfg.dir.FromDevice? {
        results[index] := Result(false, 0);
        var bus := cfg.resBus + 32 * index;
        desc[index] := desc[index].(srcLo := Lo(bus), srcHi := Hi(bus));
      }
    }

    /** The stop flags of a chain, and with eop_flush the completion flag of every other descriptor. */
    method MarkFlags(first: nat, n: nat)
      requires Valid() && 1 <= n && first + n <= cfg.descMax
      modifies desc
      ensures SameOutside(old(desc[..]), desc[..], first, n)
      ensures forall k :: first <= k < first + n ==> desc[k] == Flagged(cfg, n, k - first, old(desc[k]))
    {
      var last := n - 1;
      desc[first + last] := desc[first + last].(control := SetControl(desc[first + last].control, LAST_FLAGS));
      if cfg.eopFlush {
        for i := 0 to last
          invariant desc[first + last] == Flagged(cfg, n, last, old(desc[first + last]))
          invariant forall k :: first <= k < first + i ==> desc[k] == Flagged(cfg, n, k - first, old(desc[k]))
          invariant forall k :: 0 <= k < desc.Length && !(first <= k < first + i) && k != first + last ==>
                      desc[k] == old(desc[k])
        {
          desc[first + i] := desc[first + i].(control := SetControl(desc[first + i].control, COMPLETED));
        }
      }
    }

    method FillAdjacent(first: nat, n: nat)
      requires Valid() && first + n <= cfg.descMax
      modifies desc
      ensures SameOutside(old(desc[..]), desc[..], first, n)
      ensures forall k :: first <= k < first + n ==> desc[k] == Counted(n, k - first, old(desc[k]))
    {
      for i := 0 to n
        invariant forall k :: first <= k < first + i ==> desc[k] == Counted(n, k - first, old(desc[k]))
        invariant forall k :: 0 <= k < desc.Length && !(first <= k < first + i) ==> desc[k] == old(desc[k])
      {
        var adj := GetNextAdj(n - i - 1, desc[first + i].nextLo);
        desc[first + i] := desc[first + i].(control := SetAdjacent(desc[first + i].control, adj));
      }
    }

    /** transfer_init: the next transfer of a request takes as many of its descriptors as fit
        before the end of the ring. It becomes a complete chain there; the rest of the ring stays. */
    method TransferInit(req: RequestCb, xfer: Transfer)
      requires Valid()
      requires req.swDescIdx < req.swDescCnt <= req.sdesc.Length && req.epAddr < 0x1_0000_0000_0000_0000
      modifies `descIdx, `descUsed, desc, results, xfer, req`epAddr, req`swDescIdx
      ensures Valid()
      ensures var first, n := old(descIdx), Min(req.swDescCnt - old(req.swDescIdx), cfg.descMax - old(descIdx));
              var pieces := old(req.sdesc[req.swDescIdx..req.swDescIdx + n]);
              && ChainAt(cfg, desc[..], first, pieces, old(req.epAddr))
              && SameOutside(old(desc[..]), desc[..], first, n)
              && SameOutside(old(results[..]), results[..], first, n)
              && xfer.descIndex == first && xfer.descNum == xfer.descAdjacent == n && xfer.len == U32(Total(pieces))
              && xfer.descCmplTh == (if cfg.eopFlush then 1 else n)
              && xfer.View() == Xfer(Ticket(xfer.serial, n, false, None), 0, New, false, false)
              && req.swDescIdx == old(req.swDescIdx) + n && req.epAddr == EpAfter(cfg, pieces, old(req.epAddr))
              && descIdx == (first + n) % cfg.descMax && descUsed == old(descUsed) + n
    {
      hide ChainAt, EpAfter, Total, SameOutside, U32;
      var n := Min(req.swDescCnt - req.swDescIdx, cfg.descMax);
      xfer.Reset(descIdx);
      if descIdx + n >= cfg.descMax {
        n := cfg.descMax - descIdx;
      }
      var first := descIdx;
      WriteChain(req, xfer, n);
      xfer.descAdjacent, xfer.descNum := n, n;
      xfer.descCmplTh := if cfg.eopFlush then 1 else n;
      descIdx := (first + n) % cfg.descMax;
      descUsed := descUsed + n;
    }

    /** The ring writes of transfer_init, in its order: link, fill, flag, count. */
    method WriteChain(req: RequestCb, xfer: Transfer, n: nat)
      requires Valid() && 1 <= n && xfer.descIndex + n <= cfg.descMax
      requires req.swDescIdx + n <= req.swDescCnt <= req.sdesc.Length
      requires req.epAddr < 0x1_0000_0000_0000_0000 && xfer.len == 0
      modifies desc, results, req`epAddr, req`swDescIdx, xfer`len
      ensures var pieces := old(req.sdesc[req.swDescIdx..req.swDescIdx + n]);
              && ChainAt(cfg, desc[..], xfer.descIndex, pieces, old(req.epAddr))
              && req.epAddr == EpAfter(cfg, pieces, old(req.epAddr)) && xfer.len == U32(Total(pieces))
      ensures req.swDescIdx == old(req.swDescIdx) + n
      ensures SameOutside(old(desc[..]), desc[..], xfer.descIndex, n)
      ensures SameOutside(old(results[..]), results[..], xfer.descIndex, n)
    {
      var first := xfer.descIndex;
      ghost var pieces, ep0 := req.sdesc[req.swDescIdx..req.swDescIdx + n], req.epAddr;
      DescInit(first, n);
      ghost var linked := desc[..];
      assert req.sdesc[req.swDescIdx..req.swDescIdx + n] == pieces;
      Build(req, xfer, n);
      ghost var filled := desc[..];
      MarkFlags(first, n);
      ghost var flagged := desc[..];
      FillAdjacent(first, n);
      hide Blanked, FilledAt, Flagged, Counted, Built, EpAt;
      StagesBuildChain(cfg, first, pieces, ep0, old(desc[..]), linked, filled, flagged, desc[..]);
    }

    // -------------------------------------------------------------- the transfer queue

    ghost predicate ValidQueue()
      reads `descIdx, `transferList, transferList`descIndex, transferList`descNum
    {
      && Valid()
      && Separate(transferList)
      && InBounds(transferList, cfg.descMax)
    }

    ghost function View(): Engine
      reads `transferList, `running, `descDequeued, `shutRequest, `shutIdle, transferList
    {
      Engine(Views(transferList), running, descDequeued, cfg.eopFlush, shutRequest, shutIdle)
    }

    /** engine_start. */
    method EngineStart() returns (started: Transfer?)
      requires Valid()
      modifies `running, `descDequeued, `shutRequest, `shutIdle, `firstDescLo, `firstDescHi, `firstDescAdjacent
      ensures started == if old(running) || transferList == [] then null else transferList[0]
      ensures View() == if old(running) || transferList == [] then old(View()) else Start(old(View()))
      ensures started != null ==>
                && Join(firstDescLo, firstDescHi) == U64(DescAddr(cfg, started.descIndex))
                && firstDescAdjacent == GetNextAdj(started.descAdjacent, Lo(DescAddr(cfg, started.descIndex)))
    {
      if running {
        return null;
      }
      if transferList == [] {
        return null;
      }
      var transfer := transferList[0];
      shutRequest, shutIdle := false, false;
      descDequeued := 0;
      var bus := DescAddr(cfg, transfer.descIndex);
      firstDescLo, firstDescHi := Lo(bus), Hi(bus);
      firstDescAdjacent := GetNextAdj(transfer.descAdjacent, Lo(bus));
      JoinHalves(bus);
      running := true;
      return transfer;
    }

    /** transfer_queue. */
    method TransferQueue(x: Transfer, offline: bool) returns (rv: int)
      requires ValidQueue() && x !in transferList && x.descIndex + x.descNum <= cfg.descMax
      modifies `transferList, `running, `descDequeued, `shutRequest, `shutIdle,
               `firstDescLo, `firstDescHi, `firstDescAdjacent, x`state
      ensures ValidQueue()
      ensures rv == if x.descNum == 0 then -EINVAL else if offline || old(shutRequest) then -EBUSY else 0
      ensures rv == 0 ==>
                && transferList == old(transferList) + [x]
                && x.View() == old(x.View()).(state := Submitted)
                && View() == Enqueue(old(View()), old(x.View()))
      ensures rv != 0 ==> transferList == old(transferList) && View() == old(View()) && x.View() == old(x.View())
    {
      if x.descNum == 0 {
        return -EINVAL;
      }
      if offline {
        return -EBUSY;
      }
      if shutRequest {
        return -EBUSY;
      }
      hide Views, Separate, InBounds;
      SnocOk(transferList, x, cfg.descMax);
      QueueTail(x);
      rv := 0;
    }

    /** The accepted part of transfer_queue: append, and start an idle engine. */
    method QueueTail(x: Transfer)
      requires Valid() && !shutRequest && x !in transferList
      modifies `transferList, `running, `descDequeued, `shutRequest, `shutIdle,
               `firstDescLo, `firstDescHi, `firstDescAdjacent, x`state
      ensures transferList == old(transferList) + [x]
      ensures x.View() == old(x.View()).(state := Submitted)
      ensures View() == Enqueue(old(View()), old(x.View()))
    {
      hide Views;
      x.state := Submitted;
      transferList := transferList + [x];
      assert Views(transferList) == old(Views(transferList)) + [x.View()];
      if !running {
        var started := EngineStart();
        assert started != null;
      }
    }

    /** engine_transfer_completion. */
    method Complete(x: Transfer)
      modifies `ioDone
      ensures ioDone == old(ioDone) + CallbackOf(x.View())
    {
      if x.cb.Some? && x.lastInRequest {
        ioDone := ioDone + [x.cb.value];
      }
    }

    /** The list loop after k turns: k transfers have left as `t` says, the others are untouched. */
    ghost predicate ListLoop(q: seq<Transfer>, views: seq<Xfer>, t: (seq<Xfer>, seq<Xfer>, nat), k: nat, c: nat,
                             dequeued: nat, io: seq<nat>)
      reads this, q
    {
      && k <= |t.0| <= |q| == |views|
      && transferList == q[k..]
      && Views(q) == t.0[..k] + views[k..]
      && RetireList(views[k..], c) == (t.0[k..], t.1, t.2)
      && descDequeued == dequeued + Sum(Nums(t.0[..k]))
      && ioDone == io + Callbacks(t.0[..k])
    }

    /** One turn of the list loop: the head leaves as completed. */
    method RetireHead(transfer: Transfer, c: nat, ghost q: seq<Transfer>, ghost views: seq<Xfer>,
                      ghost t: (seq<Xfer>, seq<Xfer>, nat), ghost k: nat, ghost dequeued: nat, ghost io: seq<nat>)
      returns (next: Transfer?, left: nat)
      requires ListLoop(q, views, t, k, c, dequeued, io)
      requires Separate(q)
      requires transferList != [] && transfer == transferList[0] && !transfer.cyclic && c > transfer.descNum
      modifies `transferList, `descDequeued, `ioDone, transfer`state
      ensures left == c - transfer.descNum && k < |q|
      ensures ListLoop(q, views, t, k + 1, left, dequeued, io)
      ensures next == if transferList == [] then null else transferList[0]
    {
      hide Views;
      ghost var before := Views(q);
      assert transfer == q[k] && before[k] == views[k..][0] == views[k];
      RetireStep(views, c, k, t);
      left := c - transfer.descNum;
      transferList := transferList[1..];
      descDequeued := descDequeued + transfer.descNum;
      transfer.state := Completed;
      Complete(transfer);
      next := if transferList != [] then transferList[0] else null;
      hide Views, RetireList, Sum, Nums, Callbacks, CallbackOf;
      assert Views(q) == before[k := t.0[k]];
      assert before[k := t.0[k]] == t.0[..k + 1] + views[k + 1..];
    }

    /** engine_service_transfer_list. */
    method ServiceTransferList(head: Transfer?, completed: nat) returns (transfer: Transfer?, c: nat)
      requires ValidQueue() && head == if transferList == [] then null else transferList[0]
      modifies `transferList, `descDequeued, `ioDone, transferList`state
      ensures var q, t := old(transferList), RetireList(old(Views(transferList)), completed);
              && |t.0| <= |q| && transferList == q[|t.0|..]
              && Views(q) == t.0 + t.1 && c == t.2
              && descDequeued == old(descDequeued) + Sum(Nums(t.0))
              && ioDone == old(ioDone) + Callbacks(t.0)
      ensures transfer == if transferList == [] then null else transferList[0]
      ensures ValidQueue()
    {
      hide Views, Separate, InBounds, RetireList, Sum, Nums, Callbacks;
      ghost var q, views := transferList, Views(transferList);
      ghost var t := RetireList(views, completed);
      ListStart(views, completed, t);
      assert transferList == q[0..] && Views(q) == [] + views[0..];
      assert ListLoop(q, views, t, 0, completed, descDequeued, ioDone);
      ghost var k;
      transfer, c, k := RunList(head, completed, q, views, t);
      RetireEnd(views, c, k, t);
      SuffixOk(q, k, cfg.descMax);
    }

    method RunList(head: Transfer?, completed: nat, ghost q: seq<Transfer>, ghost views: seq<Xfer>,
                   ghost t: (seq<Xfer>, seq<Xfer>, nat))
      returns (transfer: Transfer?, c: nat, ghost k: nat)
      requires Separate(q) && q == transferList && ListLoop(q, views, t, 0, completed, descDequeued, ioDone)
      requires head == if transferList == [] then null else transferList[0]
      modifies `transferList, `descDequeued, `ioDone, transferList`state
      ensures ListLoop(q, views, t, k, c, old(descDequeued), old(ioDone))
      ensures transfer == if transferList == [] then null else transferList[0]
      ensures k == |views| || views[k].cyclic || c <= views[k].ticket.num
    {
      hide RetireList, Sum, Nums, Callbacks, Views, Separate;
      transfer, c, k := head, completed, 0;
      while transfer != null && !transfer.cyclic && c > transfer.descNum
        invariant ListLoop(q, views, t, k, c, old(descDequeued), old(ioDone))
        invariant transfer == if transferList == [] then null else transferList[0]
        decreases |q| - k
      {
        transfer, c := RetireHead(transfer, c, q, views, t, k, old(descDequeued), old(ioDone));
        k := k + 1;
      }
      assert k < |q| ==> q[k] == transferList[0] && Views(q)[k] == views[k];
    }

    /** The result write-backs of one transfer. */
    ghost function ResultsOf(x: Transfer): seq<Result>
      requires Valid() && x.descIndex + x.descNum <= cfg.descMax
      reads `descIdx, x`descIndex, x`descNum, results
    {
      results[..][x.descIndex..x.descIndex + x.descNum]
    }

    /** The search for a packet end among the completed descriptors of a transfer. */
    method FindEop(x: Transfer, c: nat) returns (found: bool)
      requires Valid() && x.descIndex + x.descNum <= cfg.descMax && c < x.descNum
      ensures found <==> exists k :: x.descIndex <= k < x.descIndex + c && results[k].eop
      ensures found <==> HasEop(ResultsOf(x), c)
    {
      ghost var rs := ResultsOf(x);
      for i := 0 to c
        invariant forall k :: x.descIndex <= k < x.descIndex + i ==> !results[k].eop
        invariant forall k :: 0 <= k < i ==> !rs[k].eop
      {
        assert results[x.descIndex + i] == rs[i];
        if results[x.descIndex + i].eop {
          return true;
        }
      }
      return false;
    }

    /** engine_service_final_transfer on a queued transfer. */
    method ServiceFinal(transfer: Transfer, c: nat, error: bool)
      requires ValidQueue() && transferList != [] && transfer == transferList[0]
      modifies `transferList, `descDequeued, `ioDone, `running, transfer`state, transfer`descCmpl, transfer`eopReceived
      ensures var v := Judge(old(transfer.View()), c, cfg.eopFlush, error, old(ResultsOf(transfer)));
              && transfer.View() == v.x
              && (v.Keep? ==> transferList == old(transferList) && ioDone == old(ioDone)
                              && View() == old(View()).(queue := [v.x] + old(View()).queue[1..]))
              && (v.Remove? ==> transferList == old(transferList)[1..] && ioDone == old(ioDone) + CallbackOf(v.x)
                                && View() == old(View()).(queue := old(View()).queue[1..],
                                                          running := old(running) && !v.stop,
                                                          dequeued := old(descDequeued) + v.dequeue))
    {
      hide Views;
      ghost var q, views := transferList, Views(transferList);
      ViewsFrom(q, 1);
      JudgeHead(transfer, c, error);
      assert Views(q) == views[0 := transfer.View()];
      ViewsFrom(q, 1);
    }

    /** The branches of engine_service_final_transfer. */
    method JudgeHead(transfer: Transfer, c: nat, error: bool)
      requires ValidQueue() && transferList != [] && transfer == transferList[0]
      modifies `transferList, `descDequeued, `ioDone, `running, transfer`state, transfer`descCmpl, transfer`eopReceived
      ensures var v := Judge(old(transfer.View()), c, cfg.eopFlush, error, old(ResultsOf(transfer)));
              && transfer.View() == v.x
              && (v.Keep? ==> transferList == old(transferList) && descDequeued == old(descDequeued)
                              && running == old(running) && ioDone == old(ioDone))
              && (v.Remove? ==> transferList == old(transferList)[1..] && descDequeued == old(descDequeued) + v.dequeue
                                && running == (old(running) && !v.stop) && ioDone == old(ioDone) + CallbackOf(v.x))
    {
      if error {
        transfer.state := Failed;
        running := false;
      } else if c < transfer.descNum {
        if cfg.eopFlush {
          var found := FindEop(transfer, c);
          if found {
            transfer.eopReceived := true;
          }
          transfer.descCmpl := c;
          if !transfer.eopReceived {
            return;
          }
          running := false;
          transfer.state := Completed;
          descDequeued := descDequeued + transfer.descCmpl;
        } else {
          transfer.state := Failed;
          descDequeued := descDequeued + transfer.descNum;
          transfer.descCmpl := c;
        }
      } else {
        transfer.state := Completed;
        transfer.descCmpl := transfer.descNum;
        descDequeued := descDequeued + transfer.descNum;
      }
      transferList := transferList[1..];
      Complete(transfer);
    }

    /** engine_service_resume. */
    method ServiceResume()
      requires Valid()
      modifies `running, `descDequeued, `shutRequest, `shutIdle, `firstDescLo, `firstDescHi, `firstDescAdjacent
      ensures View() == Resume(old(View()), [], false).eng
    {
      if !running {
        if transferList != [] {
          var started := EngineStart();
          assert started != null;
        } else if shutRequest {
          shutIdle := true;
        }
      } else if transferList == [] {
        running := false;
      }
    }

    /** The engine is as `e` says, the transfers at the front of `q` have left it as `retired`
        says, the rest of `q` is still queued, and the callbacks of the retired ones were called. */
    ghost predicate Shows(q: seq<Transfer>, e: Engine, retired: seq<Xfer>, io: seq<nat>)
      reads this, q, transferList
    {
      && View() == e
      && |retired| <= |q| && transferList == q[|retired|..]
      && (forall i :: 0 <= i < |retired| ==> q[i].View() == retired[i])
      && ioDone == io + Callbacks(retired)
    }

    /** The first half of a pass: the list loop on the whole queue. */
    method DrainList(completed: nat) returns (transfer: Transfer?, c: nat)
      requires ValidQueue()
      modifies `transferList, `descDequeued, `ioDone, transferList`state
      ensures ValidQueue()
      ensures var q, e := old(transferList), old(View());
              var t := RetireList(e.queue, completed);
              && Shows(q, e.(queue := t.1, dequeued := e.dequeued + Sum(Nums(t.0))), t.0, old(ioDone))
              && c == t.2
              && (t.1 == [] <==> transfer == null)
              && (transfer != null ==> |t.0| < |q| && transfer == q[|t.0|] && transfer.View() == t.1[0])
              && Separate(q)
    {
      hide Views, RetireList, Sum, Nums, Callbacks, Separate, InBounds;
      ghost var q, t := transferList, RetireList(View().queue, completed);
      var head := if transferList != [] then transferList[0] else null;
      transfer, c := ServiceTransferList(head, completed);
      ViewsFrom(q, |t.0|);
      assert Views(q)[|t.0|..] == t.1;
    }

    /** `seen` is what the pass found in the result ring for the transfer it judged, the k-th of q. */
    ghost predicate SeenAt(q: seq<Transfer>, k: nat, seen: seq<Result>)
      reads `descIdx, q`descIndex, q`descNum, results
    {
      Valid() && InBounds(q, cfg.descMax) && seen == if k < |q| then ResultsOf(q[k]) else []
    }

    /** The list loop followed by the judgement of the next transfer. */
    method ServiceQueue(completed: nat, error: bool) returns (ghost seen: seq<Result>)
      requires ValidQueue()
      modifies `transferList, `descDequeued, `ioDone, `running, transferList`state, transferList`descCmpl,
               transferList`eopReceived
      ensures var q, e := old(transferList), old(View());
              var d := Drain(e, completed, error, seen);
              Shows(q, d.0, d.1, old(ioDone)) && SeenAt(q, |RetireList(e.queue, completed).0|, seen)
      ensures ValidQueue()
    {
      hide ResultsOf, Views, Drain, RetireList, Sum, Nums, Callbacks, Judge, Separate, InBounds;
      ghost var q, e, io := transferList, View(), ioDone;
      assert InBounds(q, cfg.descMax);
      var transfer, c := DrainList(completed);
      if transfer != null {
        seen := SettleHead(transfer, c, error, completed, q, e, io);
      } else {
        seen := [];
        DrainCases(e, completed, error, seen);
      }
    }

    /** The second half of a pass, from the engine `e` that the pass found. */
    method SettleHead(transfer: Transfer, c: nat, error: bool, ghost completed: nat, ghost q: seq<Transfer>,
                      ghost e: Engine, ghost io: seq<nat>)
      returns (ghost seen: seq<Result>)
      requires ValidQueue() && Separate(q) && InBounds(q, cfg.descMax) && e.eopFlush == cfg.eopFlush
      requires var t := RetireList(e.queue, completed);
               && Shows(q, e.(queue := t.1, dequeued := e.dequeued + Sum(Nums(t.0))), t.0, io)
               && c == t.2 && t.1 != [] && |t.0| < |q| && transfer == q[|t.0|] && transfer.View() == t.1[0]
      modifies `transferList, `descDequeued, `ioDone, `running, transfer`state, transfer`descCmpl, transfer`eopReceived
      ensures ValidQueue()
      ensures var d := Drain(e, completed, error, seen); Shows(q, d.0, d.1, io)
      ensures SeenAt(q, |RetireList(e.queue, completed).0|, seen)
    {
      hide ResultsOf, Views, Drain, RetireList, Sum, Nums, Callbacks, Judge, Separate, Shows;
      ghost var t := RetireList(e.queue, completed);
      seen := ResultsOf(transfer);
      hide ValidQueue, InBounds;
      DrainCases(e, completed, error, seen);
      JudgeNext(transfer, c, error, q, e.(queue := t.1, dequeued := e.dequeued + Sum(Nums(t.0))), t.0, io,
                Drain(e, completed, error, seen));
    }

    /** The judgement of the next transfer after some retired ones: `d` is the outcome. */
    method JudgeNext(transfer: Transfer, c: nat, error: bool, ghost q: seq<Transfer>, ghost e: Engine,
                     ghost done: seq<Xfer>,
                     ghost io: seq<nat>, ghost d: (Engine, seq<Xfer>))
      requires ValidQueue() && Separate(q) && Shows(q, e, done, io) && |done| < |q| && transfer == q[|done|]
      requires var v := Judge(transfer.View(), c, cfg.eopFlush, error, ResultsOf(transfer));
               d == match v
                    case Keep(x) => (e.(queue := [x] + e.queue[1..]), done)
                    case Remove(x, stop, n) => (e.(queue := e.queue[1..], running := e.running && !stop,
                                                   dequeued := e.dequeued + n), done + [x])
      modifies `transferList, `descDequeued, `ioDone, `running, transfer`state, transfer`descCmpl, transfer`eopReceived
      ensures ValidQueue()
      ensures Shows(q, d.0, d.1, io)
    {
      hide Views, Judge, InBounds, CallbackOf, Callbacks;
      ghost var k := |done|;
      assert q[k..][1..] == q[k + 1..];
      SuffixOk(transferList, 1, cfg.descMax);
      ServiceFinal(transfer, c, error);
      CallbacksSnoc(done, transfer.View());
    }

    /** A pass on a running engine with a non-zero count. */
    method ServicePass(busy: bool, error: bool, count: nat) returns (ghost seen: seq<Result>)
      requires ValidQueue() && running && count > 0
      modifies `transferList, `descDequeued, `ioDone, `running, `shutRequest, `shutIdle,
               `firstDescLo, `firstDescHi, `firstDescAdjacent, transferList`state, transferList`descCmpl,
               transferList`eopReceived
      ensures var q, e := old(transferList), old(View());
              var o := Service(e, Reading(busy, error, count, seen));
              Shows(q, o.eng, o.retired, old(ioDone))
                && SeenAt(q, |RetireList(e.queue, U32(count - e.dequeued)).0|, seen)
      ensures ValidQueue()
    {
      hide Drain, Service, ResultsOf, RetireList, Resume, U32, Views, Separate, InBounds, Callbacks, SeenAt, Shows;
      ghost var e := View();
      running := busy;
      ghost var q, io := transferList, ioDone;
      seen := ServiceQueue(U32(count - descDequeued), error);
      ServiceDrains(e, Reading(busy, error, count, seen));
      ghost var d := Drain(e.(running := busy), U32(count - e.dequeued), error, seen);
      ResumeAfter(q, d.0, d.1, io);
    }

    /** engine_service_resume at the end of a pass. */
    method ResumeAfter(ghost q: seq<Transfer>, ghost e: Engine, ghost retired: seq<Xfer>, ghost io: seq<nat>)
      requires ValidQueue() && Shows(q, e, retired, io)
      modifies `running, `descDequeued, `shutRequest, `shutIdle, `firstDescLo, `firstDescHi, `firstDescAdjacent
      ensures ValidQueue() && Shows(q, Resume(e, [], false).eng, retired, io)
    {
      hide Resume, Callbacks, Separate, InBounds;
      ServiceResume();
    }

    /** engine_service from the interrupt handler: `busy`, `error` and `count` are what the status
        and completed-descriptor registers read. */
    method EngineService(busy: bool, error: bool, count: nat) returns (ghost seen: seq<Result>)
      requires ValidQueue()
      modifies `transferList, `descDequeued, `ioDone, `running, `shutRequest, `shutIdle,
               `firstDescLo, `firstDescHi, `firstDescAdjacent, transferList`state, transferList`descCmpl,
               transferList`eopReceived
      ensures var q, e := old(transferList), old(View());
              var o := Service(e, Reading(busy, error, count, seen));
              && Shows(q, o.eng, o.retired, old(ioDone))
              && (e.running && count > 0 ==> SeenAt(q, |RetireList(e.queue, U32(count - e.dequeued)).0|, seen))
      ensures ValidQueue()
    {
      hide Views, Service, RetireList, Separate, InBounds;
      seen := [];
      if !running {
        ServiceIdle(View(), Reading(busy, error, count, seen));
      } else if count > 0 {
        seen := ServicePass(busy, error, count);
      } else {
        ServiceIdle(View(), Reading(busy, error, count, seen));
        if !busy {
          running := false;
        }
      }
    }
  }

  ghost predicate Separate(q: seq<Transfer>) {
    forall i, j :: 0 <= i < j < |q| ==> q[i] != q[j]
  }

  ghost predicate InBounds(q: seq<Transfer>, max: nat)
    reads q`descIndex, q`descNum
  {
    forall x :: x in q ==> x.descIndex + x.descNum <= max
  }

  lemma SnocOk(q: seq<Transfer>, x: Transfer, max: nat)
    requires Separate(q) && InBounds(q, max) && x !in q && x.descIndex + x.descNum <= max
    ensures Separate(q + [x]) && InBounds(q + [x], max)
  {
  }

  lemma SuffixOk(q: seq<Transfer>, k: nat, max: nat)
    requires k <= |q| && Separate(q) && InBounds(q, max)
    ensures Separate(q[k..]) && InBounds(q[k..], max)
  {
  }

  ghost function Views(q: seq<Transfer>): (r: seq<Xfer>)
    reads q
    ensures |r| == |q|
    ensures forall i :: 0 <= i < |q| ==> r[i] == q[i].View()
  {
    if q == [] then [] else [q[0].View()] + Views(q[1..])
  }

  /** The four passes over the ring leave the finished chain. */
  lemma StagesBuildChain(c: Config, first: nat, pieces: seq<Extent>, ep: nat,
                         before: seq<Desc>, linked: seq<Desc>, filled: seq<Desc>, flagged: seq<Desc>, after: seq<Desc>)
    requires 1 <= |pieces| && first + |pieces| <= c.descMax
    requires |before| == |linked| == |filled| == |flagged| == |after| == c.descMax
    requires forall k :: first <= k < first + |pieces| ==>
               linked[k] == Blanked(c, first, |pieces|, k - first, before[k])
    requires forall k :: first <= k < first + |pieces| ==> filled[k] == FilledAt(c, first, pieces, ep, k, linked[k])
    requires forall k :: first <= k < first + |pieces| ==> flagged[k] == Flagged(c, |pieces|, k - first, filled[k])
    requires forall k :: first <= k < first + |pieces| ==> after[k] == Counted(|pieces|, k - first, flagged[k])
    ensures ChainAt(c, after, first, pieces, ep)
  {
    forall i | 0 <= i < |pieces|
      ensures after[first + i] == Built(c, first, |pieces|, i, pieces[i], EpAt(c, pieces, ep, i))
    {
      hide Blanked, Filled, Flagged, Counted, Built, EpAt;
      StepsBuild(c, first, |pieces|, i, pieces[i], EpAt(c, pieces, ep, i), before[first + i]);
    }
  }

  lemma {:induction false} RetireListSizes(q: seq<Xfer>, c: nat)
    ensures var t := RetireList(q, c);
            |t.0| <= |q| && t.1 == q[|t.0|..]
    decreases |q|
  {
    if q != [] && !q[0].cyclic && c > q[0].ticket.num {
      RetireListSizes(q[1..], c - q[0].ticket.num);
    }
  }

  lemma ViewsFrom(q: seq<Transfer>, k: nat)
    requires k <= |q|
    ensures Views(q[k..]) == Views(q)[k..]
  {
    hide Views;
  }

  lemma ListStart(views: seq<Xfer>, c: nat, t: (seq<Xfer>, seq<Xfer>, nat))
    requires t == RetireList(views, c)
    ensures |t.0| <= |views| && t.0[..0] == []
    ensures RetireList(views[0..], c) == (t.0[0..], t.1, t.2)
    ensures Sum(Nums(t.0[..0])) == 0 && Callbacks(t.0[..0]) == []
  {
    RetireListSizes(views, c);
    assert views[0..] == views && t.0[0..] == t.0;
  }

  lemma RetireStep(views: seq<Xfer>, c: nat, k: nat, t: (seq<Xfer>, seq<Xfer>, nat))
    requires k < |views| && k <= |t.0| && RetireList(views[k..], c) == (t.0[k..], t.1, t.2)
    requires !views[k].cyclic && c > views[k].ticket.num
    ensures k < |t.0| && t.0[k] == views[k].(state := Completed)
    ensures RetireList(views[k + 1..], c - views[k].ticket.num) == (t.0[k + 1..], t.1, t.2)
    ensures Sum(Nums(t.0[..k + 1])) == Sum(Nums(t.0[..k])) + views[k].ticket.num
    ensures Callbacks(t.0[..k + 1]) == Callbacks(t.0[..k]) + CallbackOf(t.0[k])
  {
    assert views[k..][1..] == views[k + 1..];
    var r := RetireList(views[k + 1..], c - views[k].ticket.num);
    assert t.0[k..] == [views[k].(state := Completed)] + r.0;
    assert t.0[k..][0] == t.0[k] && t.0[k..][1..] == t.0[k + 1..];
    assert t.0[..k + 1] == t.0[..k] + [t.0[k]];
    assert Nums(t.0[..k + 1]) == Nums(t.0[..k]) + [views[k].ticket.num];
    SumSnoc(Nums(t.0[..k]), views[k].ticket.num);
    CallbacksSnoc(t.0[..k], t.0[k]);
  }

  lemma RetireEnd(views: seq<Xfer>, c: nat, k: nat, t: (seq<Xfer>, seq<Xfer>, nat))
    requires k <= |views| && k <= |t.0| && RetireList(views[k..], c) == (t.0[k..], t.1, t.2)
    requires k == |views| || views[k].cyclic || c <= views[k].ticket.num
    ensures k == |t.0| && t.1 == views[k..] && t.2 == c && t.0[..k] == t.0
  {
  }

  /** The first j descriptors of a chain are filled, and no other. */
  ghost predicate FilledTo(c: Config, first: nat, pieces: seq<Extent>, ep: nat, was: seq<Desc>, now: seq<Desc>,
                           j: nat) {
    && j <= |pieces| && SameOutside(was, now, first, j) && first + j <= |now|
    && forall k :: first <= k < first + j ==> now[k] == FilledAt(c, first, pieces, ep, k, was[k])
  }

  lemma FilledMore(c: Config, first: nat, pieces: seq<Extent>, ep: nat, was: seq<Desc>, now: seq<Desc>, j: nat)
    requires FilledTo(c, first, pieces, ep, was, now, j) && j < |pieces| && first + j < |now|
    ensures FilledTo(c, first, pieces, ep, was,
                     now[first + j := Filled(c, first + j, pieces[j], EpAt(c, pieces, ep, j), now[first + j])], j + 1)
  {
    hide Filled, EpAt;
  }

  /** The first j result slots of a chain are cleared, if at all, and no other. */
  ghost predicate ClearedTo(clears: bool, first: nat, was: seq<Result>, now: seq<Result>, j: nat) {
    && SameOutside(was, now, first, j) && first + j <= |now|
    && if clears then forall k :: first <= k < first + j ==> now[k] == Result(false, 0) else now == was
  }

  lemma ClearedMore(clears: bool, first: nat, was: seq<Result>, now: seq<Result>, j: nat)
    requires ClearedTo(clears, first, was, now, j) && first + j < |now|
    ensures ClearedTo(clears, first, was, if clears then now[first + j := Result(false, 0)] else now, j + 1)
  {
  }

  lemma NothingCleared(clears: bool, first: nat, was: seq<Result>)
    requires first <= |was|
    ensures ClearedTo(clears, first, was, was, 0)
  {
  }

  lemma BuildStart(c: Config, pieces: seq<Extent>, ep: nat, first: nat, was: seq<Desc>)
    requires first <= |was| && ep < 0x1_0000_0000_0000_0000
    ensures EpAt(c, pieces, ep, 0) == ep && U32(0) == 0 && Sum(Lens(pieces)[..0]) == 0
    ensures FilledTo(c, first, pieces, ep, was, was, 0)
  {
  }

  lemma BuildStep(c: Config, pieces: seq<Extent>, ep: nat, j: nat)
    requires j < |pieces| && ep < 0x1_0000_0000_0000_0000
    ensures EpAt(c, pieces, ep, j + 1)
            == if c.nonIncr then EpAt(c, pieces, ep, j) else U64(EpAt(c, pieces, ep, j) + pieces[j].len)
    ensures U32(Sum(Lens(pieces)[..j + 1])) == U32(U32(Sum(Lens(pieces)[..j])) + pieces[j].len)
  {
    SumTake(Lens(pieces), j);
    U64Add(ep + Sum(Lens(pieces)[..j]), pieces[j].len);
    U32Add(Sum(Lens(pieces)[..j]), pieces[j].len);
  }

  lemma BuildEnd(c: Config, pieces: seq<Extent>, ep: nat)
    ensures EpAt(c, pieces, ep, |pieces|) == EpAfter(c, pieces, ep) && Sum(Lens(pieces)[..|pieces|]) == Total(pieces)
  {
    assert Lens(pieces)[..|pieces|] == Lens(pieces);
  }
}
