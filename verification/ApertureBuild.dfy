/** The build loop of an aperture transfer, and what its chains copy (xdma_xfer_aperture). */
module ApertureBuild {
  import opened Words
  import opened LinearCopy
  import opened Descriptors
  import opened Chains
  import opened LibXdma
  import opened Aperture
  import opened AperturePasses
  import opened ApertureRuns

  /** struct xdma_request_cb, as far as an aperture transfer uses it. */
  class ApertureCb {
    const sgl: seq<Extent>
    const epAddr: nat
    const aperture: nat
    var offset: nat
    var sgIdx: nat
    var sgOffset: nat

    constructor (sgl: seq<Extent>, epAddr: nat, aperture: nat)
      ensures this.sgl == sgl && this.epAddr == epAddr && this.aperture == aperture
      ensures offset == sgIdx == sgOffset == 0
    {
      this.sgl, this.epAddr, this.aperture := sgl, epAddr, aperture;
      offset, sgIdx, sgOffset := 0, 0, 0;
    }

    function JobOf(blenMax: nat): Job { Job(sgl, epAddr, aperture, blenMax) }

    /** The state of the loop, with this much room before the end of the ring. */
    function At(room: nat): Progress
      reads `offset, `sgIdx, `sgOffset
    {
      Progress(offset, sgIdx, sgOffset, room)
    }

    ghost predicate Valid(blenMax: nat)
      reads `offset, `sgIdx, `sgOffset
    {
      ValidJob(JobOf(blenMax)) && ValidProgress(JobOf(blenMax), At(1))
    }
  }

  /** The running endpoint address stands for request byte `offset`; at the end of the window
      it is one past the last address. */
  ghost predicate EpAt(epAddr: nat, base: nat, aperture: nat, offset: nat)
    requires aperture > 0
  {
    if epAddr == base + aperture then offset % aperture == 0 else epAddr == base + offset % aperture
  }

  lemma AdvanceInWindow(base: nat, aperture: nat, offset: nat, n: nat)
    requires aperture > 0 && offset % aperture + n <= aperture
    ensures EpAt(base + offset % aperture + n, base, aperture, offset + n)
  {
    if offset % aperture + n < aperture {
      WithinWindow(offset, n, aperture);
    } else {
      assert offset == aperture * (offset / aperture) + offset % aperture;
      DivUnique(offset + n, aperture, offset / aperture + 1, 0);
    }
  }

  /** Ring entries [first, first+|ws|) hold the addresses of the windows. */
  ghost predicate AddressedBy(c: Config, was: seq<Desc>, now: seq<Desc>, first: nat, ws: seq<Window>) {
    && |was| == |now| && first + |ws| <= |now|
    && forall k :: first <= k < first + |ws| ==>
         now[k] == Addressed(c, ws[k - first].host, ws[k - first].ep, ws[k - first].len, was[k])
  }

  lemma AddressedSnoc(c: Config, was: seq<Desc>, before: seq<Desc>, now: seq<Desc>, first: nat, ws: seq<Window>,
                      w: Window)
    requires AddressedBy(c, was, before, first, ws) && SameOutside(was, before, first, |ws|)
    requires first + |ws| < |was|
             && now == before[first + |ws| := Addressed(c, w.host, w.ep, w.len, before[first + |ws|])]
    ensures AddressedBy(c, was, now, first, ws + [w]) && SameOutside(was, now, first, |ws| + 1)
  {
  }

  lemma AddressedJoin(c: Config, was: seq<Desc>, mid: seq<Desc>, now: seq<Desc>, first: nat, a: seq<Window>,
                      b: seq<Window>)
    requires AddressedBy(c, was, mid, first, a) && SameOutside(was, mid, first, |a|)
    requires AddressedBy(c, mid, now, first + |a|, b) && SameOutside(mid, now, first + |a|, |b|)
    ensures AddressedBy(c, was, now, first, a + b) && SameOutside(was, now, first, |a| + |b|)
  {
  }

  ghost predicate FilledSoFar(c: Config, was: seq<Desc>, now: seq<Desc>, first: nat, ws: seq<Window>, bytes: nat) {
    AddressedBy(c, was, now, first, ws) && SameOutside(was, now, first, |ws|) && Total(HostOf(ws)) == bytes
  }

  lemma HostSnoc(ws: seq<Window>, w: Window)
    ensures Total(HostOf(ws + [w])) == Total(HostOf(ws)) + w.len
  {
    assert HostOf(ws + [w]) == HostOf(ws) + [Extent(w.host, w.len)];
    TotalConcat(HostOf(ws), [Extent(w.host, w.len)]);
    assert Lens([Extent(w.host, w.len)]) == [w.len];
    assert Sum([w.len]) == w.len + Sum([]);
  }

  lemma FillNothing(c: Config, was: seq<Desc>, first: nat, addr: nat)
    requires first <= |was| && addr < 0x1_0000_0000_0000_0000
    ensures FilledSoFar(c, was, was, first, [], 0) && U64(addr + 0) == addr
  {
  }

  lemma FillMore(c: Config, was: seq<Desc>, now: seq<Desc>, first: nat, ws: seq<Window>, bytes: nat, w: Window)
    requires FilledSoFar(c, was, now, first, ws, bytes) && first + |ws| < |now|
    ensures FilledSoFar(c, was, now[first + |ws| := Addressed(c, w.host, w.ep, w.len, now[first + |ws|])], first,
                        ws + [w], bytes + w.len)
  {
    AddressedSnoc(c, was, now, now[first + |ws| := Addressed(c, w.host, w.ep, w.len, now[first + |ws|])], first, ws, w);
    HostSnoc(ws, w);
  }

  /** One turn of the loop over an entry: back to the start of the window when it is used up,
      and no descriptor across its end. */
  method FillWindow(e: XdmaEngine, req: ApertureCb, addr: nat, left: nat, epAddr: nat, idx: nat, blenMax: nat,
                    ghost offset: nat)
    returns (n: nat, at: nat)
    requires e.Valid() && idx < e.cfg.descMax && req.Valid(blenMax) && left > 0
    requires EpAt(epAddr, req.epAddr, req.aperture, offset)
    modifies e.desc
    ensures at == req.epAddr + offset % req.aperture && n == PieceLen(offset, left, req.aperture, blenMax)
            && 1 <= n <= left
    ensures EpAt(at + n, req.epAddr, req.aperture, offset + n)
    ensures e.desc[..] == old(e.desc[..])[idx := Addressed(e.cfg, addr, at, n, old(e.desc[idx]))]
  {
    var epMax := req.epAddr + req.aperture - 1;
    at := if epAddr > epMax then req.epAddr else epAddr;
    n := Min(left, Min(req.aperture, blenMax));
    if at + n > epMax {
      n := epMax - at + 1;
    }
    AdvanceInWindow(req.epAddr, req.aperture, offset, n);
    e.desc[idx] := Addressed(e.cfg, addr, at, n, e.desc[idx]);
  }

  /** The loop over one scatter-list entry: it stops at the end of the entry or of the ring. */
  method FillEntry(e: XdmaEngine, req: ApertureCb, addr0: nat, len: nat, epStart: nat, start: nat, blenMax: nat,
                   ghost offset: nat)
    returns (moved: nat, epAddr: nat, idx: nat, ghost done: seq<Window>)
    requires e.Valid() && start < e.cfg.descMax && req.Valid(blenMax) && addr0 < 0x1_0000_0000_0000_0000
    requires EpAt(epStart, req.epAddr, req.aperture, offset)
    modifies e.desc
    ensures moved <= len
    ensures idx == start + |done| <= e.cfg.descMax
    ensures moved == len || idx == e.cfg.descMax
    ensures Fold(addr0, len, offset, req.epAddr, req.aperture, blenMax)
         == done + Fold(U64(addr0 + moved), len - moved, offset + moved, req.epAddr, req.aperture, blenMax)
    ensures EpAt(epAddr, req.epAddr, req.aperture, offset + moved)
    ensures FilledSoFar(e.cfg, old(e.desc[..]), e.desc[..], start, done, moved)
  {
    hide EpAt, FilledSoFar, Fold, PieceLen, U64, Addressed, PartOf;
    ghost var was, now := e.desc[..], e.desc[..];
    var addr, left := addr0, len;
    moved, epAddr, idx, done := 0, epStart, start, [];
    FillNothing(e.cfg, was, start, addr0);
    PartStart(addr0, len, offset, req.epAddr, req.aperture, blenMax);
    while left > 0
      invariant left == len - moved && moved <= len && addr == U64(addr0 + moved)
      invariant EpAt(epAddr, req.epAddr, req.aperture, offset + moved)
      invariant PartOf(addr0, len, offset, req.epAddr, req.aperture, blenMax, done, moved)
      invariant idx == start + |done| < e.cfg.descMax && e.desc[..] == now
      invariant FilledSoFar(e.cfg, was, now, start, done, moved)
      decreases left
    {
      var n, at := FillWindow(e, req, addr, left, epAddr, idx, blenMax, offset + moved);
      ghost var w := Window(addr, at, n);
      PartMore(addr0, len, offset, req.epAddr, req.aperture, blenMax, done, moved);
      FillMore(e.cfg, was, now, start, done, moved, w);
      U64Add(addr0 + moved, n);
      now, done := now[idx := Addressed(e.cfg, addr, at, n, now[idx])], done + [w];
      moved, epAddr, addr, left := moved + n, at + n, U64(addr + n), left - n;
      idx := idx + 1;
      if idx == e.cfg.descMax {
        break;
      }
    }
    PartIs(addr0, len, offset, req.epAddr, req.aperture, blenMax, done, moved);
  }

  /** `done` are the windows of the first `moved` bytes of an entry. */
  ghost predicate PartOf(addr: nat, len: nat, offset: nat, ep: nat, aperture: nat, blenMax: nat, done: seq<Window>,
                         moved: nat)
    requires aperture > 0 && blenMax > 0
  {
    && moved <= len
    && Fold(addr, len, offset, ep, aperture, blenMax)
    == done + Fold(U64(addr + moved), len - moved, offset + moved, ep, aperture, blenMax)
  }

  lemma PartIs(addr: nat, len: nat, offset: nat, ep: nat, aperture: nat, blenMax: nat, done: seq<Window>, moved: nat)
    requires aperture > 0 && blenMax > 0 && PartOf(addr, len, offset, ep, aperture, blenMax, done, moved)
    ensures moved <= len
    ensures Fold(addr, len, offset, ep, aperture, blenMax)
         == done + Fold(U64(addr + moved), len - moved, offset + moved, ep, aperture, blenMax)
  {
  }

  lemma PartStart(addr: nat, len: nat, offset: nat, ep: nat, aperture: nat, blenMax: nat)
    requires aperture > 0 && blenMax > 0 && addr < 0x1_0000_0000_0000_0000
    ensures PartOf(addr, len, offset, ep, aperture, blenMax, [], 0)
  {
    hide Fold;
    assert U64(addr + 0) == addr;
  }

  lemma PartMore(addr: nat, len: nat, offset: nat, ep: nat, aperture: nat, blenMax: nat, done: seq<Window>, moved: nat)
    requires aperture > 0 && blenMax > 0 && moved < len && PartOf(addr, len, offset, ep, aperture, blenMax, done, moved)
    ensures var n := PieceLen(offset + moved, len - moved, aperture, blenMax);
            var w := Window(U64(addr + moved), ep + (offset + moved) % aperture, n);
            PartOf(addr, len, offset, ep, aperture, blenMax, done + [w], moved + n)
  {
    hide Fold, U64, PieceLen;
    FoldStep(U64(addr + moved), len - moved, offset + moved, ep, aperture, blenMax);
    var n := PieceLen(offset + moved, len - moved, aperture, blenMax);
    var w := Window(U64(addr + moved), ep + (offset + moved) % aperture, n);
    U64Add(addr + moved, n);
    var rest := Fold(U64(addr + moved + n), len - moved - n, offset + moved + n, ep, aperture, blenMax);
    assert done + ([w] + rest) == (done + [w]) + rest;
  }

  lemma FillJoin(c: Config, was: seq<Desc>, mid: seq<Desc>, now: seq<Desc>, first: nat, a: seq<Window>,
                 b: seq<Window>, x: nat, y: nat)
    requires FilledSoFar(c, was, mid, first, a, x) && FilledSoFar(c, mid, now, first + |a|, b, y)
    ensures FilledSoFar(c, was, now, first, a + b, x + y)
  {
    AddressedJoin(c, was, mid, now, first, a, b);
    assert HostOf(a + b) == HostOf(a) + HostOf(b);
    TotalConcat(HostOf(a), HostOf(b));
  }

  // ---------------------------------------------------------------- along the scatter list

  /** After `bytes` bytes the walk from (0, k) has come to (sg, off). */
  ghost predicate Moved(list: seq<Extent>, k: nat, bytes: nat, sg: nat, off: nat) {
    forall x: nat, y: nat :: y == bytes + x ==> Move(list, 0, k, y) == Move(list, sg, off, x)
  }

  lemma MovedNext(list: seq<Extent>, k: nat, bytes: nat, sg: nat, off: nat)
    requires sg < |list| && Moved(list, k, bytes, sg, off)
    ensures Moved(list, k, bytes + U32(list[sg].len - off), sg + 1, 0)
  {
    hide U32;
    var left, next := U32(list[sg].len - off), sg + 1;
    forall x: nat
      ensures Move(list, 0, k, bytes + left + x) == Move(list, next, 0, x)
    {
      var y, z := bytes + left + x, left + x;
      assert Move(list, 0, k, y) == Move(list, sg, off, z);
    }
  }

  lemma MovedPart(list: seq<Extent>, k: nat, bytes: nat, sg: nat, off: nat, n: nat)
    requires sg < |list| && n < U32(list[sg].len - off) && Moved(list, k, bytes, sg, off)
    ensures Move(list, 0, k, bytes + n) == (sg, U32(off + n))
  {
    var y := bytes + n;
    assert Move(list, 0, k, y) == Move(list, sg, off, n);
  }

  /** Between two entries, the second of which is not empty, or behind the last. */
  lemma MovedRest(list: seq<Extent>, k: nat, bytes: nat, sg: nat, off: nat)
    requires Moved(list, k, bytes, sg, off)
    requires if sg < |list| then off == 0 < list[sg].len < 0x1_0000_0000 else sg == |list|
    ensures Move(list, 0, k, bytes) == (sg, off)
  {
    if sg < |list| {
      NoWrap32(list[sg].len);
      MovedPart(list, k, bytes, sg, 0, 0);
    } else {
      var y := bytes + 0;
      assert Move(list, 0, k, y) == Move(list, sg, off, 0);
    }
  }

  /** What the walk has still to build when it comes to an entry. */
  lemma EntryRest(list: seq<Extent>, sg: nat, off: nat, at: nat, ep: nat, aperture: nat, blenMax: nat)
    requires aperture > 0 && blenMax > 0 && sg < |list|
    requires forall i :: 0 <= i < |list| ==> list[i].addr < 0x1_0000_0000_0000_0000 && list[i].len < 0x1_0000_0000
    ensures FoldAll(Rest(list, sg, off), at, ep, aperture, blenMax)
         == Fold(U64(list[sg].addr + off), U32(list[sg].len - off), at, ep, aperture, blenMax)
          + FoldAll(Rest(list, sg + 1, 0), at + U32(list[sg].len - off), ep, aperture, blenMax)
  {
    var rest := Rest(list, sg, off);
    if sg + 1 < |list| {
      NoWrap(list[sg + 1].addr);
      NoWrap32(list[sg + 1].len);
    }
    hide U64, U32, Fold, FoldAll;
    assert rest[1..] == list[sg + 1..];
    assert Rest(list, sg + 1, 0) == list[sg + 1..];
    FoldAllHead(rest, at, ep, aperture, blenMax);
  }

  lemma NoRest(list: seq<Extent>, off: nat, at: nat, ep: nat, aperture: nat, blenMax: nat)
    requires aperture > 0 && blenMax > 0
    ensures FoldAll(Rest(list, |list|, off), at, ep, aperture, blenMax) == []
  {
  }

  lemma EntryBounds(j: Job)
    requires ValidJob(j)
    ensures forall i :: 0 <= i < |j.sgl| ==> j.sgl[i].addr < 0x1_0000_0000_0000_0000 && j.sgl[i].len < 0x1_0000_0000
  {
    forall i | 0 <= i < |j.sgl|
      ensures j.sgl[i].len < 0x1_0000_0000
    {
      LenBound(j.sgl, i);
    }
  }

  ghost predicate NoEmptyEntry(sgl: seq<Extent>) {
    forall i :: 0 <= i < |sgl| ==> sgl[i].len > 0
  }

  /** The part of an entry that fits, before the rest of the request. */
  lemma PartDone(whole: seq<Window>, done: seq<Window>, piece: seq<Window>, more: seq<Window>, later: seq<Window>)
    requires whole == done + ((piece + more) + later)
    ensures whole == (done + piece) + (more + later)
  {
    assert (piece + more) + later == piece + (more + later);
    assert done + (piece + (more + later)) == (done + piece) + (more + later);
  }

  /** The walk has come to byte `off` of entry sg; `done` are the windows so far, of `bytes` bytes. */
  ghost predicate Walking(j: Job, p: Progress, done: seq<Window>, bytes: nat, sg: nat, off: nat)
    requires ValidJob(j) && ValidProgress(j, p)
  {
    && sg <= |Walked(j, p)| && off < 0x1_0000_0000 && (sg > 0 ==> off == 0)
    && PassWindows(j, p)
    == done + FoldAll(Rest(Walked(j, p), sg, off), AndBits(p.offset, j.aperture - 1) + bytes, j.ep, j.aperture,
                      j.blenMax)
    && Moved(Walked(j, p), p.sgOffset, bytes, sg, off)
  }

  lemma WalkStart(j: Job, p: Progress)
    requires ValidJob(j) && ValidProgress(j, p)
    ensures Walking(j, p, [], 0, 0, p.sgOffset)
  {
  }

  /** Entry sg is used up, or the ring ends inside it. */
  lemma WalkOn(j: Job, p: Progress, done: seq<Window>, bytes: nat, sg: nat, off: nat, piece: seq<Window>, moved: nat)
    requires ValidJob(j) && ValidProgress(j, p) && Walking(j, p, done, bytes, sg, off) && sg < |j.sgl| - p.sgIdx
    requires moved <= U32(j.sgl[sg].len - off)
    requires Fold(U64(j.sgl[sg].addr + off), U32(j.sgl[sg].len - off), AndBits(p.offset, j.aperture - 1) + bytes,
                  j.ep, j.aperture, j.blenMax)
          == piece + Fold(U64(U64(j.sgl[sg].addr + off) + moved), U32(j.sgl[sg].len - off) - moved,
                          AndBits(p.offset, j.aperture - 1) + bytes + moved, j.ep, j.aperture, j.blenMax)
    ensures done + piece <= PassWindows(j, p)
    ensures if moved == U32(j.sgl[sg].len - off)
            then Walking(j, p, done + piece, bytes + moved, sg + 1, 0)
            else Move(Walked(j, p), 0, p.sgOffset, bytes + moved) == (sg, U32(off + moved))
  {
    hide Fold, FoldAll, Rest, AndBits, Move, Moved, Total, U64, U32, Walked, PassWindows;
    EntryBounds(j);
    WalkedList(j, p);
    var list, at, left := Walked(j, p), AndBits(p.offset, j.aperture - 1) + bytes, U32(j.sgl[sg].len - off);
    EntryRest(list, sg, off, at, j.ep, j.aperture, j.blenMax);
    var later := FoldAll(Rest(list, sg + 1, 0), at + left, j.ep, j.aperture, j.blenMax);
    var more := Fold(U64(U64(j.sgl[sg].addr + off) + moved), left - moved, at + moved, j.ep, j.aperture, j.blenMax);
    PartDone(PassWindows(j, p), done, piece, more, later);
    if moved == left {
      MovedNext(list, p.sgOffset, bytes, sg, off);
      FoldNothing(U64(U64(j.sgl[sg].addr + off) + moved), at + moved, j.ep, j.aperture, j.blenMax);
    } else {
      MovedPart(list, p.sgOffset, bytes, sg, off, moved);
    }
  }

  /** Nothing is left, or the ring ended between two entries. */
  lemma WalkEnd(j: Job, p: Progress, done: seq<Window>, bytes: nat, sg: nat, off: nat)
    requires ValidJob(j) && ValidProgress(j, p) && Walking(j, p, done, bytes, sg, off)
    requires sg == |j.sgl| - p.sgIdx || off == 0
    ensures done <= PassWindows(j, p) && (sg == |j.sgl| - p.sgIdx ==> done == PassWindows(j, p))
    ensures NoEmptyEntry(j.sgl) ==> Move(Walked(j, p), 0, p.sgOffset, bytes) == (sg, off)
  {
    hide Fold, FoldAll, Rest, AndBits, Move, Moved, Total, U64, U32, Walked, PassWindows;
    EntryBounds(j);
    WalkedList(j, p);
    NoRest(Walked(j, p), off, AndBits(p.offset, j.aperture - 1) + bytes, j.ep, j.aperture, j.blenMax);
    if NoEmptyEntry(j.sgl) {
      MovedRest(Walked(j, p), p.sgOffset, bytes, sg, off);
    }
  }

  /** The loop over the scatter list. */
  method FillList(e: XdmaEngine, req: ApertureCb, epStart: nat, first: nat, blenMax: nat)
    returns (bytes: nat, idx: nat, sgIdx: nat, sgOffset: nat, ghost done: seq<Window>)
    requires e.Valid() && first < e.cfg.descMax && req.Valid(blenMax)
    requires EpAt(epStart, req.epAddr, req.aperture, AndBits(req.offset, req.aperture - 1))
    modifies e.desc
    ensures FilledSoFar(e.cfg, old(e.desc[..]), e.desc[..], first, done, bytes)
    ensures idx == first + |done| <= e.cfg.descMax && req.sgIdx <= sgIdx <= |req.sgl| && sgOffset < 0x1_0000_0000
    ensures done <= PassWindows(req.JobOf(blenMax), req.At(1))
    ensures idx == e.cfg.descMax || done == PassWindows(req.JobOf(blenMax), req.At(1))
    ensures NoEmptyEntry(req.sgl) ==>
              Move(Walked(req.JobOf(blenMax), req.At(1)), 0, req.sgOffset, bytes) == (sgIdx - req.sgIdx, sgOffset)
  {
    hide EpAt, FilledSoFar, Fold, AndBits, Move, Total, U64, U32, Walked, PassWindows, Walking, NoEmptyEntry;
    ghost var j, p, phase, was := req.JobOf(blenMax), req.At(1), AndBits(req.offset, req.aperture - 1), e.desc[..];
    bytes, idx, sgIdx, sgOffset, done := 0, first, req.sgIdx, req.sgOffset, [];
    var epAddr, sg := epStart, 0;
    FillNothing(e.cfg, was, first, 0);
    WalkStart(j, p);
    while sgIdx < |req.sgl| && idx < e.cfg.descMax
      invariant sg == sgIdx - req.sgIdx && sgIdx <= |req.sgl| && sgOffset < 0x1_0000_0000
      invariant EpAt(epAddr, req.epAddr, req.aperture, phase + bytes)
      invariant Walking(j, p, done, bytes, sg, sgOffset)
      invariant idx == first + |done| <= e.cfg.descMax
      invariant FilledSoFar(e.cfg, was, e.desc[..], first, done, bytes)
      invariant sg == 0 ==> idx == first
      invariant sg > 0 ==> sgOffset == 0
      decreases |req.sgl| - sgIdx
    {
      var addr, left := U64(req.sgl[sg].addr + sgOffset), U32(req.sgl[sg].len - sgOffset);
      ghost var mid, piece := e.desc[..], [];
      var moved: nat;
      Small64(req.sgl[sg].addr + sgOffset);
      moved, epAddr, idx, piece := FillEntry(e, req, addr, left, epAddr, idx, blenMax, phase + bytes);
      FillJoin(e.cfg, was, mid, e.desc[..], first, done, piece, bytes, moved);
      WalkOn(j, p, done, bytes, sg, sgOffset, piece, moved);
      bytes, done := bytes + moved, done + piece;
      if moved != left {
        Small32(sgOffset + moved);
        sgOffset := U32(sgOffset + moved);
        return;
      }
      sgOffset, sgIdx, sg := 0, sgIdx + 1, sg + 1;
    }
    WalkEnd(j, p, done, bytes, sg, sgOffset);
  }

  lemma Small32(x: nat)
    ensures U32(x) < 0x1_0000_0000
  {
  }

  lemma FoldNothing(addr: nat, at: nat, ep: nat, aperture: nat, blenMax: nat)
    requires aperture > 0 && blenMax > 0
    ensures Fold(addr, 0, at, ep, aperture, blenMax) == []
  {
  }

  lemma WalkedList(j: Job, p: Progress)
    requires ValidJob(j) && ValidProgress(j, p)
    ensures |Walked(j, p)| == |j.sgl| - p.sgIdx
    ensures forall i :: 0 <= i < |j.sgl| - p.sgIdx ==> Walked(j, p)[i] == j.sgl[i]
    ensures PassWindows(j, p)
         == FoldAll(Rest(Walked(j, p), 0, p.sgOffset), AndBits(p.offset, j.aperture - 1), j.ep, j.aperture, j.blenMax)
  {
  }

  // ---------------------------------------------------------------- one pass

  /** A descriptor after the linking loop. */
  function Linked(c: Config, first: nat, n: nat, i: nat, d: Desc): Desc {
    var next := NextAddr(c, first, n, i);
    d.(nextLo := Lo(next), nextHi := Hi(next), control := if i + 1 == n then MAGIC | LAST_FLAGS else MAGIC)
  }

  /** The settings that an aperture chain is built with: memory mapped, no stream flags. */
  function Plain(c: Config): Config { c.(streaming := false, eopFlush := false) }

  function WindowDesc(c: Config, first: nat, n: nat, i: nat, w: Window): Desc
    requires i < n
  {
    Built(Plain(c), first, n, i, Extent(w.host, w.len), w.ep)
  }

  /** A complete descriptor chain for a list of windows. */
  ghost predicate WindowChain(c: Config, ring: seq<Desc>, first: nat, ws: seq<Window>) {
    && first + |ws| <= |ring|
    && forall k :: first <= k < first + |ws| ==> ring[k] == WindowDesc(c, first, |ws|, k - first, ws[k - first])
  }

  lemma StepsBuildWindow(c: Config, first: nat, n: nat, i: nat, w: Window, d: Desc)
    requires i < n
    ensures Counted(n, i, Linked(c, first, n, i, Addressed(c, w.host, w.ep, w.len, d))) == WindowDesc(c, first, n, i, w)
  {
    assert SetControl(MAGIC, 0) == MAGIC && SetControl(MAGIC, LAST_FLAGS) == MAGIC | LAST_FLAGS;
  }

  lemma StagesBuildWindows(c: Config, was: seq<Desc>, filled: seq<Desc>, linked: seq<Desc>, now: seq<Desc>,
                           first: nat, ws: seq<Window>)
    requires AddressedBy(c, was, filled, first, ws) && SameOutside(was, filled, first, |ws|)
    requires SameOutside(filled, linked, first, |ws|) && SameOutside(linked, now, first, |ws|)
    requires forall k :: first <= k < first + |ws| ==> linked[k] == Linked(c, first, |ws|, k - first, filled[k])
    requires forall k :: first <= k < first + |ws| ==> now[k] == Counted(|ws|, k - first, linked[k])
    ensures WindowChain(c, now, first, ws) && SameOutside(was, now, first, |ws|)
  {
    hide Linked, Counted, WindowDesc, Addressed;
    forall k | first <= k < first + |ws|
      ensures now[k] == WindowDesc(c, first, |ws|, k - first, ws[k - first])
    {
      StepsBuildWindow(c, first, |ws|, k - first, ws[k - first], was[k]);
    }
  }

  /** The linked list and the stop flags. */
  method Link(e: XdmaEngine, first: nat, n: nat)
    requires e.Valid() && 1 <= n && first + n <= e.cfg.descMax
    modifies e.desc
    ensures SameOutside(old(e.desc[..]), e.desc[..], first, n)
    ensures forall k :: first <= k < first + n ==> e.desc[k] == Linked(e.cfg, first, n, k - first, old(e.desc[k]))
  {
    var bus: nat := DescAddr(e.cfg, first);
    for i := 0 to n - 1
      invariant bus == DescAddr(e.cfg, first + i)
      invariant forall k :: first <= k < first + i ==> e.desc[k] == Linked(e.cfg, first, n, k - first, old(e.desc[k]))
      invariant forall k :: 0 <= k < e.desc.Length && !(first <= k < first + i) ==> e.desc[k] == old(e.desc[k])
    {
      bus := bus + 32;
      e.desc[first + i] := e.desc[first + i].(nextLo := Lo(bus), nextHi := Hi(bus), control := MAGIC);
    }
    var last := first + n - 1;
    e.desc[last] := e.desc[last].(nextLo := 0, nextHi := 0, control := MAGIC | LAST_FLAGS);
  }

  lemma WindowsWritten(c: Config, was: seq<Desc>, filled: seq<Desc>, linked: seq<Desc>, now: seq<Desc>, first: nat,
                       ws: seq<Window>, bytes: nat)
    requires FilledSoFar(c, was, filled, first, ws, bytes)
    requires SameOutside(filled, linked, first, |ws|) && SameOutside(linked, now, first, |ws|)
    requires forall k :: first <= k < first + |ws| ==> linked[k] == Linked(c, first, |ws|, k - first, filled[k])
    requires forall k :: first <= k < first + |ws| ==> now[k] == Counted(|ws|, k - first, linked[k])
    ensures WindowChain(c, now, first, ws) && SameOutside(was, now, first, |ws|) && bytes == Total(HostOf(ws))
  {
    hide Linked, Counted, WindowDesc, Addressed;
    StagesBuildWindows(c, was, filled, linked, now, first, ws);
  }

  /** The ring writes of one pass: address, link and flag, count. Without a window to build the
      linking loop would run off the ring: `ok` is false and nothing more is done here. */
  method WriteWindows(e: XdmaEngine, req: ApertureCb, first: nat, blenMax: nat)
    returns (ok: bool, bytes: nat, n: nat, sgIdx: nat, sgOffset: nat)
    requires e.Valid() && first < e.cfg.descMax && req.Valid(blenMax)
    modifies e.desc
    ensures var ws := Pass(req.JobOf(blenMax), req.At(e.cfg.descMax - first));
            && (ok <==> ws != []) && n == |ws| && bytes == Bytes(ws, n)
            && (ok ==> WindowChain(e.cfg, e.desc[..], first, ws))
    ensures SameOutside(old(e.desc[..]), e.desc[..], first, n)
    ensures req.sgIdx <= sgIdx <= |req.sgl| && sgOffset < 0x1_0000_0000
    ensures NoEmptyEntry(req.sgl) ==>
              Move(Walked(req.JobOf(blenMax), req.At(1)), 0, req.sgOffset, bytes) == (sgIdx - req.sgIdx, sgOffset)
  {
    hide EpAt, FilledSoFar, FoldAll, Rest, AndBits, WindowChain, SameOutside, AddressedBy;
    hide Linked, Counted, Addressed, Total, HostOf, Move;
    ghost var was := e.desc[..];
    PhaseAt(req.epAddr, req.aperture, req.offset);
    ghost var done;
    var idx: nat;
    bytes, idx, sgIdx, sgOffset, done := FillList(e, req, req.epAddr + AndBits(req.offset, req.aperture - 1), first,
                                                  blenMax);
    n, ok := idx - first, idx > first;
    TakenWindows(req.JobOf(blenMax), req.At(1), e.cfg.descMax - first, done);
    ghost var filled := e.desc[..];
    FilledBytes(e.cfg, was, filled, first, done, bytes);
    if ok {
      Link(e, first, n);
      ghost var linked := e.desc[..];
      e.FillAdjacent(first, n);
      WindowsWritten(e.cfg, was, filled, linked, e.desc[..], first, done, bytes);
    }
  }

  lemma FilledBytes(c: Config, was: seq<Desc>, now: seq<Desc>, first: nat, ws: seq<Window>, bytes: nat)
    requires FilledSoFar(c, was, now, first, ws, bytes)
    ensures SameOutside(was, now, first, |ws|) && bytes == Bytes(ws, |ws|)
  {
    assert ws[..|ws|] == ws;
  }

  lemma TakenWindows(j: Job, p: Progress, room: nat, done: seq<Window>)
    requires ValidJob(j) && ValidProgress(j, p) && room >= 1
    requires done <= PassWindows(j, p) && |done| <= room && (|done| == room || done == PassWindows(j, p))
    ensures ValidProgress(j, p.(room := room)) && done == Pass(j, p.(room := room))
  {
    hide FoldAll, Rest, AndBits, Total;
    assert Walked(j, p) == Walked(j, p.(room := room));
    assert PassWindows(j, p) == PassWindows(j, p.(room := room));
    assert done == PassWindows(j, p)[..|done|];
  }

  /** One pass of the request loop: as many windows as fit before the end of the ring become one
      chain there, and the request moves on by their bytes. */
  method BuildPass(e: XdmaEngine, req: ApertureCb, xfer: Transfer, blenMax: nat) returns (ok: bool)
    requires e.Valid() && !e.cfg.streaming && req.Valid(blenMax)
    modifies e.desc, e`descIdx, e`descUsed, req, xfer
    ensures ok <==> Pass(req.JobOf(blenMax), old(req.At(e.cfg.descMax - e.descIdx))) != []
    ensures ok ==> e.Valid() && req.Valid(blenMax)
    ensures ok ==>
              var first, ws := old(e.descIdx), Pass(req.JobOf(blenMax), old(req.At(e.cfg.descMax - e.descIdx)));
              && WindowChain(e.cfg, e.desc[..], first, ws)
              && SameOutside(old(e.desc[..]), e.desc[..], first, |ws|)
              && xfer.descIndex == first && xfer.descNum == |ws| && xfer.len == U32(Bytes(ws, |ws|))
              && req.offset == U32(old(req.offset) + Bytes(ws, |ws|))
              && (xfer.lastInRequest <==> req.offset == Total(req.sgl))
              && e.descIdx == (first + |ws|) % e.cfg.descMax && e.descUsed == old(e.descUsed) + |ws|
    ensures ok && NoEmptyEntry(req.sgl) ==>
              req.At(e.cfg.descMax - e.descIdx)
                == AfterPass(req.JobOf(blenMax), old(req.At(e.cfg.descMax - e.descIdx)), e.cfg.descMax)
  {
    hide FoldAll, Rest, AndBits, WindowChain, SameOutside, Total, HostOf, Move, U32;
    var first := e.descIdx;
    ghost var j, p := req.JobOf(blenMax), req.At(e.cfg.descMax - first);
    var bytes, n, sgIdx, sgOffset;
    ok, bytes, n, sgIdx, sgOffset := WriteWindows(e, req, first, blenMax);
    if !ok {
      return;
    }
    xfer.Reset(first);
    xfer.descAdjacent, xfer.descNum, xfer.descCmplTh, xfer.len := n, n, n, U32(bytes);
    req.offset, req.sgIdx, req.sgOffset := U32(req.offset + bytes), sgIdx, sgOffset;
    e.descUsed, e.descIdx := e.descUsed + n, (first + n) % e.cfg.descMax;
    xfer.lastInRequest := req.offset == U32(Total(req.sgl));
    Small32(p.offset + bytes);
    NoWrap32(Total(req.sgl));
    RoomAfter(first, n, e.cfg.descMax);
    if NoEmptyEntry(req.sgl) {
      AfterPassIs(j, p, e.cfg.descMax, bytes, n, sgIdx, sgOffset);
    }
  }

  lemma RoomAfter(first: nat, n: nat, r: nat)
    requires first < r && first + n <= r
    ensures (first + n) % r == if first + n == r then 0 else first + n
  {
    DivUnique(first + n, r, if first + n == r then 1 else 0, if first + n == r then 0 else first + n);
  }

  lemma AfterPassIs(j: Job, p: Progress, r: nat, bytes: nat, n: nat, sgIdx: nat, sgOffset: nat)
    requires ValidJob(j) && ValidProgress(j, p) && p.room <= r && n == |Pass(j, p)| && bytes == Bytes(Pass(j, p), n)
    requires p.sgIdx <= sgIdx && Move(Walked(j, p), 0, p.sgOffset, bytes) == (sgIdx - p.sgIdx, sgOffset)
    ensures AfterPass(j, p, r)
            == Progress(U32(p.offset + bytes), sgIdx, sgOffset, if n == p.room then r else p.room - n)
  {
    hide FoldAll, Rest, AndBits, Total, HostOf, Move, U32, PassWindows;
    var ws := Pass(j, p);
    assert ws[..n] == ws;
  }

  lemma PhaseAt(base: nat, aperture: nat, offset: nat)
    requires aperture > 0
    ensures var phase := AndBits(offset, aperture - 1);
            EpAt(base + phase, base, aperture, phase)
  {
    var phase := AndBits(offset, aperture - 1);
    DivUnique(phase, aperture, 0, phase);
  }

  lemma WindowExec(c: Config, first: nat, n: nat, i: nat, w: Window, m: Machine)
    requires ValidConfig(c) && i < n && first + n <= c.descMax
    ensures ExecDesc(c, WindowDesc(c, first, n, i, w), m) == Linear(c.dir, Range(w.host, w.len), Range(w.ep, w.len), m)
  {
    BuiltDecodes(Plain(c), first, n, i, Extent(w.host, w.len), w.ep);
    RangeFolds(w.host, w.len);
    RangeFolds(w.ep, w.len);
  }

  lemma WindowsTail(ws: seq<Window>, i: nat)
    requires i < |ws|
    ensures Flatten(HostOf(ws[i..])) == Range(ws[i].host, ws[i].len) + Flatten(HostOf(ws[i + 1..]))
    ensures Flatten(EpOf(ws[i..])) == Range(ws[i].ep, ws[i].len) + Flatten(EpOf(ws[i + 1..]))
  {
    assert HostOf(ws[i..])[1..] == HostOf(ws[i + 1..]) && EpOf(ws[i..])[1..] == EpOf(ws[i + 1..]);
  }

  lemma {:induction false} WindowsCopy(c: Config, ring: seq<Desc>, first: nat, ws: seq<Window>, i: nat, m: Machine)
    requires ValidConfig(c) && first + |ws| <= c.descMax && WindowChain(c, ring, first, ws) && i <= |ws|
    ensures |Flatten(HostOf(ws[i..]))| == |Flatten(EpOf(ws[i..]))|
    ensures ExecAll(c, ring[first + i..first + |ws|], m)
            == Linear(c.dir, Flatten(HostOf(ws[i..])), Flatten(EpOf(ws[i..])), m)
    decreases |ws| - i
  {
    EqualLens(ws[i..]);
    if i < |ws| {
      hide Linear, ExecDesc, WindowDesc, Flatten, Range, HostOf, EpOf;
      var w, ds := ws[i], ring[first + i..first + |ws|];
      var m' := Linear(c.dir, Range(w.host, w.len), Range(w.ep, w.len), m);
      assert ring[first + i] == WindowDesc(c, first, |ws|, i, w);
      WindowExec(c, first, |ws|, i, w, m);
      assert ds[1..] == ring[first + (i + 1)..first + |ws|];
      WindowsCopy(c, ring, first, ws, i + 1, m');
      WindowsTail(ws, i);
      LinearConcat(c.dir, Range(w.host, w.len), Flatten(HostOf(ws[i + 1..])), Range(w.ep, w.len),
                   Flatten(EpOf(ws[i + 1..])), m);
    }
  }


  /** The chain of one pass copies its windows. */
  lemma PassCopies(c: Config, ring: seq<Desc>, first: nat, ws: seq<Window>, m: Machine)
    requires ValidConfig(c) && first + |ws| <= c.descMax && WindowChain(c, ring, first, ws)
    ensures |Flatten(HostOf(ws))| == |Flatten(EpOf(ws))|
    ensures ExecAll(c, ring[first..first + |ws|], m) == Linear(c.dir, Flatten(HostOf(ws)), Flatten(EpOf(ws)), m)
  {
    hide *;
    WindowsCopy(c, ring, first, ws, 0, m);
    assert ws[0..] == ws;
  }

  /** What the first n passes of a run leave in the two memories. */
  ghost function RunEffect(c: Config, j: Job, states: seq<Progress>, n: nat, m: Machine): Machine
    requires ValidJob(j) && n <= |states| && forall k :: 0 <= k < n ==> ValidProgress(j, states[k])
  {
    if n == 0 then m
    else
      var ws := Pass(j, states[n - 1]);
      EqualLens(ws);
      Linear(c.dir, Flatten(HostOf(ws)), Flatten(EpOf(ws)), RunEffect(c, j, states, n - 1, m))
  }

  lemma JoinedWindows(a: seq<Window>, b: seq<Window>)
    ensures Flatten(HostOf(a + b)) == Flatten(HostOf(a)) + Flatten(HostOf(b))
    ensures Flatten(EpOf(a + b)) == Flatten(EpOf(a)) + Flatten(EpOf(b))
  {
    assert HostOf(a + b) == HostOf(a) + HostOf(b) && EpOf(a + b) == EpOf(a) + EpOf(b);
    FlattenConcat(HostOf(a), HostOf(b));
    FlattenConcat(EpOf(a), EpOf(b));
  }

  lemma {:induction false} RunCopies(c: Config, j: Job, states: seq<Progress>, n: nat, m: Machine)
    requires ValidJob(j) && n <= |states| && forall k :: 0 <= k < n ==> ValidProgress(j, states[k])
    ensures var ws := BuiltWindows(j, states, n);
            && |Flatten(HostOf(ws))| == |Flatten(EpOf(ws))|
            && RunEffect(c, j, states, n, m) == Linear(c.dir, Flatten(HostOf(ws)), Flatten(EpOf(ws)), m)
    decreases n
  {
    hide Linear, Flatten, Pass, HostOf, EpOf, ValidJob, ValidProgress;
    EqualLens(BuiltWindows(j, states, n));
    if n == 0 {
      NoWindows(c, m);
    } else {
      var ws, last := BuiltWindows(j, states, n - 1), Pass(j, states[n - 1]);
      RunCopies(c, j, states, n - 1, m);
      EqualLens(last);
      JoinedWindows(ws, last);
      LinearConcat(c.dir, Flatten(HostOf(ws)), Flatten(HostOf(last)), Flatten(EpOf(ws)), Flatten(EpOf(last)), m);
    }
  }

  lemma NoWindows(c: Config, m: Machine)
    ensures Flatten(HostOf([])) == [] && Flatten(EpOf([])) == [] && Linear(c.dir, [], [], m) == m
  {
    assert HostOf([]) == [] && EpOf([]) == [];
  }

  /** A request whose windows divide well, in however many passes: the chains, executed in order,
      copy the scatter list to or from the folded window. Request byte k meets endpoint address
      ep + k mod aperture. */
  lemma ApertureIsFoldedCopy(c: Config, j: Job, states: seq<Progress>, room: nat, r: nat, m: Machine)
    requires PassRun(j, states, room, r) && states[|states| - 1].offset >= Total(j.sgl) && Divides(j, room, r)
    ensures ValidJob(j) && |Flatten(j.sgl)| == Total(j.sgl)
    ensures InWindow(Whole(j), j.ep, j.aperture, j.blenMax)
    ensures RunEffect(c, j, states, |states| - 1, m)
         == Linear(c.dir, Flatten(j.sgl), Folded(j.ep, j.aperture, 0, Total(j.sgl)), m)
  {
    FlattenLength(j.sgl);
    FoldAllCovers(j.sgl, 0, j.ep, j.aperture, j.blenMax);
    hide AfterPass, RightPass, Distinct, Divides, Linear, FoldAll, Flatten, HostOf, EpOf, Folded, Total;
    RequestRightExactly(j, states, room, r);
    RunCopies(c, j, states, |states| - 1, m);
  }
}
