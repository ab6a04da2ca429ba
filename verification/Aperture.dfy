/** Aperture transfers: a request is folded onto a window of the endpoint's address space, in one
    or more passes over the ring (xdma_xfer_aperture). */
module Aperture {
  import opened Words
  import opened LinearCopy

  /** One descriptor of an aperture transfer. */
  datatype Window = Window(host: nat, ep: nat, len: nat)

  function HostOf(ws: seq<Window>): (r: seq<Extent>)
    ensures |r| == |ws|
  {
    seq(|ws|, i requires 0 <= i < |ws| => Extent(ws[i].host, ws[i].len))
  }

  function EpOf(ws: seq<Window>): (r: seq<Extent>)
    ensures |r| == |ws|
  {
    seq(|ws|, i requires 0 <= i < |ws| => Extent(ws[i].ep, ws[i].len))
  }

  /** Endpoint addresses of request bytes [from, from+n): byte k is at ep + k mod aperture. */
  function Folded(ep: nat, aperture: nat, from: nat, n: nat): (r: seq<nat>)
    requires aperture > 0
    ensures |r| == n
  {
    seq<nat>(n, i requires 0 <= i < n => U64(ep + (from + i) % aperture))
  }

  /** The descriptor that starts at request byte `offset`: bounded by the entry, by the largest
      descriptor and by the end of the window. */
  function PieceLen(offset: nat, left: nat, aperture: nat, blenMax: nat): nat
    requires aperture > 0
  {
    Min(Min(left, Min(aperture, blenMax)), aperture - offset % aperture)
  }

  /** The descriptors of one scatter-list entry whose first byte is request byte `offset`. */
  function Fold(addr: nat, len: nat, offset: nat, ep: nat, aperture: nat, blenMax: nat): seq<Window>
    requires aperture > 0 && blenMax > 0
    decreases len
  {
    if len == 0 then []
    else
      var n := PieceLen(offset, len, aperture, blenMax);
      PieceLenBounds(offset, len, aperture, blenMax);
      [Window(addr, ep + offset % aperture, n)] + Fold(U64(addr + n), len - n, offset + n, ep, aperture, blenMax)
  }

  function FoldAll(sgl: seq<Extent>, offset: nat, ep: nat, aperture: nat, blenMax: nat): seq<Window>
    requires aperture > 0 && blenMax > 0
    decreases |sgl|
  {
    if sgl == [] then []
    else
      Fold(sgl[0].addr, sgl[0].len, offset, ep, aperture, blenMax)
      + FoldAll(sgl[1..], offset + sgl[0].len, ep, aperture, blenMax)
  }

  lemma PieceLenBounds(offset: nat, left: nat, aperture: nat, blenMax: nat)
    requires aperture > 0 && blenMax > 0 && left > 0
    ensures 1 <= PieceLen(offset, left, aperture, blenMax) <= left
    ensures PieceLen(offset, left, aperture, blenMax) <= Min(aperture, blenMax)
    ensures offset % aperture + PieceLen(offset, left, aperture, blenMax) <= aperture
  {
  }

  lemma WithinWindow(offset: nat, i: nat, aperture: nat)
    requires aperture > 0 && offset % aperture + i < aperture
    ensures (offset + i) % aperture == offset % aperture + i
  {
    assert offset == aperture * (offset / aperture) + offset % aperture;
    DivUnique(offset + i, aperture, offset / aperture, offset % aperture + i);
  }

  /** Inside one descriptor the folded addresses are consecutive. */
  lemma FoldedRun(ep: nat, aperture: nat, offset: nat, n: nat)
    requires aperture > 0 && offset % aperture + n <= aperture
    ensures Folded(ep, aperture, offset, n) == Range(ep + offset % aperture, n)
  {
    var folded, run := Folded(ep, aperture, offset, n), Range(ep + offset % aperture, n);
    forall i | 0 <= i < n
      ensures folded[i] == run[i]
    {
      WithinWindow(offset, i, aperture);
    }
  }

  lemma FoldedSplit(ep: nat, aperture: nat, from: nat, m: nat, n: nat)
    requires aperture > 0
    ensures Folded(ep, aperture, from, m + n) == Folded(ep, aperture, from, m) + Folded(ep, aperture, from + m, n)
  {
  }

  /** Every descriptor is non-empty, bounded, and stays inside the window. */
  ghost predicate InWindow(ws: seq<Window>, ep: nat, aperture: nat, blenMax: nat) {
    forall i :: 0 <= i < |ws| ==>
        1 <= ws[i].len <= Min(aperture, blenMax) && ep <= ws[i].ep && ws[i].ep + ws[i].len <= ep + aperture
  }

  /** What a list of windows copies: these host bytes, to or from these endpoint bytes. */
  ghost predicate Covers(ws: seq<Window>, host: seq<nat>, ep: nat, aperture: nat, offset: nat, blenMax: nat)
    requires aperture > 0
  {
    && Flatten(HostOf(ws)) == host
    && Flatten(EpOf(ws)) == Folded(ep, aperture, offset, |host|)
    && InWindow(ws, ep, aperture, blenMax)
  }

  lemma CoversConcat(a: seq<Window>, b: seq<Window>, ha: seq<nat>, hb: seq<nat>, ep: nat, aperture: nat, offset: nat,
                     blenMax: nat)
    requires aperture > 0
    requires Covers(a, ha, ep, aperture, offset, blenMax) && Covers(b, hb, ep, aperture, offset + |ha|, blenMax)
    ensures Covers(a + b, ha + hb, ep, aperture, offset, blenMax)
  {
    assert HostOf(a + b) == HostOf(a) + HostOf(b) && EpOf(a + b) == EpOf(a) + EpOf(b);
    FlattenConcat(HostOf(a), HostOf(b));
    FlattenConcat(EpOf(a), EpOf(b));
    FoldedSplit(ep, aperture, offset, |ha|, |hb|);
  }

  lemma CoversOne(addr: nat, offset: nat, n: nat, ep: nat, aperture: nat, blenMax: nat)
    requires aperture > 0 && 1 <= n <= Min(aperture, blenMax) && offset % aperture + n <= aperture
    ensures Covers([Window(addr, ep + offset % aperture, n)], Range(addr, n), ep, aperture, offset, blenMax)
  {
    var w := Window(addr, ep + offset % aperture, n);
    assert HostOf([w]) == [Extent(addr, n)] && EpOf([w]) == [Extent(w.ep, n)];
    assert Flatten([Extent(addr, n)]) == Range(addr, n) + Flatten([]);
    assert Flatten([Extent(w.ep, n)]) == Range(w.ep, n) + Flatten([]);
    FoldedRun(ep, aperture, offset, n);
  }

  lemma {:induction false} FoldCovers(addr: nat, len: nat, offset: nat, ep: nat, aperture: nat, blenMax: nat)
    requires aperture > 0 && blenMax > 0
    ensures Covers(Fold(addr, len, offset, ep, aperture, blenMax), Range(addr, len), ep, aperture, offset, blenMax)
    decreases len
  {
    if len > 0 {
      var n := PieceLen(offset, len, aperture, blenMax);
      PieceLenBounds(offset, len, aperture, blenMax);
      var w, rest := [Window(addr, ep + offset % aperture, n)],
        Fold(U64(addr + n), len - n, offset + n, ep, aperture, blenMax);
      assert Fold(addr, len, offset, ep, aperture, blenMax) == w + rest;
      hide Covers, PieceLen, Fold, Min, U64;
      CoversOne(addr, offset, n, ep, aperture, blenMax);
      FoldCovers(U64(addr + n), len - n, offset + n, ep, aperture, blenMax);
      RangeSplit(addr, n, len - n);
      CoversConcat(w, rest, Range(addr, n), Range(U64(addr + n), len - n), ep, aperture, offset, blenMax);
    } else {
      assert Fold(addr, 0, offset, ep, aperture, blenMax) == [];
    }
  }

  /** No window is shorter than it need be: all but an entry's last one are as long as a descriptor or
      the window may be, or end where the window ends. */
  lemma {:induction false} FoldMaximal(addr: nat, len: nat, offset: nat, ep: nat, aperture: nat, blenMax: nat, i: nat)
    requires aperture > 0 && blenMax > 0 && i + 1 < |Fold(addr, len, offset, ep, aperture, blenMax)|
    ensures var w := Fold(addr, len, offset, ep, aperture, blenMax)[i];
            w.len == Min(aperture, blenMax) || w.ep + w.len == ep + aperture
    decreases i
  {
    var n := PieceLen(offset, len, aperture, blenMax);
    if i > 0 {
      PieceLenBounds(offset, len, aperture, blenMax);
      FoldMaximal(U64(addr + n), len - n, offset + n, ep, aperture, blenMax, i - 1);
    }
  }

  /** The whole request: host bytes in scatter-list order against the folded window. */
  lemma {:induction false} FoldAllCovers(sgl: seq<Extent>, offset: nat, ep: nat, aperture: nat, blenMax: nat)
    requires aperture > 0 && blenMax > 0
    ensures Covers(FoldAll(sgl, offset, ep, aperture, blenMax), Flatten(sgl), ep, aperture, offset, blenMax)
    decreases |sgl|
  {
    if sgl != [] {
      hide Covers, Fold;
      FoldCovers(sgl[0].addr, sgl[0].len, offset, ep, aperture, blenMax);
      FoldAllCovers(sgl[1..], offset + sgl[0].len, ep, aperture, blenMax);
      CoversConcat(Fold(sgl[0].addr, sgl[0].len, offset, ep, aperture, blenMax),
                   FoldAll(sgl[1..], offset + sgl[0].len, ep, aperture, blenMax),
                   Range(sgl[0].addr, sgl[0].len), Flatten(sgl[1..]), ep, aperture, offset, blenMax);
    }
  }

  /** Host byte k of the whole request meets endpoint byte ep + k mod aperture. */
  lemma FoldedByte(sgl: seq<Extent>, offset: nat, ep: nat, aperture: nat, blenMax: nat, k: nat)
    requires aperture > 0 && blenMax > 0 && k < |Flatten(sgl)|
    ensures var ws := FoldAll(sgl, offset, ep, aperture, blenMax);
            && Flatten(HostOf(ws)) == Flatten(sgl) && |Flatten(EpOf(ws))| == |Flatten(sgl)|
            && Flatten(EpOf(ws))[k] == (ep + (offset + k) % aperture) % 0x1_0000_0000_0000_0000
  {
    hide FoldAll, Flatten, HostOf, EpOf, InWindow;
    FoldAllCovers(sgl, offset, ep, aperture, blenMax);
  }

  // ---------------------------------------------------------------- one pass of the request loop

  /** Bitwise and of two naturals. */
  function AndBits(x: nat, y: nat): (r: nat)
    ensures r <= x && r <= y
    decreases x
  {
    if x == 0 || y == 0 then 0 else (x % 2) * (y % 2) + 2 * AndBits(x / 2, y / 2)
  }

  /** The scatter list from entry j on, with k bytes of that entry already used. The length that is
      left is computed in 32 bits. */
  function Rest(list: seq<Extent>, j: nat, k: nat): seq<Extent> {
    if j < |list| then [Extent(U64(list[j].addr + k), U32(list[j].len - k))] + list[j + 1..] else []
  }

  /** A request: scatter list, window and largest descriptor. */
  datatype Job = Job(sgl: seq<Extent>, ep: nat, aperture: nat, blenMax: nat)

  predicate ValidJob(j: Job) {
    && 0 < j.aperture < 0x1_0000_0000 && 0 < j.blenMax < 0x1_0000_0000
    && (forall i :: 0 <= i < |j.sgl| ==> j.sgl[i].addr < 0x1_0000_0000_0000_0000)
    && Total(j.sgl) < 0x1_0000_0000
    && j.ep + j.aperture + Min(j.aperture, j.blenMax) <= 0x1_0000_0000_0000_0000
  }

  /** Where the loop is: request offset, scatter-list index and offset, and the room before the end
      of the ring. */
  datatype Progress = Progress(offset: nat, sgIdx: nat, sgOffset: nat, room: nat)

  predicate ValidProgress(j: Job, p: Progress) {
    p.offset < 0x1_0000_0000 && p.sgIdx <= |j.sgl| && p.sgOffset < 0x1_0000_0000 && p.room >= 1
  }

  /** The entries that a pass walks: it starts again at the first entry but stops as if it had
      started at entry sgIdx. */
  function Walked(j: Job, p: Progress): seq<Extent>
    requires p.sgIdx <= |j.sgl|
  {
    j.sgl[..|j.sgl| - p.sgIdx]
  }

  /** The windows a pass would build in an endless ring. */
  function PassWindows(j: Job, p: Progress): seq<Window>
    requires ValidJob(j) && ValidProgress(j, p)
  {
    FoldAll(Rest(Walked(j, p), 0, p.sgOffset), AndBits(p.offset, j.aperture - 1), j.ep, j.aperture, j.blenMax)
  }

  /** Index and offset after `bytes` more bytes of a list. */
  function Move(list: seq<Extent>, idx: nat, off: nat, bytes: nat): (nat, nat)
    decreases |list| - idx
  {
    if idx >= |list| then (idx, off)
    else
      var left := U32(list[idx].len - off);
      if bytes >= left then Move(list, idx + 1, 0, bytes - left) else (idx, U32(off + bytes))
  }

  /** The loop state after a pass over a ring of r entries. */
  function AfterPass(j: Job, p: Progress, r: nat): Progress
    requires ValidJob(j) && ValidProgress(j, p) && p.room <= r
  {
    var ws := PassWindows(j, p);
    var n := Min(|ws|, p.room);
    var bytes := Total(HostOf(ws[..n]));
    var m := Move(Walked(j, p), 0, p.sgOffset, bytes);
    Progress(U32(p.offset + bytes), p.sgIdx + m.0, m.1, if n == p.room then r else p.room - n)
  }

  /** The pass builds the next bytes of the request. */
  ghost predicate RightHost(j: Job, p: Progress, ws: seq<Window>) {
    var h, all := Flatten(HostOf(ws)), Flatten(j.sgl);
    ws != [] && p.offset + |h| <= |all| && h == all[p.offset..p.offset + |h|]
  }

  /** And meets them with the right bytes of the window. */
  ghost predicate RightEp(j: Job, p: Progress, ws: seq<Window>)
    requires j.aperture > 0
  {
    var e := Flatten(EpOf(ws));
    e == Folded(j.ep, j.aperture, p.offset, |e|)
  }

  lemma FoldStep(addr: nat, left: nat, offset: nat, ep: nat, aperture: nat, blenMax: nat)
    requires aperture > 0 && blenMax > 0 && left > 0
    ensures var n := PieceLen(offset, left, aperture, blenMax);
            && 1 <= n <= left
            && Fold(addr, left, offset, ep, aperture, blenMax)
            == [Window(addr, ep + offset % aperture, n)]
               + Fold(U64(addr + n), left - n, offset + n, ep, aperture, blenMax)
  {
    PieceLenBounds(offset, left, aperture, blenMax);
  }

  /** Every bit is set: one less than a power of two. */
  predicate AllOnes(m: nat) { m == 0 || (m % 2 == 1 && AllOnes(m / 2)) }

  lemma {:induction false} MaskKeepsRemainder(x: nat, m: nat)
    requires AllOnes(m)
    ensures AndBits(x, m) == x % (m + 1)
    decreases m
  {
    if m == 0 {
      assert AndBits(x, m) == 0;
      DivUnique(x, 1, x, 0);
    } else if x != 0 {
      MaskKeepsRemainder(x / 2, m / 2);
      assert AndBits(x, m) == x % 2 + 2 * AndBits(x / 2, m / 2);
      hide AndBits, AllOnes;
      LowBit(x, m / 2 + 1);
      assert m + 1 == 2 * (m / 2 + 1);
    }
  }

  lemma LowBit(x: nat, h: nat)
    requires h > 0
    ensures x % (2 * h) == x % 2 + 2 * ((x / 2) % h)
  {
    var q, r := (x / 2) / h, (x / 2) % h;
    assert x / 2 == h * q + r;
    assert (2 * h) * q == 2 * (h * q);
    DivUnique(x, 2 * h, q, 2 * r + x % 2);
  }

  /** A bit that the mask lacks. */
  function MissingBit(m: nat): (x: nat)
    requires !AllOnes(m)
    ensures x < m && AndBits(x, m) != x
  {
    if m % 2 == 0 then 1 else 2 * MissingBit(m / 2)
  }

  /** `offset & (aperture - 1)` is the position in the window for every offset exactly when the
      aperture is a power of two. */
  lemma MaskIsRemainder(aperture: nat)
    requires aperture > 0
    ensures AllOnes(aperture - 1) <==> (forall x: nat :: AndBits(x, aperture - 1) == x % aperture)
  {
    if AllOnes(aperture - 1) {
      forall x: nat
        ensures AndBits(x, aperture - 1) == x % aperture
      {
        MaskKeepsRemainder(x, aperture - 1);
      }
    } else {
      var x := MissingBit(aperture - 1);
      DivUnique(x, aperture, 0, x);
    }
  }

  lemma EqualLens(ws: seq<Window>)
    ensures |Flatten(HostOf(ws))| == |Flatten(EpOf(ws))|
  {
    FlattenLength(HostOf(ws));
    FlattenLength(EpOf(ws));
    assert Lens(HostOf(ws)) == Lens(EpOf(ws));
  }

  lemma HostTake(ws: seq<Window>, n: nat)
    requires n <= |ws|
    ensures Total(HostOf(ws)) == Total(HostOf(ws[..n])) + Total(HostOf(ws[n..]))
  {
    assert HostOf(ws) == HostOf(ws[..n]) + HostOf(ws[n..]);
    TotalConcat(HostOf(ws[..n]), HostOf(ws[n..]));
  }

  lemma TotalPositive(ws: seq<Window>, n: nat)
    requires n < |ws| && ws[n].len > 0
    ensures Total(HostOf(ws[n..])) > 0
  {
    assert Lens(HostOf(ws[n..]))[0] == ws[n].len;
  }

  lemma PhaseInWindow(offset: nat, aperture: nat)
    requires aperture > 0
    ensures AndBits(offset, aperture - 1) % aperture == AndBits(offset, aperture - 1)
  {
    DivUnique(AndBits(offset, aperture - 1), aperture, 0, AndBits(offset, aperture - 1));
  }

  lemma FirstWindow(list: seq<Extent>, offset: nat, ep: nat, aperture: nat, blenMax: nat)
    requires aperture > 0 && blenMax > 0 && list != [] && list[0].len > 0
    ensures var ws := FoldAll(list, offset, ep, aperture, blenMax);
            ws != [] && ws[0].host == list[0].addr && ws[0].ep == ep + offset % aperture
  {
    FoldStep(list[0].addr, list[0].len, offset, ep, aperture, blenMax);
  }

  lemma SameShift(a: nat, b: nat, k: nat)
    requires a < 0x1_0000_0000_0000_0000 && b < 0x1_0000_0000_0000_0000
    ensures U64(a + k) == U64(b + k) <==> a == b
  {
    if a < b {
      U64Injective(a + k, b + k);
    } else if b < a {
      U64Injective(b + k, a + k);
    }
  }

  lemma {:induction false} FoldPhase(addr: nat, len: nat, x: nat, y: nat, ep: nat, aperture: nat, blenMax: nat)
    requires aperture > 0 && blenMax > 0 && x % aperture == y % aperture
    ensures Fold(addr, len, x, ep, aperture, blenMax) == Fold(addr, len, y, ep, aperture, blenMax)
    decreases len
  {
    if len > 0 {
      var n := PieceLen(x, len, aperture, blenMax);
      FoldStep(addr, len, x, ep, aperture, blenMax);
      FoldStep(addr, len, y, ep, aperture, blenMax);
      SamePhase(x, y, n, aperture);
      FoldPhase(U64(addr + n), len - n, x + n, y + n, ep, aperture, blenMax);
    }
  }

  lemma SamePhase(x: nat, y: nat, n: nat, aperture: nat)
    requires aperture > 0 && x % aperture == y % aperture
    ensures (x + n) % aperture == (y + n) % aperture
  {
    var d := (x % aperture + n) / aperture;
    var r := (x % aperture + n) % aperture;
    assert x == aperture * (x / aperture) + x % aperture && y == aperture * (y / aperture) + y % aperture;
    DivUnique(x + n, aperture, x / aperture + d, r);
    DivUnique(y + n, aperture, y / aperture + d, r);
  }

}
