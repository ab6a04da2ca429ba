/** What the passes of an aperture request build, and exactly when they are right. */
module AperturePasses {
  import opened Words
  import opened LinearCopy
  import opened Aperture

  /** A scatter list without empty entries that names no byte of memory twice. */
  ghost predicate Fair(j: Job) {
    && ValidJob(j) && Distinct(Flatten(j.sgl))
    && forall i :: 0 <= i < |j.sgl| ==> j.sgl[i].len > 0
  }

  /** The loop has handled the bytes up to byte sgOffset of entry sgIdx, and bytes are left. */
  ghost predicate OnTrack(j: Job, p: Progress) {
    && p.sgIdx < |j.sgl| && p.sgOffset < j.sgl[p.sgIdx].len && p.room >= 1
    && p.offset == Total(j.sgl[..p.sgIdx]) + p.sgOffset
  }

  /** The windows that a pass builds before the end of the ring. */
  function Pass(j: Job, p: Progress): seq<Window>
    requires ValidJob(j) && ValidProgress(j, p)
  {
    var ws := PassWindows(j, p);
    ws[..Min(|ws|, p.room)]
  }

  /** The bytes of the first n windows. */
  function Bytes(ws: seq<Window>, n: nat): nat
    requires n <= |ws|
  {
    Total(HostOf(ws[..n]))
  }

  ghost predicate MaskRight(j: Job, offset: nat)
    requires j.aperture > 0
  {
    AndBits(offset, j.aperture - 1) == offset % j.aperture
  }

  // ---------------------------------------------------------------- bytes of a list

  lemma RangeAt(addr: nat, len: nat, k: nat)
    requires k < len
    ensures Range(addr, len)[k] == U64(addr + k)
  {
  }

  lemma FlattenAt(s: seq<Extent>, i: nat, k: nat)
    requires i < |s| && k < s[i].len
    ensures Total(s[..i]) + k < |Flatten(s)| == Total(s)
    ensures Flatten(s)[Total(s[..i]) + k] == U64(s[i].addr + k)
  {
    var a, b := s[..i], s[i..];
    hide Range, U64, Total;
    assert s == a + b;
    FlattenConcat(a, b);
    FlattenLength(a);
    FlattenLength(s);
    RangeAt(s[i].addr, s[i].len, k);
    assert Flatten(b) == Range(s[i].addr, s[i].len) + Flatten(b[1..]);
    assert Flatten(s)[|Flatten(a)| + k] == Flatten(b)[k];
  }

  lemma TrackValid(j: Job, p: Progress)
    requires ValidJob(j) && OnTrack(j, p)
    ensures ValidProgress(j, p) && p.offset < Total(j.sgl)
  {
    FlattenAt(j.sgl, p.sgIdx, p.sgOffset);
    LenBound(j.sgl, p.sgIdx);
  }

  lemma LenBound(s: seq<Extent>, i: nat)
    requires i < |s|
    ensures s[i].len <= Total(s) && Total(s[..i]) + s[i].len <= Total(s)
  {
    assert s == s[..i] + s[i..];
    TotalConcat(s[..i], s[i..]);
    assert Lens(s[i..])[0] == s[i].len;
  }

  lemma NoWrap32(x: nat)
    requires x < 0x1_0000_0000
    ensures U32(x) == x
  {
  }

  lemma DropPrefix(a: seq<nat>, b: seq<nat>, c: seq<nat>)
    ensures ((a + b) + c)[|a|..] == b + c
  {
  }

  lemma RestFlatten(list: seq<Extent>, k: nat)
    requires list != [] && k <= list[0].len < 0x1_0000_0000
    ensures |Flatten(list)| >= k && Flatten(Rest(list, 0, k)) == Flatten(list)[k..]
  {
    var a, n := list[0].addr, list[0].len - k;
    NoWrap32(n);
    hide U64, U32, Range;
    var rest, tail := Rest(list, 0, k), Flatten(list[1..]);
    RangeSplit(a, k, n);
    assert rest[1..] == list[1..];
    assert Flatten(list) == (Range(a, k) + Range(U64(a + k), n)) + tail;
    assert Flatten(rest) == Range(U64(a + k), n) + tail;
    hide Flatten, Rest;
    DropPrefix(Range(a, k), Range(U64(a + k), n), tail);
  }

  // ---------------------------------------------------------------- what a pass covers

  lemma SamePrefix(a: seq<nat>, b: seq<nat>, c: seq<nat>, d: seq<nat>)
    requires a + b == c + d && |a| == |c|
    ensures a == c
  {
    assert a == (a + b)[..|a|] && c == (c + d)[..|c|];
  }

  lemma PrefixCovers(ws: seq<Window>, n: nat, host: seq<nat>, ep: nat, aperture: nat, offset: nat, blenMax: nat)
    requires aperture > 0 && n <= |ws| && Covers(ws, host, ep, aperture, offset, blenMax)
    ensures Bytes(ws, n) <= |host| && Covers(ws[..n], host[..Bytes(ws, n)], ep, aperture, offset, blenMax)
  {
    var a, b := ws[..n], ws[n..];
    assert HostOf(ws) == HostOf(a) + HostOf(b) && EpOf(ws) == EpOf(a) + EpOf(b);
    FlattenConcat(HostOf(a), HostOf(b));
    FlattenConcat(EpOf(a), EpOf(b));
    EqualLens(a);
    EqualLens(ws);
    FlattenLength(HostOf(a));
    var k := Bytes(ws, n);
    hide Total, HostOf, EpOf, Folded, Flatten;
    assert Flatten(HostOf(a)) == host[..k];
    FoldedSplit(ep, aperture, offset, k, |host| - k);
    SamePrefix(Flatten(EpOf(a)), Flatten(EpOf(b)), Folded(ep, aperture, offset, k),
               Folded(ep, aperture, offset + k, |host| - k));
  }

  lemma PassCovers(j: Job, p: Progress)
    requires ValidJob(j) && ValidProgress(j, p)
    ensures var h, b := Flatten(Rest(Walked(j, p), 0, p.sgOffset)), |Flatten(HostOf(Pass(j, p)))|;
            && b <= |h| && Covers(Pass(j, p), h[..b], j.ep, j.aperture, AndBits(p.offset, j.aperture - 1), j.blenMax)
  {
    hide Covers, FoldAll, Rest, AndBits;
    var ws, h := PassWindows(j, p), Flatten(Rest(Walked(j, p), 0, p.sgOffset));
    var n := Min(|ws|, p.room);
    FoldAllCovers(Rest(Walked(j, p), 0, p.sgOffset), AndBits(p.offset, j.aperture - 1), j.ep, j.aperture, j.blenMax);
    PrefixCovers(ws, n, h, j.ep, j.aperture, AndBits(p.offset, j.aperture - 1), j.blenMax);
    FlattenLength(HostOf(ws[..n]));
  }

  /** What a pass builds are the first bytes of the rest of the walked entries. */
  lemma PassBytes(j: Job, p: Progress)
    requires ValidJob(j) && ValidProgress(j, p)
    ensures var h, all := Flatten(HostOf(Pass(j, p))), Flatten(Rest(Walked(j, p), 0, p.sgOffset));
            |h| <= |all| && h == all[..|h|] && (h == [] <==> Pass(j, p) == [])
    ensures |Flatten(EpOf(Pass(j, p)))| == |Flatten(HostOf(Pass(j, p)))|
  {
    PassCovers(j, p);
    var ws := Pass(j, p);
    FlattenLength(HostOf(ws));
    EqualLens(ws);
    if ws != [] {
      assert Lens(HostOf(ws))[0] == ws[0].len;
    } else {
      assert HostOf(ws) == [];
    }
  }

  // ---------------------------------------------------------------- the host side

  /** The walk of a pass starts at the first entry, whatever entry the request has come to. */
  lemma WalkHead(list: seq<Extent>, k: nat)
    requires list != [] && 0 < list[0].len < 0x1_0000_0000 && k < 0x1_0000_0000
    ensures var h := Flatten(Rest(list, 0, k));
            if k == list[0].len then h == Flatten(list[1..]) else h != [] && h[0] == U64(list[0].addr + k)
  {
    var rest := Rest(list, 0, k);
    var left := U32(list[0].len - k);
    NotFull(list[0].len, k);
    hide U32, U64, Range;
    assert rest[1..] == list[1..];
    assert Flatten(rest) == Range(U64(list[0].addr + k), left) + Flatten(list[1..]);
    if left > 0 {
      RangeHead(list[0].addr + k, left);
    }
  }

  lemma NotFull(len: nat, k: nat)
    requires len < 0x1_0000_0000 && k < 0x1_0000_0000
    ensures U32(len - k) == 0 <==> k == len
  {
  }

  lemma RangeHead(a: nat, n: nat)
    requires n > 0
    ensures Range(U64(a), n)[0] == U64(a)
  {
    assert U64(U64(a) + 0) == U64(a);
  }

  lemma DistinctAt(s: seq<nat>, i: nat, j: nat)
    requires Distinct(s) && i < j < |s|
    ensures s[i] != s[j]
  {
  }

  lemma NoBytes(s: seq<Extent>)
    ensures Total(s[..0]) == 0
  {
    assert Lens(s[..0]) == [];
  }

  lemma EntriesDiffer(sgl: seq<Extent>, i: nat)
    requires 0 < i < |sgl| && Distinct(Flatten(sgl)) && sgl[0].len > 0 && sgl[i].len > 0
    ensures U64(sgl[0].addr) != U64(sgl[i].addr) && Total(sgl[..i]) > 0
  {
    hide Flatten, Total, U64, Distinct;
    var all, start := Flatten(sgl), Total(sgl[..i]);
    FlattenAt(sgl, 0, 0);
    FlattenAt(sgl, i, 0);
    NoBytes(sgl);
    LenBound(sgl[..i], 0);
    DistinctAt(all, 0, start);
  }

  lemma LaterStartsWrong(j: Job, p: Progress)
    requires Fair(j) && OnTrack(j, p) && p.sgIdx > 0
    ensures var h := Flatten(Rest(Walked(j, p), 0, p.sgOffset));
            p.offset < |Flatten(j.sgl)| && (h != [] ==> h[0] != Flatten(j.sgl)[p.offset])
  {
    var list, k, all := Walked(j, p), p.sgOffset, Flatten(j.sgl);
    FlattenAt(j.sgl, p.sgIdx, k);
    LenBound(j.sgl, 0);
    LenBound(j.sgl, p.sgIdx);
    EntriesDiffer(j.sgl, p.sgIdx);
    WalkHead(list, k);
    hide Distinct, Total, U64, U32;
    if k == list[0].len {
      SkipsWholeEntry(j, p);
    } else {
      ShiftsDiffer(j.sgl[0].addr, j.sgl[p.sgIdx].addr, k);
    }
  }

  lemma ShiftsDiffer(a: nat, b: nat, k: nat)
    requires a < 0x1_0000_0000_0000_0000 && b < 0x1_0000_0000_0000_0000 && U64(a) != U64(b)
    ensures U64(a + k) != U64(b + k)
  {
    SameShift(a, b, k);
  }

  lemma SkipsWholeEntry(j: Job, p: Progress)
    requires Fair(j) && OnTrack(j, p) && p.sgIdx > 0 && p.sgOffset == j.sgl[0].len
    ensures var h := Flatten(Walked(j, p)[1..]);
            p.offset < |Flatten(j.sgl)| && (h != [] ==> h[0] != Flatten(j.sgl)[p.offset])
  {
    var list, all, n := Walked(j, p), Flatten(j.sgl), j.sgl[0].len;
    FlattenAt(j.sgl, p.sgIdx, n);
    EntriesDiffer(j.sgl, p.sgIdx);
    var h := Flatten(list[1..]);
    if h != [] {
      assert j.sgl == list + j.sgl[|list|..];
      FlattenConcat(list, j.sgl[|list|..]);
      assert Flatten(list) == Range(list[0].addr, n) + h;
      assert all[n] == h[0];
    }
  }

  /** A further pass builds the right bytes of the request exactly when it starts in the first
      scatter-list entry. */
  lemma FurtherPassExactly(j: Job, p: Progress)
    requires Fair(j) && OnTrack(j, p)
    ensures ValidProgress(j, p) && (RightHost(j, p, Pass(j, p)) <==> p.sgIdx == 0)
  {
    TrackValid(j, p);
    hide ValidJob, ValidProgress, Distinct, Rest, AndBits, Total, U64, U32;
    PassBytes(j, p);
    var h, all := Flatten(HostOf(Pass(j, p))), Flatten(j.sgl);
    FlattenAt(j.sgl, p.sgIdx, p.sgOffset);
    if p.sgIdx > 0 {
      LaterStartsWrong(j, p);
    } else {
      FirstStartsRight(j, p);
    }
  }

  lemma FirstStartsRight(j: Job, p: Progress)
    requires Fair(j) && OnTrack(j, p) && p.sgIdx == 0
    ensures ValidProgress(j, p) && p.offset == p.sgOffset <= |Flatten(j.sgl)|
    ensures Flatten(Rest(Walked(j, p), 0, p.sgOffset)) == Flatten(j.sgl)[p.offset..]
    ensures Pass(j, p) != []
  {
    TrackValid(j, p);
    LenBound(j.sgl, 0);
    assert Walked(j, p) == j.sgl;
    RestFlatten(j.sgl, p.sgOffset);
    var list := Rest(j.sgl, 0, p.sgOffset);
    assert Total(j.sgl[..0]) == 0;
    FirstWindow(list, AndBits(p.offset, j.aperture - 1), j.ep, j.aperture, j.blenMax);
  }

  // ---------------------------------------------------------------- the endpoint side

  lemma FoldedAt(ep: nat, aperture: nat, x: nat, y: nat, n: nat, i: nat)
    requires aperture > 0 && x % aperture == y % aperture && i < n
    ensures Folded(ep, aperture, x, n)[i] == Folded(ep, aperture, y, n)[i]
  {
    hide U64;
    SamePhase(x, y, i, aperture);
  }

  lemma FoldedHead(ep: nat, aperture: nat, x: nat, n: nat)
    requires aperture > 0 && n > 0 && ep + aperture <= 0x1_0000_0000_0000_0000
    ensures Folded(ep, aperture, x, n)[0] == ep + x % aperture
  {
    assert x % aperture < aperture;
    NoWrap(ep + x % aperture);
  }

  lemma {:induction false} FoldedPhase(ep: nat, aperture: nat, x: nat, y: nat, n: nat)
    requires aperture > 0 && x % aperture == y % aperture
    ensures Folded(ep, aperture, x, n) == Folded(ep, aperture, y, n)
  {
    var a, b := Folded(ep, aperture, x, n), Folded(ep, aperture, y, n);
    hide Folded;
    forall i | 0 <= i < n
      ensures a[i] == b[i]
    {
      FoldedAt(ep, aperture, x, y, n, i);
    }
  }

  /** It meets the right bytes of the window exactly when the mask is the remainder. */
  lemma MaskDecides(j: Job, p: Progress)
    requires ValidJob(j) && ValidProgress(j, p) && Pass(j, p) != []
    ensures RightEp(j, p, Pass(j, p)) <==> MaskRight(j, p.offset)
  {
    hide AndBits, Flatten, EpOf, HostOf, Folded, U64;
    var phase, e := AndBits(p.offset, j.aperture - 1), Flatten(EpOf(Pass(j, p)));
    PassCovers(j, p);
    PassBytes(j, p);
    PhaseInWindow(p.offset, j.aperture);
    hide Pass, InWindow, Rest;
    assert e == Folded(j.ep, j.aperture, phase, |e|);
    if MaskRight(j, p.offset) {
      FoldedPhase(j.ep, j.aperture, phase, p.offset, |e|);
    } else {
      FoldedHead(j.ep, j.aperture, phase, |e|);
      FoldedHead(j.ep, j.aperture, p.offset, |e|);
    }
  }

  lemma NoWrap(x: nat)
    requires x < 0x1_0000_0000_0000_0000
    ensures U64(x) == x
  {
  }

  ghost predicate RightPass(j: Job, p: Progress)
    requires ValidJob(j) && ValidProgress(j, p)
  {
    RightHost(j, p, Pass(j, p)) && RightEp(j, p, Pass(j, p))
  }

  /** Both sides of a pass are right exactly when it starts in the first entry with the right mask. */
  lemma PassExactly(j: Job, p: Progress)
    requires Fair(j) && OnTrack(j, p)
    ensures ValidProgress(j, p) && (RightPass(j, p) <==> p.sgIdx == 0 && MaskRight(j, p.offset))
  {
    FurtherPassExactly(j, p);
    hide Fair, OnTrack, MaskRight, AndBits, RightEp;
    if p.sgIdx == 0 {
      MaskDecides(j, p);
    }
  }

  // ---------------------------------------------------------------- from pass to pass

  /** The windows of the whole request, and how many of them the first entry makes. */
  function Whole(j: Job): seq<Window>
    requires ValidJob(j)
  {
    FoldAll(j.sgl, 0, j.ep, j.aperture, j.blenMax)
  }

  function InFirst(j: Job): nat
    requires ValidJob(j)
  {
    if j.sgl == [] then 0 else |Fold(j.sgl[0].addr, j.sgl[0].len, 0, j.ep, j.aperture, j.blenMax)|
  }

  lemma {:induction false} FoldTail(addr: nat, len: nat, offset: nat, ep: nat, aperture: nat, blenMax: nat, q: nat)
    requires aperture > 0 && blenMax > 0 && addr < 0x1_0000_0000_0000_0000
    requires q <= |Fold(addr, len, offset, ep, aperture, blenMax)|
    ensures var ws := Fold(addr, len, offset, ep, aperture, blenMax);
            var b := Bytes(ws, q);
            && b <= len && (b < len <==> q < |ws|)
            && ws[q..] == Fold(U64(addr + b), len - b, offset + b, ep, aperture, blenMax)
    decreases q
  {
    hide PieceLen, Fold, U64, Bytes;
    var ws := Fold(addr, len, offset, ep, aperture, blenMax);
    FoldEmpty(addr, len, offset, ep, aperture, blenMax);
    if q == 0 {
      NothingYet(ws);
      assert ws[0..] == ws;
      NoWrap(addr);
    } else {
      var n := PieceLen(offset, len, aperture, blenMax);
      FoldStep(addr, len, offset, ep, aperture, blenMax);
      var rest := Fold(U64(addr + n), len - n, offset + n, ep, aperture, blenMax);
      BytesCons(Window(addr, ep + offset % aperture, n), rest, q);
      var b := Bytes(rest, q - 1);
      Small64(addr + n);
      FoldTail(U64(addr + n), len - n, offset + n, ep, aperture, blenMax, q - 1);
      U64Add(addr + n, b);
      assert rest[q - 1..] == Fold(U64(addr + n + b), len - n - b, offset + n + b, ep, aperture, blenMax);
    }
  }

  lemma FoldEmpty(addr: nat, len: nat, offset: nat, ep: nat, aperture: nat, blenMax: nat)
    requires aperture > 0 && blenMax > 0
    ensures Fold(addr, len, offset, ep, aperture, blenMax) == [] <==> len == 0
  {
  }

  lemma Small64(x: nat)
    ensures U64(x) < 0x1_0000_0000_0000_0000
  {
  }

  lemma BytesCons(w: Window, rest: seq<Window>, q: nat)
    requires 0 < q <= |rest| + 1
    ensures Bytes([w] + rest, q) == w.len + Bytes(rest, q - 1) && ([w] + rest)[q..] == rest[q - 1..]
  {
    var ws := [w] + rest;
    var a := HostOf(ws[..q]);
    assert ws[..q] == [w] + rest[..q - 1];
    assert a[1..] == HostOf(rest[..q - 1]);
    assert Lens(a)[1..] == Lens(a[1..]);
  }

  lemma BytesPlus(ws: seq<Window>, q: nat, n: nat)
    requires q + n <= |ws|
    ensures Bytes(ws, q + n) == Bytes(ws, q) + Bytes(ws[q..], n)
  {
    HostTake(ws[..q + n], q);
    assert ws[..q + n][..q] == ws[..q] && ws[..q + n][q..] == ws[q..][..n];
  }

  lemma {:induction false} FoldAllPhase(sgl: seq<Extent>, x: nat, y: nat, ep: nat, aperture: nat, blenMax: nat)
    requires aperture > 0 && blenMax > 0 && x % aperture == y % aperture
    ensures FoldAll(sgl, x, ep, aperture, blenMax) == FoldAll(sgl, y, ep, aperture, blenMax)
    decreases |sgl|
  {
    hide Fold;
    if sgl != [] {
      FoldPhase(sgl[0].addr, sgl[0].len, x, y, ep, aperture, blenMax);
      SamePhase(x, y, sgl[0].len, aperture);
      FoldAllPhase(sgl[1..], x + sgl[0].len, y + sgl[0].len, ep, aperture, blenMax);
    }
  }

  /** A pass that starts at window q, inside the first entry, with the right mask builds the
      windows of the request from there on. */
  lemma PassFromWindow(j: Job, q: nat, room: nat)
    requires ValidJob(j) && q < InFirst(j) && room >= 1
    ensures j.sgl != [] && q < |Whole(j)| && Bytes(Whole(j), q) < j.sgl[0].len <= Total(j.sgl)
    ensures var p := Progress(Bytes(Whole(j), q), 0, Bytes(Whole(j), q), room);
            ValidProgress(j, p) && (MaskRight(j, p.offset) ==> PassWindows(j, p) == Whole(j)[q..])
  {
    hide Fold, FoldAll, AndBits, U64, HostOf, Total, Rest;
    var ws, tail := First(j), Others(j);
    WholeParts(j);
    TakeDrop(ws, tail, q);
    FirstTail(j, q);
    LenBound(j.sgl, 0);
    var b := Bytes(Whole(j), q);
    var p := Progress(b, 0, b, room);
    if MaskRight(j, b) {
      assert Walked(j, p) == j.sgl;
      var list := Rest(j.sgl, 0, b);
      PhaseInWindow(b, j.aperture);
      FoldAllPhase(list, AndBits(b, j.aperture - 1), b, j.ep, j.aperture, j.blenMax);
      RestParts(j, b);
    }
  }

  /** The windows of the first entry, and those of the others. */
  function First(j: Job): seq<Window>
    requires ValidJob(j) && j.sgl != []
  {
    Fold(j.sgl[0].addr, j.sgl[0].len, 0, j.ep, j.aperture, j.blenMax)
  }

  function Others(j: Job): seq<Window>
    requires ValidJob(j) && j.sgl != []
  {
    FoldAll(j.sgl[1..], j.sgl[0].len, j.ep, j.aperture, j.blenMax)
  }

  lemma WholeParts(j: Job)
    requires ValidJob(j) && j.sgl != []
    ensures Whole(j) == First(j) + Others(j) && InFirst(j) == |First(j)|
  {
  }

  lemma TakeDrop(a: seq<Window>, b: seq<Window>, q: nat)
    requires q <= |a|
    ensures (a + b)[..q] == a[..q] && (a + b)[q..] == a[q..] + b
  {
  }

  lemma FirstTail(j: Job, q: nat)
    requires ValidJob(j) && j.sgl != [] && q <= |First(j)|
    ensures var b := Bytes(First(j), q);
            && b <= j.sgl[0].len && (b < j.sgl[0].len <==> q < |First(j)|)
            && First(j)[q..] == Fold(U64(j.sgl[0].addr + b), j.sgl[0].len - b, b, j.ep, j.aperture, j.blenMax)
  {
    FoldTail(j.sgl[0].addr, j.sgl[0].len, 0, j.ep, j.aperture, j.blenMax, q);
  }

  lemma RestParts(j: Job, b: nat)
    requires ValidJob(j) && j.sgl != [] && b <= j.sgl[0].len <= Total(j.sgl)
    ensures FoldAll(Rest(j.sgl, 0, b), b, j.ep, j.aperture, j.blenMax)
         == Fold(U64(j.sgl[0].addr + b), j.sgl[0].len - b, b, j.ep, j.aperture, j.blenMax) + Others(j)
  {
    hide U64, U32, Fold, Total, FoldAll;
    NoWrap32(j.sgl[0].len - b);
    var list := Rest(j.sgl, 0, b);
    assert list[1..] == j.sgl[1..] && list[0] == Extent(U64(j.sgl[0].addr + b), j.sgl[0].len - b);
    FoldAllHead(list, b, j.ep, j.aperture, j.blenMax);
  }

  lemma FoldAllHead(list: seq<Extent>, offset: nat, ep: nat, aperture: nat, blenMax: nat)
    requires aperture > 0 && blenMax > 0 && list != []
    ensures FoldAll(list, offset, ep, aperture, blenMax)
         == Fold(list[0].addr, list[0].len, offset, ep, aperture, blenMax)
            + FoldAll(list[1..], offset + list[0].len, ep, aperture, blenMax)
  {
  }

  /** Where the windows of the request end, and which of them lie in the first entry. */
  lemma WindowBytes(j: Job, q: nat)
    requires Fair(j) && j.sgl != [] && q <= |Whole(j)|
    ensures Bytes(Whole(j), q) <= Total(j.sgl) && (Bytes(Whole(j), q) < Total(j.sgl) <==> q < |Whole(j)|)
    ensures Bytes(Whole(j), q) < j.sgl[0].len <==> q < InFirst(j)
    ensures 0 < InFirst(j) <= |Whole(j)|
  {
    hide Fold, FoldAll, HostOf, U64, Flatten, Distinct;
    var ws, whole := First(j), Whole(j);
    WholeParts(j);
    WholeBytes(j, q);
    FirstTail(j, 0);
    FirstTail(j, |ws|);
    TakeDrop(ws, Others(j), |ws|);
    NothingYet(ws);
    hide Bytes, Whole, First, Others, InFirst;
    if q < |ws| {
      FirstTail(j, q);
      TakeSame(j, q);
    } else {
      TakeSame(j, |ws|);
      BytesPlus(whole, |ws|, q - |ws|);
    }
  }

  lemma TakeSame(j: Job, q: nat)
    requires ValidJob(j) && j.sgl != [] && q <= |First(j)|
    ensures q <= |Whole(j)| && Bytes(Whole(j), q) == Bytes(First(j), q)
  {
    hide Fold, FoldAll, HostOf, Total;
    WholeParts(j);
    TakeDrop(First(j), Others(j), q);
  }

  lemma WholeBytes(j: Job, q: nat)
    requires ValidJob(j) && q <= |Whole(j)|
    ensures Bytes(Whole(j), q) <= Total(j.sgl) && (Bytes(Whole(j), q) < Total(j.sgl) <==> q < |Whole(j)|)
  {
    hide Fold, FoldAll, Total, HostOf, Flatten, EpOf, Folded;
    var whole := Whole(j);
    FoldAllCovers(j.sgl, 0, j.ep, j.aperture, j.blenMax);
    FlattenLength(HostOf(whole));
    FlattenLength(j.sgl);
    HostTake(whole, q);
    if q < |whole| {
      TotalPositive(whole, q);
    } else {
      AllBytes(whole);
    }
  }

  lemma NothingYet(ws: seq<Window>)
    ensures Bytes(ws, 0) == 0
  {
    assert HostOf(ws[..0]) == [] && Lens([]) == [];
  }

  lemma AllBytes(ws: seq<Window>)
    ensures Bytes(ws, |ws|) == Total(HostOf(ws))
  {
    assert ws[..|ws|] == ws;
  }

  /** A position in a list, moved on by a number of bytes. */
  lemma {:induction false} MoveMeaning(list: seq<Extent>, idx: nat, off: nat, bytes: nat)
    requires forall i :: 0 <= i < |list| ==> list[i].len > 0
    requires if idx < |list| then off < list[idx].len else idx == |list| && off == 0
    requires Total(list[..idx]) + off + bytes <= Total(list) < 0x1_0000_0000
    ensures var m, at := Move(list, idx, off, bytes), Total(list[..idx]) + off + bytes;
            && idx <= m.0 <= |list| && at == Total(list[..m.0]) + m.1
            && (m.0 < |list| ==> m.1 < list[m.0].len) && (m.0 < |list| <==> at < Total(list))
    decreases |list| - idx
  {
    hide Total;
    if idx < |list| {
      LenBound(list, idx);
      NoWrap32(list[idx].len - off);
      var left := list[idx].len - off;
      if bytes >= left {
        NextTotal(list, idx);
        MoveMeaning(list, idx + 1, 0, bytes - left);
      } else {
        NoWrap32(off + bytes);
      }
    } else {
      assert list[..idx] == list;
    }
  }

  lemma NextTotal(list: seq<Extent>, i: nat)
    requires i < |list|
    ensures Total(list[..i + 1]) == Total(list[..i]) + list[i].len
  {
    assert Lens(list[..i + 1]) == Lens(list[..i]) + [list[i].len];
    SumSnoc(Lens(list[..i]), list[i].len);
  }
}
