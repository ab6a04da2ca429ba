/** Runs of the request loop of an aperture transfer: which requests come out right. */
module ApertureRuns {
  import opened Words
  import opened LinearCopy
  import opened Aperture
  import opened AperturePasses

  /** Loop states from the start of a request: `room` entries before the end of a ring of r. Every
      state but the last goes through one more pass. */
  ghost predicate PassRun(j: Job, states: seq<Progress>, room: nat, r: nat) {
    && Fair(j) && 1 <= room <= r && states != [] && states[0] == Progress(0, 0, 0, room)
    && forall k :: 0 <= k < |states| - 1 ==>
         && ValidProgress(j, states[k]) && states[k].offset < Total(j.sgl) && states[k].room <= r
         && states[k + 1] == AfterPass(j, states[k], r)
  }

  /** The window of the request with which pass i starts when all went well. */
  function Boundary(room: nat, r: nat, i: nat): nat {
    if i == 0 then 0 else room + (i - 1) * r
  }

  /** A pass may start with window q: it is one of the first entry's, and the mask is right there. */
  ghost predicate StartsRight(j: Job, q: nat)
    requires ValidJob(j)
  {
    q < InFirst(j) && q <= |Whole(j)| && MaskRight(j, Bytes(Whole(j), q))
  }

  /** Passes 0 to n - 1 all build the right windows. */
  ghost predicate RightPasses(j: Job, states: seq<Progress>, n: nat)
    requires ValidJob(j) && n <= |states|
  {
    forall k :: 0 <= k < n ==> ValidProgress(j, states[k]) && RightPass(j, states[k])
  }

  lemma AfterRightPass(j: Job, q: nat, room: nat, r: nat)
    requires Fair(j) && StartsRight(j, q) && 1 <= room <= r
    ensures var p := Progress(Bytes(Whole(j), q), 0, Bytes(Whole(j), q), room);
            && ValidProgress(j, p) && q < |Whole(j)|
            && var n := Min(|Whole(j)| - q, room);
            && Pass(j, p) == Whole(j)[q..q + n]
            && AfterPass(j, p, r).offset == Bytes(Whole(j), q + n)
            && (q + n < |Whole(j)| ==>
                  && OnTrack(j, AfterPass(j, p, r)) && AfterPass(j, p, r).room == r
                  && (AfterPass(j, p, r).sgIdx == 0 <==> q + n < InFirst(j)))
  {
    hide FoldAll, Fold, HostOf, Total, AndBits, Rest, Flatten, Distinct, U64, PassWindows, Whole, InFirst, Move;
    var whole := Whole(j);
    PassFromWindow(j, q, room);
    var b := Bytes(whole, q);
    var p := Progress(b, 0, b, room);
    var ws := PassWindows(j, p);
    var n := Min(|whole| - q, room);
    assert ws == whole[q..];
    assert ws[..n] == whole[q..q + n];
    BytesPlus(whole, q, n);
    assert Walked(j, p) == j.sgl;
    AfterBytes(j, p, Bytes(ws, n), q + n);
  }

  lemma AfterBytes(j: Job, p: Progress, bytes: nat, q: nat)
    requires Fair(j) && j.sgl != [] && p.sgIdx == 0 && p.sgOffset == p.offset < j.sgl[0].len
    requires q <= |Whole(j)| && p.offset + bytes == Bytes(Whole(j), q)
    ensures var m := Move(j.sgl, 0, p.sgOffset, bytes);
            && U32(p.offset + bytes) == Bytes(Whole(j), q)
            && (q < |Whole(j)| ==>
                  && m.0 < |j.sgl| && m.1 < j.sgl[m.0].len && p.offset + bytes == Total(j.sgl[..m.0]) + m.1
                  && (m.0 == 0 <==> q < InFirst(j)))
  {
    hide FoldAll, Fold, HostOf, Total, Flatten, Distinct, Whole, InFirst, Move, Bytes;
    WindowBytes(j, q);
    NoWrap32(p.offset + bytes);
    NoBytes(j.sgl);
    MoveMeaning(j.sgl, 0, p.sgOffset, bytes);
    var m := Move(j.sgl, 0, p.sgOffset, bytes);
    if q < |Whole(j)| && m.0 > 0 {
      NextTotal(j.sgl, 0);
      TotalMonotone(j.sgl, 1, m.0);
    }
  }

  lemma TotalMonotone(s: seq<Extent>, i: nat, k: nat)
    requires i <= k <= |s|
    ensures Total(s[..i]) <= Total(s[..k])
  {
    assert s[..k] == s[..i] + s[i..k];
    TotalConcat(s[..i], s[i..k]);
  }

  lemma BoundaryStep(room: nat, r: nat, i: nat)
    ensures Boundary(room, r, i + 1) == Boundary(room, r, i) + if i == 0 then room else r
  {
  }

  /** The state before pass i, when all passes before it were right. */
  ghost predicate Before(j: Job, p: Progress, room: nat, r: nat, i: nat)
    requires ValidJob(j)
  {
    var q := Boundary(room, r, i);
    && p.offset == Bytes(Whole(j), Min(q, |Whole(j)|))
    && (q < |Whole(j)| ==>
          OnTrack(j, p) && p.room == (if i == 0 then room else r) && (p.sgIdx == 0 <==> q < InFirst(j)))
  }

  lemma BeforeFirst(j: Job, room: nat, r: nat)
    requires Fair(j) && room >= 1
    ensures Before(j, Progress(0, 0, 0, room), room, r, 0)
  {
    NothingYet(Whole(j));
    if Whole(j) != [] {
      WindowBytes(j, 0);
      NoBytes(j.sgl);
    }
  }

  lemma UnfinishedBefore(j: Job, p: Progress, room: nat, r: nat, i: nat)
    requires Fair(j) && Before(j, p, room, r, i)
    ensures p.offset < Total(j.sgl) <==> Boundary(room, r, i) < |Whole(j)|
    ensures p.offset <= Total(j.sgl)
  {
    hide Boundary, Whole, OnTrack, Bytes, InFirst, Total;
    WholeBytes(j, Min(Boundary(room, r, i), |Whole(j)|));
  }

  /** A pass before which all went well is right exactly when its window may start one. */
  lemma BeforeDecides(j: Job, p: Progress, room: nat, r: nat, i: nat)
    requires Fair(j) && Before(j, p, room, r, i) && Boundary(room, r, i) < |Whole(j)|
    ensures ValidProgress(j, p) && (RightPass(j, p) <==> StartsRight(j, Boundary(room, r, i)))
  {
    hide Boundary, Whole, Bytes, InFirst, Fair, RightPass, MaskRight;
    PassExactly(j, p);
  }

  lemma BeforeNext(j: Job, p: Progress, room: nat, r: nat, i: nat)
    requires Fair(j) && 1 <= room <= r && Before(j, p, room, r, i) && StartsRight(j, Boundary(room, r, i))
    ensures ValidProgress(j, p) && p.room <= r && Before(j, AfterPass(j, p, r), room, r, i + 1)
    ensures Pass(j, p) == Whole(j)[Boundary(room, r, i)..Min(Boundary(room, r, i + 1), |Whole(j)|)]
  {
    var q := Boundary(room, r, i);
    BoundaryStep(room, r, i);
    FirstOffset(j, p);
    assert Boundary(room, r, i + 1) == q + p.room;
    hide Boundary, Whole, Bytes, InFirst, Fair, MaskRight, Pass, AfterPass, OnTrack, Total;
    AfterRightPass(j, q, p.room, r);
  }

  lemma FirstOffset(j: Job, p: Progress)
    requires OnTrack(j, p) && p.sgIdx == 0
    ensures p == Progress(p.offset, 0, p.offset, p.room)
  {
    NoBytes(j.sgl);
  }

  // ---------------------------------------------------------------- whole runs

  lemma {:induction false} RunBefore(j: Job, states: seq<Progress>, room: nat, r: nat, i: nat)
    requires PassRun(j, states, room, r) && i < |states| && RightPasses(j, states, i)
    ensures Before(j, states[i], room, r, i)
    ensures forall k :: 0 <= k < i ==> StartsRight(j, Boundary(room, r, k))
    decreases i
  {
    hide Boundary, Before, StartsRight, AfterPass, RightPass, Distinct, ValidJob;
    if i == 0 {
      BeforeFirst(j, room, r);
    } else {
      RunBefore(j, states, room, r, i - 1);
      UnfinishedBefore(j, states[i - 1], room, r, i - 1);
      BeforeDecides(j, states[i - 1], room, r, i - 1);
      BeforeNext(j, states[i - 1], room, r, i - 1);
    }
  }

  lemma {:induction false} StartsMakeRight(j: Job, states: seq<Progress>, room: nat, r: nat, i: nat)
    requires PassRun(j, states, room, r) && i < |states|
    requires forall k :: 0 <= k < i ==> StartsRight(j, Boundary(room, r, k))
    ensures RightPasses(j, states, i)
    decreases i
  {
    hide Boundary, StartsRight, AfterPass, RightPass, Distinct, ValidJob;
    if i > 0 {
      StartsMakeRight(j, states, room, r, i - 1);
      RunBefore(j, states, room, r, i - 1);
      hide Before;
      UnfinishedBefore(j, states[i - 1], room, r, i - 1);
      BeforeDecides(j, states[i - 1], room, r, i - 1);
    }
  }

  /** Every pass of a run is right exactly when every pass starts with a window of the first entry
      and the right mask. */
  lemma RunRightExactly(j: Job, states: seq<Progress>, room: nat, r: nat)
    requires PassRun(j, states, room, r)
    ensures RightPasses(j, states, |states| - 1)
       <==> forall k :: 0 <= k < |states| - 1 ==> StartsRight(j, Boundary(room, r, k))
  {
    hide Boundary, StartsRight, AfterPass, RightPass, Distinct, ValidJob, Before;
    if RightPasses(j, states, |states| - 1) {
      RunBefore(j, states, room, r, |states| - 1);
    }
    if forall k :: 0 <= k < |states| - 1 ==> StartsRight(j, Boundary(room, r, k)) {
      StartsMakeRight(j, states, room, r, |states| - 1);
    }
  }

  /** What a caller can check before the call: no pass but one of the first entry's windows, with
      the right mask. */
  ghost predicate Divides(j: Job, room: nat, r: nat)
    requires ValidJob(j)
  {
    forall k: nat :: Boundary(room, r, k) < |Whole(j)| ==> StartsRight(j, Boundary(room, r, k))
  }

  lemma BoundaryGrows(room: nat, r: nat, i: nat, k: nat)
    requires i <= k && 1 <= room <= r
    ensures Boundary(room, r, i) <= Boundary(room, r, k)
    decreases k
  {
    if i < k {
      BoundaryStep(room, r, k - 1);
      BoundaryGrows(room, r, i, k - 1);
    }
  }

  /** The bytes of the request are right in every pass of a finished run exactly when its windows
      divide so; and then the passes together build the windows of the whole request, once each. */
  lemma RequestRightExactly(j: Job, states: seq<Progress>, room: nat, r: nat)
    requires PassRun(j, states, room, r) && states[|states| - 1].offset >= Total(j.sgl)
    ensures RightPasses(j, states, |states| - 1) <==> Divides(j, room, r)
    ensures Divides(j, room, r) ==> BuiltWindows(j, states, |states| - 1) == Whole(j)
  {
    var last := |states| - 1;
    hide Boundary, StartsRight, AfterPass, RightPass, Distinct, ValidJob, Before, Whole;
    if RightPasses(j, states, last) {
      RunBefore(j, states, room, r, last);
      UnfinishedBefore(j, states[last], room, r, last);
      forall k: nat | Boundary(room, r, k) < |Whole(j)|
        ensures StartsRight(j, Boundary(room, r, k))
      {
        if k >= last {
          BoundaryGrows(room, r, last, k);
        }
      }
      PassesBuild(j, states, room, r, last);
      TakeAll(Whole(j));
    }
    if Divides(j, room, r) {
      DividedRunRight(j, states, room, r, last);
    }
  }

  lemma TakeAll(ws: seq<Window>)
    ensures forall n :: n >= |ws| ==> ws[..Min(n, |ws|)] == ws
  {
  }

  /** However far the run is. */
  lemma {:induction false} DividedRunRight(j: Job, states: seq<Progress>, room: nat, r: nat, i: nat)
    requires PassRun(j, states, room, r) && Divides(j, room, r) && i < |states|
    ensures RightPasses(j, states, i)
    decreases i
  {
    hide Boundary, StartsRight, AfterPass, RightPass, Distinct, ValidJob, Before, Whole;
    if i > 0 {
      DividedRunRight(j, states, room, r, i - 1);
      RunBefore(j, states, room, r, i - 1);
      UnfinishedBefore(j, states[i - 1], room, r, i - 1);
      BeforeDecides(j, states[i - 1], room, r, i - 1);
    }
  }

  /** The windows that the first n passes of a run build, in order. */
  function BuiltWindows(j: Job, states: seq<Progress>, n: nat): seq<Window>
    requires ValidJob(j) && n <= |states| && forall k :: 0 <= k < n ==> ValidProgress(j, states[k])
  {
    if n == 0 then [] else BuiltWindows(j, states, n - 1) + Pass(j, states[n - 1])
  }

  lemma {:induction false} PassesBuild(j: Job, states: seq<Progress>, room: nat, r: nat, n: nat)
    requires PassRun(j, states, room, r) && n < |states| && RightPasses(j, states, n)
    ensures BuiltWindows(j, states, n) == Whole(j)[..Min(Boundary(room, r, n), |Whole(j)|)]
    decreases n
  {
    hide StartsRight, AfterPass, RightPass, Distinct, ValidJob, Before, Whole, Pass;
    if n > 0 {
      PassesBuild(j, states, room, r, n - 1);
      RunBefore(j, states, room, r, n - 1);
      UnfinishedBefore(j, states[n - 1], room, r, n - 1);
      BeforeDecides(j, states[n - 1], room, r, n - 1);
      BeforeNext(j, states[n - 1], room, r, n - 1);
      BoundaryGrows(room, r, n - 1, n);
      hide Boundary;
      Joined(Whole(j), Boundary(room, r, n - 1), Boundary(room, r, n));
    }
  }

  lemma Joined(ws: seq<Window>, a: nat, b: nat)
    requires a <= b && a <= |ws|
    ensures ws[..Min(a, |ws|)] + ws[a..Min(b, |ws|)] == ws[..Min(b, |ws|)]
  {
  }

  /** Windows that fit before the end of the ring need one pass and divide well. With an aperture that
      is a power of two only the boundaries matter, and a single entry always divides well. */
  lemma DividesWhen(j: Job, room: nat, r: nat)
    requires Fair(j) && j.sgl != [] && 1 <= room <= r
    ensures |Whole(j)| <= room ==> Divides(j, room, r)
    ensures AllOnes(j.aperture - 1) ==>
              (Divides(j, room, r) <==>
                 forall k: nat :: Boundary(room, r, k) < |Whole(j)| ==> Boundary(room, r, k) < InFirst(j))
    ensures AllOnes(j.aperture - 1) && |j.sgl| == 1 ==> Divides(j, room, r)
  {
    hide Whole, InFirst, AllOnes, AndBits, Fold, FoldAll, Total, Bytes, HostOf;
    WindowBytes(j, 0);
    NothingYet(Whole(j));
    if AllOnes(j.aperture - 1) {
      forall x: nat
        ensures MaskRight(j, x)
      {
        MaskKeepsRemainder(x, j.aperture - 1);
      }
    }
    if |j.sgl| == 1 {
      OneEntry(j);
    }
    ZeroMask(j);
    forall k: nat | k > 0
      ensures Boundary(room, r, k) >= room
    {
      BoundaryGrows(room, r, 1, k);
    }
  }

  lemma OneEntry(j: Job)
    requires ValidJob(j) && |j.sgl| == 1
    ensures InFirst(j) == |Whole(j)|
  {
    WholeParts(j);
    assert Others(j) == [];
  }

  lemma ZeroMask(j: Job)
    requires ValidJob(j)
    ensures MaskRight(j, 0)
  {
    DivUnique(0, j.aperture, 0, 0);
  }

  // ---------------------------------------------------------------- how a further pass fails

  /** A further pass finds nothing to build exactly when it walks the first entry alone and its
      offset is that entry's length; the source then links `desc_cnt - 1` descriptors of none. */
  lemma NothingBuiltExactly(j: Job, p: Progress)
    requires Fair(j) && OnTrack(j, p)
    ensures ValidProgress(j, p)
    ensures Pass(j, p) == [] <==> p.sgIdx > 0 && p.sgIdx == |j.sgl| - 1 && p.sgOffset == j.sgl[0].len
  {
    TrackValid(j, p);
    LenBound(j.sgl, 0);
    LenBound(j.sgl, p.sgIdx);
    var list, ws := Walked(j, p), PassWindows(j, p);
    WalkHead(list, p.sgOffset);
    hide Rest, FoldAll, AndBits, Total, EpOf, Distinct, Folded;
    FoldAllCovers(Rest(list, 0, p.sgOffset), AndBits(p.offset, j.aperture - 1), j.ep, j.aperture, j.blenMax);
    BuildsNothing(ws);
    if |list| > 1 {
      FlattenAt(list[1..], 0, 0);
    }
  }

  lemma BuildsNothing(ws: seq<Window>)
    requires forall i :: 0 <= i < |ws| ==> ws[i].len > 0
    ensures ws == [] <==> Flatten(HostOf(ws)) == []
  {
    FlattenLength(HostOf(ws));
    if ws != [] {
      assert Lens(HostOf(ws))[0] == ws[0].len;
    }
  }

  /** The start of such a request: entries of `a` and 100 bytes, a window of 4, a ring of 2. */
  function Short(a: nat): Job {
    Job([Extent(0x1000, a), Extent(0x5000, 100)], 0, 4, 4)
  }

  lemma ShortIsFair(a: nat)
    requires a == 1 || a == 4
    ensures Fair(Short(a))
  {
    hide Total, Flatten;
    var s := Short(a).sgl;
    TwoTotal(s);
    TwoRanges(s);
    hide Range;
    RangeBelow(0x1000, a);
    RangeBelow(0x5000, 100);
    TwoDistinct(Range(0x1000, a), Range(0x5000, 100), 0x1000, 0x5000);
  }

  lemma TwoTotal(s: seq<Extent>)
    requires |s| == 2
    ensures Total(s) == s[0].len + s[1].len
  {
    var a, b := s[0].len, s[1].len;
    assert Lens(s) == [a, b];
    assert Sum([a, b]) == a + Sum([b]) && Sum([b]) == b + Sum([]);
  }

  lemma TwoRanges(s: seq<Extent>)
    requires |s| == 2
    ensures Flatten(s) == Range(s[0].addr, s[0].len) + Range(s[1].addr, s[1].len)
  {
    assert s[1..] == [s[1]] && [s[1]][1..] == [];
    assert Flatten([s[1]]) == Range(s[1].addr, s[1].len) + Flatten([]);
  }

  lemma RangeBelow(addr: nat, len: nat)
    requires addr + len < 0x1_0000_0000_0000_0000
    ensures forall i :: 0 <= i < len ==> Range(addr, len)[i] == addr + i
  {
    forall i | 0 <= i < len
      ensures Range(addr, len)[i] == addr + i
    {
      NoWrap(addr + i);
    }
  }

  lemma TwoDistinct(r: seq<nat>, s: seq<nat>, a: nat, b: nat)
    requires (forall i :: 0 <= i < |r| ==> r[i] == a + i) && (forall i :: 0 <= i < |s| ==> s[i] == b + i)
    requires a + |r| <= b
    ensures Distinct(r + s)
  {
    var all := r + s;
    assert forall i :: 0 <= i < |all| ==> all[i] == if i < |r| then a + i else b + (i - |r|);
  }

  lemma FoldHead(addr: nat, len: nat, offset: nat, ep: nat, aperture: nat, blenMax: nat)
    requires aperture > 0 && blenMax > 0 && len > 0
    ensures var ws := Fold(addr, len, offset, ep, aperture, blenMax);
            && ws != [] && ws[0].len == PieceLen(offset, len, aperture, blenMax) && (ws[0].len == len ==> |ws| == 1)
  {
    FoldStep(addr, len, offset, ep, aperture, blenMax);
  }

  lemma TwoWindows(a: seq<Window>, b: seq<Window>, c: seq<Window>)
    requires |a| == 1 && b != []
    ensures |a + (b + c)| >= 2 && Bytes(a + (b + c), 2) == a[0].len + b[0].len
  {
    var ws := a + (b + c);
    var n, m := a[0].len, b[0].len;
    assert Lens(HostOf(ws[..2])) == [n, m];
    assert Sum([n, m]) == n + Sum([m]) && Sum([m]) == m + Sum([]);
  }

  /** Two entries, the second longer than the window. */
  ghost predicate TwoEntries(j: Job, a: nat, b: nat) {
    && Fair(j) && |j.sgl| == 2 && j.sgl[0].len == a && j.sgl[1].len == b && a <= j.blenMax && a <= j.aperture
    && j.aperture == j.blenMax < b
  }

  lemma TwoEntryWindows(j: Job, a: nat, b: nat)
    requires TwoEntries(j, a, b)
    ensures |Whole(j)| >= 2 && Bytes(Whole(j), 2) == a + PieceLen(a, b, j.aperture, j.blenMax)
  {
    hide Fold, Bytes, HostOf, Total, Flatten;
    var s := j.sgl[1..];
    FoldAllHead(j.sgl, 0, j.ep, j.aperture, j.blenMax);
    FoldAllHead(s, a, j.ep, j.aperture, j.blenMax);
    FoldHead(j.sgl[0].addr, a, 0, j.ep, j.aperture, j.blenMax);
    FoldHead(s[0].addr, b, a, j.ep, j.aperture, j.blenMax);
    ZeroMask(j);
    TwoWindows(Fold(j.sgl[0].addr, a, 0, j.ep, j.aperture, j.blenMax),
               Fold(s[0].addr, b, a, j.ep, j.aperture, j.blenMax),
               FoldAll(s[1..], a + b, j.ep, j.aperture, j.blenMax));
  }

  /** The first pass over a ring of 2 takes the first entry and as much of the second as the window holds. */
  lemma TwoEntryPass(j: Job, a: nat, b: nat)
    requires TwoEntries(j, a, b)
    ensures var first, n := Progress(0, 0, 0, 2), PieceLen(a, b, j.aperture, j.blenMax);
            && ValidProgress(j, first)
            && AfterPass(j, first, 2) == Progress(a + n, 1, n, 2)
  {
    hide PieceLen, Whole, PassWindows, Bytes, Move, Distinct, Flatten;
    var first, ws, n := Progress(0, 0, 0, 2), Whole(j), PieceLen(a, b, j.aperture, j.blenMax);
    TwoEntryWindows(j, a, b);
    FirstPassWindows(j, 2);
    PieceLenBounds(a, b, j.aperture, j.blenMax);
    assert Walked(j, first) == j.sgl;
    LenBound(j.sgl, 1);
    OneEntryBefore(j);
    NoWrap32(a + n);
    TwoMoves(j.sgl, a, n);
    SameBytes(ws, 2);
  }

  lemma SameBytes(ws: seq<Window>, n: nat)
    requires n <= |ws|
    ensures Bytes(ws, n) == Total(HostOf(ws[..n]))
  {
  }

  lemma FirstPassWindows(j: Job, room: nat)
    requires Fair(j) && j.sgl != [] && room >= 1
    ensures ValidProgress(j, Progress(0, 0, 0, room)) && PassWindows(j, Progress(0, 0, 0, room)) == Whole(j)
  {
    hide Whole, PassWindows, Bytes, InFirst, AndBits;
    WindowBytes(j, 0);
    NothingYet(Whole(j));
    ZeroMask(j);
    PassFromWindow(j, 0, room);
  }

  lemma TwoMoves(s: seq<Extent>, a: nat, n: nat)
    requires |s| == 2 && s[0].len == a && n < s[1].len < 0x1_0000_0000 && a < 0x1_0000_0000
    ensures Move(s, 0, 0, a + n) == (1, n)
  {
    NoWrap32(a);
    NoWrap32(s[1].len);
    NoWrap32(n);
    assert Move(s, 1, 0, n) == (1, n);
  }

  lemma OneEntryBefore(j: Job)
    requires j.sgl != []
    ensures Total(j.sgl[..1]) == j.sgl[0].len
  {
    assert Lens(j.sgl[..1]) == [j.sgl[0].len];
    assert Sum([j.sgl[0].len]) == j.sgl[0].len + Sum([]);
  }

  /** The second pass over such a request walks the first entry again, with an offset into the
      second; the length left is computed in 32 bits. */
  lemma SecondPass(j: Job, a: nat, b: nat)
    requires TwoEntries(j, a, b)
    ensures var n := PieceLen(a, b, j.aperture, j.blenMax);
            var p := Progress(a + n, 1, n, 2);
            && ValidJob(j) && ValidProgress(j, p) && ValidProgress(j, Progress(0, 0, 0, 2))
            && p == AfterPass(j, Progress(0, 0, 0, 2), 2)
            && PassWindows(j, p)
               == FoldAll([Extent(U64(j.sgl[0].addr + n), U32(a - n))], AndBits(a + n, j.aperture - 1),
                                            j.ep, j.aperture, j.blenMax)
            && !RightHost(j, p, Pass(j, p)) && (Pass(j, p) == [] <==> n == a)
  {
    hide PieceLen, AfterPass, Pass, PassWindows, RightHost, Total, FoldAll;
    hide AndBits, Distinct, Flatten, U32, U64, OnTrack;
    var n := PieceLen(a, b, j.aperture, j.blenMax);
    var p := Progress(a + n, 1, n, 2);
    SecondOnTrack(j, a, b, n);
    TwoEntryPass(j, a, b);
    FurtherPassExactly(j, p);
    NothingBuiltExactly(j, p);
    WalksFirstOnly(j, p);
  }

  lemma SecondOnTrack(j: Job, a: nat, b: nat, n: nat)
    requires TwoEntries(j, a, b) && n == PieceLen(a, b, j.aperture, j.blenMax)
    ensures Fair(j) && ValidJob(j) && |j.sgl| == 2 && j.sgl[0].len == a && OnTrack(j, Progress(a + n, 1, n, 2))
  {
    PieceLenBounds(a, b, j.aperture, j.blenMax);
    hide Total, Flatten, Distinct, PieceLen;
    OneEntryBefore(j);
  }

  lemma WalksFirstOnly(j: Job, p: Progress)
    requires ValidJob(j) && ValidProgress(j, p) && |j.sgl| == 2 && p.sgIdx == 1
    ensures PassWindows(j, p)
         == FoldAll([Extent(U64(j.sgl[0].addr + p.sgOffset), U32(j.sgl[0].len - p.sgOffset))],
                    AndBits(p.offset, j.aperture - 1),
                    j.ep, j.aperture, j.blenMax)
  {
    hide U64, U32, FoldAll, AndBits, Total;
    assert Rest(Walked(j, p), 0, p.sgOffset)
           == [Extent(U64(j.sgl[0].addr + p.sgOffset), U32(j.sgl[0].len - p.sgOffset))];
  }

  /** Entries of 1 and 100 bytes: 3 bytes of the second are done, and 2^32 - 2 bytes seem left of the
      first. Entries of 4 and 100 bytes: nothing is left to build. */
  lemma ShortNumbers()
    ensures TwoEntries(Short(1), 1, 100) && PieceLen(1, 100, 4, 4) == 3 && U32(1 - 3) == 0xffff_fffe
    ensures TwoEntries(Short(4), 4, 100) && PieceLen(4, 100, 4, 4) == 4
  {
    hide Fair;
    ShortIsFair(1);
    ShortIsFair(4);
  }
}
