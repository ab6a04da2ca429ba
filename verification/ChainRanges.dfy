/** Where the descriptors of a request point, in every mode: the host side is the scatter list also
    for streams and fixed endpoint addresses, and a stream read takes its result slots as sources. */
module ChainRanges {
  import opened Words
  import opened LinearCopy
  import opened Request
  import opened Descriptors
  import opened AdjacentWalk
  import opened Chains

  /** The address ranges that the engine reads out of descriptors as sources and destinations. */
  function Sources(ds: seq<Desc>): (r: seq<Extent>)
    ensures |r| == |ds|
  {
    seq(|ds|, i requires 0 <= i < |ds| => Extent(Join(ds[i].srcLo, ds[i].srcHi), ds[i].bytes))
  }

  function Destinations(ds: seq<Desc>): (r: seq<Extent>)
    ensures |r| == |ds|
  {
    seq(|ds|, i requires 0 <= i < |ds| => Extent(Join(ds[i].dstLo, ds[i].dstHi), ds[i].bytes))
  }

  /** The ring indices of the descriptors of a request, in chain order. */
  function RingIndices(cuts: seq<Cut>): (r: seq<nat>)
    ensures |r| == Sum(Counts(cuts))
    decreases |cuts|
  {
    if cuts == [] then []
    else
      assert Counts(cuts)[1..] == Counts(cuts[1..]);
      Interval(cuts[0].first, cuts[0].count) + RingIndices(cuts[1..])
  }

  lemma BuiltRanges(c: Config, first: nat, n: nat, i: nat, piece: Extent, ep: nat)
    requires ValidConfig(c) && i < n && first + n <= c.descMax && piece.addr < 0x1_0000_0000_0000_0000
    ensures var d := Built(c, first, n, i, piece, ep);
            && d.bytes == piece.len
            && (c.dir.ToDevice? ==> Join(d.srcLo, d.srcHi) == piece.addr && Join(d.dstLo, d.dstHi) == U64(ep))
            && (c.dir.FromDevice? ==> Join(d.dstLo, d.dstHi) == piece.addr)
            && (c.dir.FromDevice? && c.streaming ==> Join(d.srcLo, d.srcHi) == c.resBus + 32 * (first + i))
            && (c.dir.FromDevice? && !c.streaming ==> Join(d.srcLo, d.srcHi) == U64(ep))
  {
    BuiltDecodes(c, first, n, i, piece, ep);
    Fits(piece.addr);
    if c.dir.FromDevice? && c.streaming {
      Fits(c.resBus + 32 * (first + i));
    }
  }

  lemma Fits(x: nat)
    ensures x < 0x1_0000_0000_0000_0000 ==> U64(x) == x
  {
  }

  /** The host and endpoint ranges of descriptors. */
  function HostSide(c: Config, ds: seq<Desc>): seq<Extent> {
    if c.dir.ToDevice? then Sources(ds) else Destinations(ds)
  }

  function EndpointSide(c: Config, ds: seq<Desc>): (r: seq<Extent>)
    ensures |r| == |ds|
  {
    if c.dir.ToDevice? then Destinations(ds) else Sources(ds)
  }

  predicate StreamRead(c: Config) { c.streaming && c.dir.FromDevice? }

  /** Descriptors at these ring indices for these pieces: the host side is the pieces; the endpoint
      side is the result slots of a stream read, and else starts at ep and goes on or stays there. */
  ghost predicate Point(c: Config, ds: seq<Desc>, pieces: seq<Extent>, indices: seq<nat>, ep: nat) {
    && |ds| == |pieces| == |indices| && HostSide(c, ds) == pieces
    && (StreamRead(c) ==> forall k :: 0 <= k < |ds| ==> EndpointSide(c, ds)[k].addr == c.resBus + 32 * indices[k])
    && (!StreamRead(c) && c.nonIncr ==> forall k :: 0 <= k < |ds| ==> EndpointSide(c, ds)[k].addr == ep)
    && (!StreamRead(c) && !c.nonIncr ==> Flatten(EndpointSide(c, ds)) == Range(ep, Total(pieces)))
  }

  lemma RangesConcat(c: Config, a: seq<Desc>, b: seq<Desc>)
    ensures HostSide(c, a + b) == HostSide(c, a) + HostSide(c, b)
    ensures EndpointSide(c, a + b) == EndpointSide(c, a) + EndpointSide(c, b)
  {
  }

  lemma PointConcat(c: Config, a: seq<Desc>, b: seq<Desc>, head: seq<Extent>, tail: seq<Extent>,
                    i: seq<nat>, j: seq<nat>, ep: nat)
    requires Point(c, a, head, i, ep) && Point(c, b, tail, j, EpAfter(c, head, ep))
    ensures Point(c, a + b, head + tail, i + j, ep)
  {
    RangesConcat(c, a, b);
    hide HostSide, EndpointSide, Flatten, Range, Total, U64;
    if !StreamRead(c) && !c.nonIncr {
      FlattenConcat(EndpointSide(c, a), EndpointSide(c, b));
      TotalConcat(head, tail);
      RangeSplit(ep, Total(head), Total(tail));
    }
  }

  /** The descriptors of a transfer reach consecutive endpoint addresses. */
  lemma {:induction false} EndpointRun(c: Config, pieces: seq<Extent>, ep: nat, xs: seq<Extent>, n: nat)
    requires !c.nonIncr && n <= |pieces| == |xs|
    requires forall k :: 0 <= k < |pieces| ==> xs[k] == Extent(EpAt(c, pieces, ep, k), pieces[k].len)
    ensures Flatten(xs[..n]) == Range(ep, Sum(Lens(pieces)[..n]))
    decreases n
  {
    if n == 0 {
      assert xs[..0] == [] && Lens(pieces)[..0] == [];
    } else {
      EndpointRun(c, pieces, ep, xs, n - 1);
      var m := Sum(Lens(pieces)[..n - 1]);
      SumTake(Lens(pieces), n - 1);
      hide Sum, Range, U64;
      assert xs[..n] == xs[..n - 1] + [xs[n - 1]];
      FlattenConcat(xs[..n - 1], [xs[n - 1]]);
      RangeSplit(ep, m, pieces[n - 1].len);
      assert Flatten([xs[n - 1]]) == Range(xs[n - 1].addr, xs[n - 1].len) + Flatten([]);
    }
  }

  /** One transfer. */
  lemma TransferPoints(c: Config, first: nat, pieces: seq<Extent>, ep: nat)
    requires ValidConfig(c) && first + |pieces| <= c.descMax && BusList(pieces) && ep < 0x1_0000_0000_0000_0000
    ensures Point(c, TransferDescs(c, first, pieces, ep), pieces, Interval(first, |pieces|), ep)
  {
    hide Built, Join, EpAt;
    var ds := TransferDescs(c, first, pieces, ep);
    forall k | 0 <= k < |pieces|
      ensures HostSide(c, ds)[k] == pieces[k]
      ensures EndpointSide(c, ds)[k].len == pieces[k].len
      ensures StreamRead(c) ==> EndpointSide(c, ds)[k].addr == c.resBus + 32 * (first + k)
      ensures !StreamRead(c) ==> EndpointSide(c, ds)[k].addr == EpAt(c, pieces, ep, k)
      ensures c.nonIncr ==> EpAt(c, pieces, ep, k) == ep
    {
      BuiltRanges(c, first, |pieces|, k, pieces[k], EpAt(c, pieces, ep, k));
      EpBelow(c, pieces, ep, k);
    }
    hide HostSide, EndpointSide, TransferDescs, Range, Flatten;
    if !StreamRead(c) && !c.nonIncr {
      EndpointRun(c, pieces, ep, EndpointSide(c, ds), |pieces|);
      assert EndpointSide(c, ds)[..|pieces|] == EndpointSide(c, ds) && Lens(pieces)[..|pieces|] == Lens(pieces);
    }
  }

  lemma EpBelow(c: Config, pieces: seq<Extent>, ep: nat, k: nat)
    requires k <= |pieces| && ep < 0x1_0000_0000_0000_0000
    ensures U64(EpAt(c, pieces, ep, k)) == EpAt(c, pieces, ep, k) && (c.nonIncr ==> EpAt(c, pieces, ep, k) == ep)
  {
    Fits(EpAt(c, pieces, ep, k));
  }

  lemma NothingPoints(c: Config, pieces: seq<Extent>, ep: nat)
    ensures Sum(Counts([])) == 0
    ensures pieces == [] ==> Point(c, RequestDescs(c, [], pieces, ep), pieces, RingIndices([]), ep)
  {
    NoDescs(c, pieces, ep);
  }

  lemma FirstCut(c: Config, cuts: seq<Cut>, pieces: seq<Extent>)
    requires cuts != [] && CutsFit(c, cuts) && BusList(pieces) && Sum(Counts(cuts)) == |pieces|
    ensures var n := cuts[0].count;
            && n <= |pieces| && cuts[0].first + n <= c.descMax && CutsFit(c, cuts[1..])
            && BusList(pieces[..n]) && BusList(pieces[n..])
            && RingIndices(cuts) == Interval(cuts[0].first, n) + RingIndices(cuts[1..])
  {
    assert Counts(cuts)[1..] == Counts(cuts[1..]);
  }

  /** For any division into transfers, at any ring positions. */
  lemma {:induction false} PiecesPoint(c: Config, cuts: seq<Cut>, pieces: seq<Extent>, ep: nat)
    requires ValidConfig(c) && CutsFit(c, cuts) && BusList(pieces) && Sum(Counts(cuts)) == |pieces|
    requires ep < 0x1_0000_0000_0000_0000
    ensures Point(c, RequestDescs(c, cuts, pieces, ep), pieces, RingIndices(cuts), ep)
    decreases |cuts|
  {
    hide Point, TransferDescs, RequestDescs, EpAfter, Sum, Counts, BusList, CutsFit, RingIndices;
    if cuts == [] {
      NothingPoints(c, pieces, ep);
    } else {
      FirstCut(c, cuts, pieces);
      var n := cuts[0].count;
      RequestDescsStep(c, cuts, pieces, ep);
      var head, tail := pieces[..n], pieces[n..];
      EpAfterBound(c, head, ep);
      TransferPoints(c, cuts[0].first, head, ep);
      PiecesPoint(c, cuts[1..], tail, EpAfter(c, head, ep));
      PointConcat(c, TransferDescs(c, cuts[0].first, head, ep), RequestDescs(c, cuts[1..], tail, EpAfter(c, head, ep)),
                  head, tail, Interval(cuts[0].first, n), RingIndices(cuts[1..]), ep);
      assert head + tail == pieces;
    }
  }

  /** In every mode, the host side of a request is its scatter list, byte for byte and in order; a
      stream read's sources are the result slots of the ring entries that it uses; and otherwise the
      endpoint side is consecutive from ep on, or fixed there. */
  lemma RequestPoints(c: Config, sgl: seq<Extent>, blen: nat, cuts: seq<Cut>, ep: nat)
    requires ValidConfig(c) && CutsFit(c, cuts) && ep < 0x1_0000_0000_0000_0000
    requires blen > 0 && BusList(sgl) && Sum(Counts(cuts)) == |Pieces(sgl, blen)|
    ensures var ds := RequestDescs(c, cuts, Pieces(sgl, blen), ep);
            && |ds| == |RingIndices(cuts)|
            && (c.dir.FromDevice? ==> Flatten(Destinations(ds)) == Flatten(sgl))
            && (c.dir.ToDevice? ==> Flatten(Sources(ds)) == Flatten(sgl))
            && (c.dir.FromDevice? && c.streaming ==>
                  forall k :: 0 <= k < |ds| ==> Sources(ds)[k].addr == c.resBus + 32 * RingIndices(cuts)[k])
            && (c.dir.FromDevice? && !c.streaming && c.nonIncr ==>
                  forall k :: 0 <= k < |ds| ==> Sources(ds)[k].addr == ep)
            && (c.dir.FromDevice? && !c.streaming && !c.nonIncr ==> Flatten(Sources(ds)) == Range(ep, Total(sgl)))
            && (c.dir.ToDevice? && c.nonIncr ==> forall k :: 0 <= k < |ds| ==> Destinations(ds)[k].addr == ep)
            && (c.dir.ToDevice? && !c.nonIncr ==> Flatten(Destinations(ds)) == Range(ep, Total(sgl)))
  {
    hide RequestDescs, Pieces, Total, Flatten, Range, RingIndices;
    PiecesFaithful(sgl, blen);
    PiecesTotal(sgl, blen);
    PiecesPoint(c, cuts, Pieces(sgl, blen), ep);
    SidesAre(c, RequestDescs(c, cuts, Pieces(sgl, blen), ep));
    hide HostSide, EndpointSide, Sources, Destinations;
  }

  lemma SidesAre(c: Config, ds: seq<Desc>)
    ensures HostSide(c, ds) == if c.dir.ToDevice? then Sources(ds) else Destinations(ds)
    ensures EndpointSide(c, ds) == if c.dir.ToDevice? then Destinations(ds) else Sources(ds)
  {
  }
}
