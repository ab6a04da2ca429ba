/** A request as descriptor chains: executing every chain of a request is one linear copy. */
module Chains {
  import opened Words
  import opened LinearCopy
  import opened Request
  import opened Descriptors
  import opened AdjacentWalk

  /** The ring range of one transfer. */
  datatype Cut = Cut(first: nat, count: nat)

  function Counts(cuts: seq<Cut>): (r: seq<nat>)
    ensures |r| == |cuts|
  {
    seq<nat>(|cuts|, i requires 0 <= i < |cuts| => cuts[i].count)
  }

  /** The descriptors of one transfer, in chain order. */
  function TransferDescs(c: Config, first: nat, pieces: seq<Extent>, ep: nat): (r: seq<Desc>)
    ensures |r| == |pieces|
  {
    seq(|pieces|, i requires 0 <= i < |pieces| => Built(c, first, |pieces|, i, pieces[i], EpAt(c, pieces, ep, i)))
  }

  /** Where the next transfer of the request continues. */
  function EpAfter(c: Config, pieces: seq<Extent>, ep: nat): nat {
    if c.nonIncr then ep else U64(ep + Total(pieces))
  }

  /** The descriptors of all transfers of a request, for any division of its pieces into transfers. */
  function RequestDescs(c: Config, cuts: seq<Cut>, pieces: seq<Extent>, ep: nat): seq<Desc>
    requires Sum(Counts(cuts)) == |pieces|
    decreases |cuts|
  {
    if cuts == [] then []
    else
      var n := cuts[0].count;
      assert Counts(cuts)[1..] == Counts(cuts[1..]);
      TransferDescs(c, cuts[0].first, pieces[..n], ep)
        + RequestDescs(c, cuts[1..], pieces[n..], EpAfter(c, pieces[..n], ep))
  }

  // ---------------------------------------------------------------- execution

  /** Host memory and endpoint memory. */
  datatype Machine = Machine(host: Memory, ep: Memory)

  function ExecDesc(c: Config, d: Desc, m: Machine): Machine {
    if c.dir.ToDevice? then m.(ep := Copy(m.ep, Range(Dst(d), d.bytes), m.host, Range(Src(d), d.bytes)))
    else m.(host := Copy(m.host, Range(Dst(d), d.bytes), m.ep, Range(Src(d), d.bytes)))
  }

  function ExecAll(c: Config, ds: seq<Desc>, m: Machine): Machine
    decreases |ds|
  {
    if ds == [] then m else ExecAll(c, ds[1..], ExecDesc(c, ds[0], m))
  }

  lemma {:induction false} ExecConcat(c: Config, a: seq<Desc>, b: seq<Desc>, m: Machine)
    ensures ExecAll(c, a + b, m) == ExecAll(c, b, ExecAll(c, a, m))
    decreases |a|
  {
    if a == [] {
      assert a + b == b;
    } else {
      assert (a + b)[1..] == a[1..] + b;
      ExecConcat(c, a[1..], b, ExecDesc(c, a[0], m));
    }
  }

  /** One linear copy between host addresses and endpoint addresses, in the engine's direction. */
  function Linear(dir: Direction, host: seq<nat>, ep: seq<nat>, m: Machine): Machine
    requires |host| == |ep|
  {
    if dir.ToDevice? then m.(ep := Copy(m.ep, ep, m.host, host))
    else m.(host := Copy(m.host, host, m.ep, ep))
  }

  lemma LinearConcat(dir: Direction, h1: seq<nat>, h2: seq<nat>, e1: seq<nat>, e2: seq<nat>, m: Machine)
    requires |h1| == |e1| && |h2| == |e2|
    ensures Linear(dir, h1 + h2, e1 + e2, m) == Linear(dir, h2, e2, Linear(dir, h1, e1, m))
  {
    if dir.ToDevice? {
      CopyConcat(m.ep, e1, e2, m.host, h1, h2);
    } else {
      CopyConcat(m.host, h1, h2, m.ep, e1, e2);
    }
  }

  ghost predicate MemoryMapped(c: Config) { !c.streaming && !c.nonIncr }

  lemma RangeFolds(a: nat, n: nat)
    ensures Range(U64(a), n) == Range(a, n)
  {
    assert Range(a, 0 + n) == Range(a, 0) + Range(U64(a + 0), n) by {
      RangeSplit(a, 0, n);
    }
  }

  lemma ExecBuilt(c: Config, first: nat, n: nat, i: nat, piece: Extent, ep: nat, m: Machine)
    requires ValidConfig(c) && MemoryMapped(c) && i < n && first + n <= c.descMax
    ensures ExecDesc(c, Built(c, first, n, i, piece, ep), m)
         == Linear(c.dir, Range(piece.addr, piece.len), Range(ep, piece.len), m)
  {
    BuiltDecodes(c, first, n, i, piece, ep);
    RangeFolds(piece.addr, piece.len);
    RangeFolds(ep, piece.len);
  }

  /** The descriptors of a transfer from piece i on copy exactly those pieces. */
  lemma {:induction false} SuffixIsOneCopy(c: Config, first: nat, pieces: seq<Extent>, ep: nat, i: nat, m: Machine)
    requires ValidConfig(c) && MemoryMapped(c) && first + |pieces| <= c.descMax && i <= |pieces|
    ensures |Flatten(pieces[i..])| == Total(pieces[i..])
    ensures ExecAll(c, TransferDescs(c, first, pieces, ep)[i..], m)
         == Linear(c.dir, Flatten(pieces[i..]), Range(EpAt(c, pieces, ep, i), Total(pieces[i..])), m)
    decreases |pieces| - i
  {
    FlattenLength(pieces[i..]);
    if i < |pieces| {
      hide Linear, ExecDesc, Built, Flatten, Range, Total, EpAt, Copy;
      var at, ds, p := EpAt(c, pieces, ep, i), TransferDescs(c, first, pieces, ep), pieces[i];
      var m' := Linear(c.dir, Range(p.addr, p.len), Range(at, p.len), m);
      ExecBuilt(c, first, |pieces|, i, p, at, m);
      assert ds[i..][0] == ds[i] && ds[i..][1..] == ds[i + 1..];
      SuffixIsOneCopy(c, first, pieces, ep, i + 1, m');
      TailFacts(c, pieces, ep, i);
      RangeSplit(at, p.len, Total(pieces[i + 1..]));
      LinearConcat(c.dir, Range(p.addr, p.len), Flatten(pieces[i + 1..]),
                   Range(at, p.len), Range(EpAt(c, pieces, ep, i + 1), Total(pieces[i + 1..])), m);
    }
  }

  lemma TailFacts(c: Config, pieces: seq<Extent>, ep: nat, i: nat)
    requires MemoryMapped(c) && i < |pieces|
    ensures Flatten(pieces[i..]) == Range(pieces[i].addr, pieces[i].len) + Flatten(pieces[i + 1..])
    ensures |Flatten(pieces[i + 1..])| == Total(pieces[i + 1..])
    ensures Total(pieces[i..]) == pieces[i].len + Total(pieces[i + 1..])
    ensures EpAt(c, pieces, ep, i + 1) == U64(EpAt(c, pieces, ep, i) + pieces[i].len)
  {
    assert pieces[i..][1..] == pieces[i + 1..];
    FlattenLength(pieces[i + 1..]);
    assert Lens(pieces[i..])[1..] == Lens(pieces[i + 1..]);
    SumTake(Lens(pieces), i);
    U64Add(ep + Sum(Lens(pieces)[..i]), pieces[i].len);
  }

  lemma TransferIsOneCopy(c: Config, first: nat, pieces: seq<Extent>, ep: nat, m: Machine)
    requires ValidConfig(c) && MemoryMapped(c) && first + |pieces| <= c.descMax
    ensures |Flatten(pieces)| == Total(pieces)
    ensures ExecAll(c, TransferDescs(c, first, pieces, ep), m)
            == Linear(c.dir, Flatten(pieces), Range(ep, Total(pieces)), m)
  {
    SuffixIsOneCopy(c, first, pieces, ep, 0, m);
    assert pieces[0..] == pieces && TransferDescs(c, first, pieces, ep)[0..] == TransferDescs(c, first, pieces, ep);
    RangeFolds(ep, Total(pieces));
  }

  ghost predicate CutsFit(c: Config, cuts: seq<Cut>) {
    forall i :: 0 <= i < |cuts| ==> cuts[i].first + cuts[i].count <= c.descMax
  }

  /** Two runs of descriptors that copy consecutive parts copy the whole. */
  lemma JoinCopies(c: Config, a: seq<Desc>, b: seq<Desc>, head: seq<Extent>, tail: seq<Extent>, ep: nat, m: Machine)
    requires MemoryMapped(c)
    requires |Flatten(head)| == Total(head) && |Flatten(tail)| == Total(tail)
    requires ExecAll(c, a, m) == Linear(c.dir, Flatten(head), Range(ep, Total(head)), m)
    requires var m' := ExecAll(c, a, m);
             ExecAll(c, b, m') == Linear(c.dir, Flatten(tail), Range(EpAfter(c, head, ep), Total(tail)), m')
    ensures |Flatten(head + tail)| == Total(head + tail)
    ensures ExecAll(c, a + b, m) == Linear(c.dir, Flatten(head + tail), Range(ep, Total(head + tail)), m)
  {
    hide Linear, ExecAll, Flatten, Range, Total, Copy;
    FlattenConcat(head, tail);
    TotalConcat(head, tail);
    RangeSplit(ep, Total(head), Total(tail));
    ExecConcat(c, a, b, m);
    LinearConcat(c.dir, Flatten(head), Flatten(tail), Range(ep, Total(head)),
                 Range(EpAfter(c, head, ep), Total(tail)), m);
  }

  /** For every division of the pieces into transfers, at any ring positions. */
  lemma {:induction false} PiecesAreOneCopy(c: Config, cuts: seq<Cut>, pieces: seq<Extent>, ep: nat, m: Machine)
    requires ValidConfig(c) && MemoryMapped(c) && CutsFit(c, cuts) && Sum(Counts(cuts)) == |pieces|
    ensures |Flatten(pieces)| == Total(pieces)
    ensures ExecAll(c, RequestDescs(c, cuts, pieces, ep), m)
            == Linear(c.dir, Flatten(pieces), Range(ep, Total(pieces)), m)
    decreases |cuts|
  {
    FlattenLength(pieces);
    if cuts != [] {
      var n := cuts[0].count;
      assert Counts(cuts)[1..] == Counts(cuts[1..]);
      var head, tail := pieces[..n], pieces[n..];
      hide Linear, ExecAll, Flatten, Range, Total, EpAfter, TransferDescs;
      assert pieces == head + tail;
      TransferIsOneCopy(c, cuts[0].first, head, ep, m);
      var a, b := TransferDescs(c, cuts[0].first, head, ep), RequestDescs(c, cuts[1..], tail, EpAfter(c, head, ep));
      PiecesAreOneCopy(c, cuts[1..], tail, EpAfter(c, head, ep), ExecAll(c, a, m));
      JoinCopies(c, a, b, head, tail, ep, m);
    }
  }

  /** The main result: the chains of a request copy its scatter list, byte for byte and in
      order, to or from consecutive endpoint addresses. */
  lemma RequestIsOneCopy(c: Config, sgl: seq<Extent>, blen: nat, cuts: seq<Cut>, ep: nat, m: Machine)
    requires ValidConfig(c) && MemoryMapped(c) && CutsFit(c, cuts)
    requires blen > 0 && BusList(sgl) && Sum(Counts(cuts)) == |Pieces(sgl, blen)|
    ensures |Flatten(sgl)| == Total(sgl)
    ensures ExecAll(c, RequestDescs(c, cuts, Pieces(sgl, blen), ep), m)
            == Linear(c.dir, Flatten(sgl), Range(ep, Total(sgl)), m)
  {
    FlattenLength(sgl);
    PiecesFaithful(sgl, blen);
    PiecesTotal(sgl, blen);
    PiecesAreOneCopy(c, cuts, Pieces(sgl, blen), ep, m);
  }

  /** What the request leaves in memory, in both directions. */
  lemma RequestDelivers(c: Config, sgl: seq<Extent>, blen: nat, cuts: seq<Cut>, ep: nat, m: Machine)
    requires ValidConfig(c) && MemoryMapped(c) && CutsFit(c, cuts)
    requires blen > 0 && BusList(sgl) && Sum(Counts(cuts)) == |Pieces(sgl, blen)|
    requires Total(sgl) <= 0x1_0000_0000_0000_0000
    ensures |Flatten(sgl)| == Total(sgl)
    ensures var r := ExecAll(c, RequestDescs(c, cuts, Pieces(sgl, blen), ep), m);
            var host := Flatten(sgl);
            && (c.dir.ToDevice? ==>
                  && r.host == m.host
                  && (forall k :: 0 <= k < |host| ==> Load(r.ep, Range(ep, |host|)[k]) == Load(m.host, host[k]))
                  && (forall a :: a !in Range(ep, |host|) ==> Load(r.ep, a) == Load(m.ep, a)))
            && (c.dir.FromDevice? ==>
                  && r.ep == m.ep
                  && (Distinct(host) ==> forall k :: 0 <= k < |host| ==>
                        Load(r.host, host[k]) == Load(m.ep, Range(ep, |host|)[k]))
                  && (forall a :: a !in host ==> Load(r.host, a) == Load(m.host, a)))
  {
    RequestIsOneCopy(c, sgl, blen, cuts, ep, m);
    RangeDistinct(ep, Total(sgl));
    CopyMeaning(m.ep, Range(ep, Total(sgl)), m.host, Flatten(sgl));
    CopyMeaning(m.host, Flatten(sgl), m.ep, Range(ep, Total(sgl)));
  }

  // ---------------------------------------------------------------- chains built one by one

  lemma EpAfterBound(c: Config, pieces: seq<Extent>, ep: nat)
    requires ep < 0x1_0000_0000_0000_0000
    ensures EpAfter(c, pieces, ep) < 0x1_0000_0000_0000_0000
  {
  }

  lemma EpAfterConcat(c: Config, a: seq<Extent>, b: seq<Extent>, ep: nat)
    ensures EpAfter(c, a + b, ep) == EpAfter(c, b, EpAfter(c, a, ep))
  {
    hide Total;
    TotalConcat(a, b);
    U64Add(ep + Total(a), Total(b));
  }

  lemma CountsSnoc(cuts: seq<Cut>, cut: Cut)
    ensures Sum(Counts(cuts + [cut])) == Sum(Counts(cuts)) + cut.count
  {
    assert Counts(cuts + [cut]) == Counts(cuts) + [cut.count];
    SumSnoc(Counts(cuts), cut.count);
  }

  lemma RequestDescsStep(c: Config, cuts: seq<Cut>, pieces: seq<Extent>, ep: nat)
    requires cuts != [] && Sum(Counts(cuts)) == |pieces|
    ensures cuts[0].count <= |pieces| && Sum(Counts(cuts[1..])) == |pieces| - cuts[0].count
    ensures var n := cuts[0].count;
            var rest := RequestDescs(c, cuts[1..], pieces[n..], EpAfter(c, pieces[..n], ep));
            RequestDescs(c, cuts, pieces, ep) == TransferDescs(c, cuts[0].first, pieces[..n], ep) + rest
  {
    hide TransferDescs, EpAfter;
    assert Counts(cuts)[1..] == Counts(cuts[1..]);
  }

  /** One more transfer continues the request where it is. */
  lemma {:induction false} RequestDescsSnoc(c: Config, cuts: seq<Cut>, pieces: seq<Extent>, first: nat,
                                            more: seq<Extent>, ep: nat)
    requires Sum(Counts(cuts)) == |pieces| && ep < 0x1_0000_0000_0000_0000
    ensures Sum(Counts(cuts + [Cut(first, |more|)])) == |pieces + more|
    ensures RequestDescs(c, cuts + [Cut(first, |more|)], pieces + more, ep)
         == RequestDescs(c, cuts, pieces, ep) + TransferDescs(c, first, more, EpAfter(c, pieces, ep))
    decreases |cuts|
  {
    hide TransferDescs, EpAfter, RequestDescs, Sum, Counts;
    var cut, whole := Cut(first, |more|), pieces + more;
    CountsSnoc(cuts, cut);
    if cuts == [] {
      NoDescs(c, pieces, ep);
      assert [] + [cut] == [cut];
      RequestDescsStep(c, [cut], more, ep);
      NoDescs(c, [], EpAfter(c, more, ep));
      assert pieces == [] && whole == more && more[..|more|] == more && more[|more|..] == [] && [cut][1..] == [];
    } else {
      var n := cuts[0].count;
      RequestDescsStep(c, cuts, pieces, ep);
      RequestDescsStep(c, cuts + [cut], whole, ep);
      assert (cuts + [cut])[1..] == cuts[1..] + [cut];
      assert whole[..n] == pieces[..n] && whole[n..] == pieces[n..] + more;
      EpAfterBound(c, pieces[..n], ep);
      RequestDescsSnoc(c, cuts[1..], pieces[n..], first, more, EpAfter(c, pieces[..n], ep));
      assert pieces == pieces[..n] + pieces[n..];
      EpAfterConcat(c, pieces[..n], pieces[n..], ep);
    }
  }

  lemma NoDescs(c: Config, pieces: seq<Extent>, ep: nat)
    ensures Sum(Counts([])) == 0
    ensures pieces == [] ==>
              RequestDescs(c, [], pieces, ep) == [] && (ep < 0x1_0000_0000_0000_0000 ==> EpAfter(c, pieces, ep) == ep)
  {
    assert Total([]) == 0;
  }

  /** A built chain is the transfer's descriptors. */
  lemma ChainSlice(c: Config, ring: seq<Desc>, first: nat, pieces: seq<Extent>, ep: nat)
    requires ChainAt(c, ring, first, pieces, ep)
    ensures first + |pieces| <= |ring| && ring[first..first + |pieces|] == TransferDescs(c, first, pieces, ep)
  {
    hide Built, EpAt;
  }

  // ---------------------------------------------------------------- what the engine fetches

  function Fetched(ring: seq<Desc>, indices: seq<nat>): (r: seq<Desc>)
    requires forall i :: 0 <= i < |indices| ==> indices[i] < |ring|
  {
    seq(|indices|, i requires 0 <= i < |indices| => ring[indices[i]])
  }

  /** The burst-prefetching engine, started on a built chain, executes the linear copy of the
      chain's pieces. */
  lemma EngineRunIsOneCopy(c: Config, ring: seq<Desc>, first: nat, pieces: seq<Extent>, ep: nat, fuel: nat, m: Machine)
    requires ValidConfig(c) && MemoryMapped(c) && ChainAt(c, ring, first, pieces, ep) && |pieces| <= fuel
    ensures |Flatten(pieces)| == Total(pieces)
    ensures var start := DescAddr(c, first);
            var visited := Expand(BurstWalk(c, Links(ring), start, GetNextAdj(|pieces|, Lo(start)), fuel));
            && (forall i :: 0 <= i < |visited| ==> visited[i] < |ring|)
            && ExecAll(c, Fetched(ring, visited), m) == Linear(c.dir, Flatten(pieces), Range(ep, Total(pieces)), m)
  {
    BurstsRefinePointers(c, ring, first, pieces, ep, fuel);
    TransferIsOneCopy(c, first, pieces, ep, m);
    FetchedChain(c, ring, first, pieces, ep);
  }

  lemma FetchedChain(c: Config, ring: seq<Desc>, first: nat, pieces: seq<Extent>, ep: nat)
    requires ChainAt(c, ring, first, pieces, ep)
    ensures Fetched(ring, Interval(first, |pieces|)) == TransferDescs(c, first, pieces, ep)
  {
  }
}
