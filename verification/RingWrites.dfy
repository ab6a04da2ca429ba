/** The whole descriptor ring after the chains of a request have been written into it. */
module RingWrites {
  import opened Words
  import opened LinearCopy
  import opened Descriptors
  import opened Chains
  import opened Ring

  /** These descriptors in the place of those from index `first` on. */
  function Spliced(ring: seq<Desc>, first: nat, ds: seq<Desc>): (r: seq<Desc>)
    ensures |r| == |ring|
  {
    if first + |ds| <= |ring| then ring[..first] + ds + ring[first + |ds|..] else ring
  }

  lemma SplicedIs(was: seq<Desc>, now: seq<Desc>, first: nat, ds: seq<Desc>)
    requires |was| == |now| && first + |ds| <= |was| && now[first..first + |ds|] == ds
    requires forall k :: 0 <= k < |was| && !(first <= k < first + |ds|) ==> was[k] == now[k]
    ensures now == Spliced(was, first, ds)
  {
    var to := Spliced(was, first, ds);
    forall k | 0 <= k < |now|
      ensures now[k] == to[k]
    {
      if first <= k < first + |ds| {
        assert now[first..first + |ds|][k - first] == now[k];
      }
    }
  }

  /** The ring after the transfers of a request were built at these cuts, one after the other. */
  function RingAfter(c: Config, ring: seq<Desc>, cuts: seq<Cut>, pieces: seq<Extent>, ep: nat): (r: seq<Desc>)
    requires Sum(Counts(cuts)) == |pieces|
    ensures |r| == |ring|
    decreases |cuts|
  {
    if cuts == [] then ring
    else
      var n := cuts[0].count;
      assert Counts(cuts)[1..] == Counts(cuts[1..]);
      RingAfter(c, Spliced(ring, cuts[0].first, TransferDescs(c, cuts[0].first, pieces[..n], ep)),
                cuts[1..], pieces[n..], EpAfter(c, pieces[..n], ep))
  }

  lemma RingAfterStep(c: Config, ring: seq<Desc>, cuts: seq<Cut>, pieces: seq<Extent>, ep: nat)
    requires cuts != [] && Sum(Counts(cuts)) == |pieces|
    ensures cuts[0].count <= |pieces| && Sum(Counts(cuts[1..])) == |pieces| - cuts[0].count
    ensures var n := cuts[0].count;
            RingAfter(c, ring, cuts, pieces, ep)
            == RingAfter(c, Spliced(ring, cuts[0].first, TransferDescs(c, cuts[0].first, pieces[..n], ep)),
                         cuts[1..], pieces[n..], EpAfter(c, pieces[..n], ep))
  {
    hide TransferDescs, EpAfter, Spliced;
    assert Counts(cuts)[1..] == Counts(cuts[1..]);
  }

  lemma RingAfterNothing(c: Config, ring: seq<Desc>, ep: nat)
    ensures Sum(Counts([])) == 0 && RingAfter(c, ring, [], [], ep) == ring
  {
  }

  ghost predicate Outside(k: nat, cuts: seq<Cut>) {
    forall i :: 0 <= i < |cuts| ==> !(cuts[i].first <= k < cuts[i].first + cuts[i].count)
  }

  /** No other entry of the ring changes. */
  lemma {:induction false} RingAfterOutside(c: Config, ring: seq<Desc>, cuts: seq<Cut>, pieces: seq<Extent>, ep: nat,
                                            k: nat)
    requires Sum(Counts(cuts)) == |pieces| && k < |ring| && Outside(k, cuts)
    ensures RingAfter(c, ring, cuts, pieces, ep)[k] == ring[k]
    decreases |cuts|
  {
    hide TransferDescs, EpAfter, RingAfter;
    if cuts == [] {
      RingAfterNothing(c, ring, ep);
    } else {
      var n := cuts[0].count;
      RingAfterStep(c, ring, cuts, pieces, ep);
      RingAfterOutside(c, Spliced(ring, cuts[0].first, TransferDescs(c, cuts[0].first, pieces[..n], ep)),
                       cuts[1..], pieces[n..], EpAfter(c, pieces[..n], ep), k);
    }
  }

  /** The pieces before transfer i. */
  function Offset(cuts: seq<Cut>, i: nat): nat
    requires i <= |cuts|
  {
    Sum(Counts(cuts)[..i])
  }

  lemma OffsetStep(cuts: seq<Cut>, i: nat)
    requires i < |cuts|
    ensures Offset(cuts, i) + cuts[i].count <= Sum(Counts(cuts))
    ensures i > 0 ==> Offset(cuts, i) == cuts[0].count + Offset(cuts[1..], i - 1)
    ensures i == 0 ==> Offset(cuts, i) == 0
  {
    var s := Counts(cuts);
    SumTake(s, i);
    SumTakeMonotone(s, i + 1, |s|);
    assert s[..|s|] == s;
    if i > 0 {
      assert s[..i][1..] == Counts(cuts[1..])[..i - 1];
    }
  }

  /** When the cuts fit the ring and do not meet, each holds its own transfer at the end. */
  lemma {:induction false} RingAfterAt(c: Config, ring: seq<Desc>, cuts: seq<Cut>, pieces: seq<Extent>, ep: nat, i: nat)
    requires Sum(Counts(cuts)) == |pieces| && i < |cuts| && PairwiseDisjoint(cuts)
    requires forall k :: 0 <= k < |cuts| ==> cuts[k].first + cuts[k].count <= |ring|
    requires ep < 0x1_0000_0000_0000_0000
    ensures var o, n := Offset(cuts, i), cuts[i].count;
            && o + n <= |pieces|
            && RingAfter(c, ring, cuts, pieces, ep)[cuts[i].first..cuts[i].first + n]
            == TransferDescs(c, cuts[i].first, pieces[o..o + n], EpAfter(c, pieces[..o], ep))
    decreases |cuts|
  {
    hide TransferDescs, EpAfter, RingAfter, Offset, Sum, Counts, PairwiseDisjoint, Spliced;
    TailDisjoint(cuts);
    var first, n := cuts[0].first, cuts[0].count;
    OffsetStep(cuts, i);
    RingAfterStep(c, ring, cuts, pieces, ep);
    var ds := TransferDescs(c, first, pieces[..n], ep);
    var ring', ep' := Spliced(ring, first, ds), EpAfter(c, pieces[..n], ep);
    EpAfterBound(c, pieces[..n], ep);
    if i == 0 {
      FirstStays(c, ring, cuts, pieces, ep);
      NoPiecesAfter(c, pieces, ep);
    } else {
      RingAfterAt(c, ring', cuts[1..], pieces[n..], ep', i - 1);
      var o, m := Offset(cuts, i), cuts[i].count;
      SliceOfTail(pieces, n, o, m);
      EpAfterConcat(c, pieces[..n], pieces[n..][..o - n], ep);
    }
  }

  lemma TailDisjoint(cuts: seq<Cut>)
    requires PairwiseDisjoint(cuts)
    ensures cuts != [] ==> PairwiseDisjoint(cuts[1..])
  {
  }

  lemma SliceOfTail(pieces: seq<Extent>, n: nat, o: nat, m: nat)
    requires n <= o && o + m <= |pieces|
    ensures pieces[n..][o - n..o - n + m] == pieces[o..o + m]
    ensures pieces[..o] == pieces[..n] + pieces[n..][..o - n]
  {
  }

  lemma NoPiecesAfter(c: Config, pieces: seq<Extent>, ep: nat)
    requires ep < 0x1_0000_0000_0000_0000
    ensures EpAfter(c, pieces[..0], ep) == ep
  {
    assert pieces[..0] == [];
    NoDescs(c, [], ep);
  }

  lemma FirstStays(c: Config, ring: seq<Desc>, cuts: seq<Cut>, pieces: seq<Extent>, ep: nat)
    requires Sum(Counts(cuts)) == |pieces| && cuts != [] && PairwiseDisjoint(cuts)
    requires cuts[0].first + cuts[0].count <= |ring|
    ensures var first, n := cuts[0].first, cuts[0].count;
            && n <= |pieces|
            && RingAfter(c, ring, cuts, pieces, ep)[first..first + n] == TransferDescs(c, first, pieces[..n], ep)
  {
    hide TransferDescs, EpAfter, RingAfter;
    var first, n := cuts[0].first, cuts[0].count;
    RingAfterStep(c, ring, cuts, pieces, ep);
    var ds := TransferDescs(c, first, pieces[..n], ep);
    var ring', now := Spliced(ring, first, ds), RingAfter(c, ring, cuts, pieces, ep);
    forall k | first <= k < first + n
      ensures now[k] == ds[k - first]
    {
      var rest := cuts[1..];
      assert forall i :: 0 <= i < |rest| ==> Disjoint(cuts[0], rest[i]);
      RingAfterOutside(c, ring', cuts[1..], pieces[n..], EpAfter(c, pieces[..n], ep), k);
    }
  }
}
