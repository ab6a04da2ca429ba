/** Which buffers the queued descriptors of a double buffer point to. */
module SlotRing {
  import opened Words
  import opened LinearCopy
  import opened Request
  import opened Descriptors
  import opened Chains
  import opened Ring
  import opened EngineModel
  import opened ChainRanges
  import opened RingWrites

  /** The descriptors of transfer i and of what follows it in the same request. */
  function ToGo(ts: seq<Ticket>, i: nat): nat
    decreases |ts| - i
  {
    if i >= |ts| then 0 else ts[i].num + if ts[i].last then 0 else ToGo(ts, i + 1)
  }

  /** The descriptors at the cut of queued transfer i store to the next pieces of its slot's buffer. */
  ghost predicate LaidAt(ring: seq<Desc>, cuts: seq<Cut>, ts: seq<Ticket>, bufs: seq<seq<Extent>>, i: nat)
    requires i < |ts| == |cuts|
  {
    && ts[i].cb.Some? && ts[i].cb.value < |bufs| && cuts[i].count == ts[i].num
    && (!ts[i].last ==> i + 1 < |ts| && ts[i + 1].cb == ts[i].cb)
    && cuts[i].first + cuts[i].count <= |ring|
    && var b, g := bufs[ts[i].cb.value], ToGo(ts, i);
       && ts[i].num <= g <= |b|
       && Destinations(ring[cuts[i].first..cuts[i].first + cuts[i].count]) == b[|b| - g..|b| - g + ts[i].num]
  }

  ghost predicate Laid(ring: seq<Desc>, cuts: seq<Cut>, ts: seq<Ticket>, bufs: seq<seq<Extent>>) {
    |cuts| == |ts| && forall i :: 0 <= i < |ts| ==> LaidAt(ring, cuts, ts, bufs, i)
  }

  // ---------------------------------------------------------------- the whole buffer

  /** The ranges that the rest of a request stores to, from transfer i on. */
  function Reach(ring: seq<Desc>, cuts: seq<Cut>, ts: seq<Ticket>, i: nat): seq<Extent>
    requires |cuts| == |ts| && forall k :: 0 <= k < |cuts| ==> cuts[k].first + cuts[k].count <= |ring|
    decreases |ts| - i
  {
    if i >= |ts| then []
    else
      Destinations(ring[cuts[i].first..cuts[i].first + cuts[i].count])
      + if ts[i].last then [] else Reach(ring, cuts, ts, i + 1)
  }

  lemma LaidFits(ring: seq<Desc>, cuts: seq<Cut>, ts: seq<Ticket>, bufs: seq<seq<Extent>>)
    requires Laid(ring, cuts, ts, bufs)
    ensures |cuts| == |ts| && forall k :: 0 <= k < |cuts| ==> cuts[k].first + cuts[k].count <= |ring|
  {
    forall k | 0 <= k < |cuts|
      ensures cuts[k].first + cuts[k].count <= |ring|
    {
      assert LaidAt(ring, cuts, ts, bufs, k);
    }
  }

  /** From transfer i on, the queued descriptors of a slot store to the end of its buffer, in order: to
      all of it when none of the slot's transfers has been retired. */
  lemma {:induction false} SlotReached(ring: seq<Desc>, cuts: seq<Cut>, ts: seq<Ticket>, bufs: seq<seq<Extent>>, i: nat)
    requires Laid(ring, cuts, ts, bufs) && i < |ts|
    ensures |cuts| == |ts| && forall k :: 0 <= k < |cuts| ==> cuts[k].first + cuts[k].count <= |ring|
    ensures ts[i].cb.Some? && ts[i].cb.value < |bufs|
    ensures var b, g := bufs[ts[i].cb.value], ToGo(ts, i);
            g <= |b| && Reach(ring, cuts, ts, i) == b[|b| - g..]
    decreases |ts| - i
  {
    hide Destinations, Laid, ToGo, Reach;
    LaidFits(ring, cuts, ts, bufs);
    LaidIs(ring, cuts, ts, bufs, i);
    ReachStep(ring, cuts, ts, i);
    var b, g, n := bufs[ts[i].cb.value], ToGo(ts, i), ts[i].num;
    Halves(b, |b| - g, n);
    if !ts[i].last {
      SlotReached(ring, cuts, ts, bufs, i + 1);
    }
  }

  lemma LaidIs(ring: seq<Desc>, cuts: seq<Cut>, ts: seq<Ticket>, bufs: seq<seq<Extent>>, i: nat)
    requires Laid(ring, cuts, ts, bufs) && i < |ts|
    ensures |cuts| == |ts| && LaidAt(ring, cuts, ts, bufs, i)
  {
  }

  lemma ReachStep(ring: seq<Desc>, cuts: seq<Cut>, ts: seq<Ticket>, i: nat)
    requires |cuts| == |ts| && forall k :: 0 <= k < |cuts| ==> cuts[k].first + cuts[k].count <= |ring|
    requires i < |ts|
    ensures ToGo(ts, i) == ts[i].num + if ts[i].last then 0 else ToGo(ts, i + 1)
    ensures Reach(ring, cuts, ts, i)
         == Destinations(ring[cuts[i].first..cuts[i].first + cuts[i].count])
            + if ts[i].last then [] else Reach(ring, cuts, ts, i + 1)
  {
    hide Destinations;
  }

  lemma Halves(b: seq<Extent>, o: nat, n: nat)
    requires o + n <= |b|
    ensures b[o..o + n] + b[o + n..] == b[o..]
    ensures o + n == |b| ==> b[o..o + n] + [] == b[o..]
  {
  }

  /** A whole queued slot stores to its buffer, byte for byte and in order. */
  lemma SlotCovered(ring: seq<Desc>, cuts: seq<Cut>, ts: seq<Ticket>, bus: seq<nat>, size: nat, blen: nat, i: nat)
    requires blen > 0 && forall k :: 0 <= k < |bus| ==> bus[k] < 0x1_0000_0000_0000_0000
    requires Laid(ring, cuts, ts, Buffers(bus, size, blen)) && i < |ts| && ToGo(ts, i) == CeilDiv(size, blen)
    ensures |cuts| == |ts| && forall k :: 0 <= k < |cuts| ==> cuts[k].first + cuts[k].count <= |ring|
    ensures ts[i].cb.Some? && ts[i].cb.value < |bus|
    ensures Flatten(Reach(ring, cuts, ts, i)) == Range(bus[ts[i].cb.value], size)
  {
    hide Laid, Reach, ToGo, Split, Flatten, Range, CeilDiv;
    var bufs := Buffers(bus, size, blen);
    SlotReached(ring, cuts, ts, bufs, i);
    var t := ts[i].cb.value;
    SplitFaithful(bus[t], size, blen);
    assert bufs[t][|bufs[t]| - ToGo(ts, i)..] == bufs[t];
  }

  // ---------------------------------------------------------------- retirement

  lemma {:induction false} ToGoTail(ts: seq<Ticket>, n: nat, i: nat)
    requires n <= |ts|
    ensures ToGo(ts[n..], i) == ToGo(ts, n + i)
    decreases |ts| - i
  {
    if i < |ts| - n {
      ToGoTail(ts, n, i + 1);
    }
  }

  /** The head leaves the queue. */
  lemma LaidTail(ring: seq<Desc>, cuts: seq<Cut>, ts: seq<Ticket>, bufs: seq<seq<Extent>>, n: nat)
    requires Laid(ring, cuts, ts, bufs) && n <= |ts|
    ensures Laid(ring, cuts[n..], ts[n..], bufs)
  {
    hide Destinations, ToGo;
    forall i | 0 <= i < |ts| - n
      ensures LaidAt(ring, cuts[n..], ts[n..], bufs, i)
    {
      assert LaidAt(ring, cuts, ts, bufs, n + i);
      ToGoTail(ts, n, i);
    }
  }

  // ---------------------------------------------------------------- submission

  ghost predicate EndsWhole(ts: seq<Ticket>) { ts == [] || ts[|ts| - 1].last }

  lemma {:induction false} ToGoPrefix(ts: seq<Ticket>, us: seq<Ticket>, i: nat)
    requires EndsWhole(ts) && i < |ts|
    ensures ToGo(ts + us, i) == ToGo(ts, i)
    decreases |ts| - i
  {
    if !ts[i].last {
      ToGoPrefix(ts, us, i + 1);
    }
  }

  /** The transfers of one request for slot t, at these cuts: only the last is flagged. */
  ghost predicate RequestTickets(us: seq<Ticket>, cuts: seq<Cut>, t: nat) {
    |us| == |cuts| && forall i :: 0 <= i < |us| ==> TicketAt(us, cuts, t, i)
  }

  ghost predicate TicketAt(us: seq<Ticket>, cuts: seq<Cut>, t: nat, i: nat)
    requires i < |us| == |cuts|
  {
    us[i].num == cuts[i].count && us[i].last == (i + 1 == |us|) && us[i].cb == Some(t)
  }

  lemma {:induction false} ToGoRequest(us: seq<Ticket>, cuts: seq<Cut>, t: nat, i: nat)
    requires RequestTickets(us, cuts, t) && i <= |us|
    ensures ToGo(us, i) == Sum(Counts(cuts)) - Offset(cuts, i)
    decreases |us| - i
  {
    var s := Counts(cuts);
    if i < |us| {
      assert TicketAt(us, cuts, t, i);
      ToGoRequest(us, cuts, t, i + 1);
      SumTake(s, i);
      hide Sum;
      if i + 1 == |us| {
        assert ToGo(us, i + 1) == 0;
      }
    } else {
      assert s[..|s|] == s;
    }
  }

  lemma ToGoSuffix(ts: seq<Ticket>, us: seq<Ticket>, i: nat)
    ensures ToGo(ts + us, |ts| + i) == ToGo(us, i)
  {
    ToGoTail(ts + us, |ts|, i);
    assert (ts + us)[|ts|..] == us;
  }

  /** Entries that no new cut meets. */
  lemma OldSlice(c: Config, ring: seq<Desc>, cuts: seq<Cut>, more: seq<Cut>, pieces: seq<Extent>, ep: nat, i: nat)
    requires Sum(Counts(more)) == |pieces| && PairwiseDisjoint(cuts + more) && i < |cuts|
    requires cuts[i].first + cuts[i].count <= |ring|
    ensures RingAfter(c, ring, more, pieces, ep)[cuts[i].first..cuts[i].first + cuts[i].count]
         == ring[cuts[i].first..cuts[i].first + cuts[i].count]
  {
    hide RingAfter, Sum, Counts;
    var now, cut := RingAfter(c, ring, more, pieces, ep), cuts[i];
    forall k | cut.first <= k < cut.first + cut.count
      ensures now[k] == ring[k]
    {
      forall j | 0 <= j < |more|
        ensures !(more[j].first <= k < more[j].first + more[j].count)
      {
        assert Disjoint((cuts + more)[i], (cuts + more)[|cuts| + j]);
      }
      RingAfterOutside(c, ring, more, pieces, ep, k);
    }
  }

  /** Where the new descriptors of a read point. */
  lemma NewSlice(c: Config, ring: seq<Desc>, more: seq<Cut>, pieces: seq<Extent>, ep: nat, i: nat)
    requires ValidConfig(c) && c.dir.FromDevice? && |ring| == c.descMax && BusList(pieces)
    requires Sum(Counts(more)) == |pieces| && PairwiseDisjoint(more) && i < |more| && ep < 0x1_0000_0000_0000_0000
    requires forall k :: 0 <= k < |more| ==> more[k].first + more[k].count <= |ring|
    ensures var o, n := Offset(more, i), more[i].count;
            && o + n <= |pieces|
            && Destinations(RingAfter(c, ring, more, pieces, ep)[more[i].first..more[i].first + n]) == pieces[o..o + n]
  {
    hide RingAfter, Sum, Counts, TransferDescs, Destinations, Offset, EpAfter;
    RingAfterAt(c, ring, more, pieces, ep, i);
    var o, n := Offset(more, i), more[i].count;
    EpAfterBound(c, pieces[..o], ep);
    TransferPoints(c, more[i].first, pieces[o..o + n], EpAfter(c, pieces[..o], ep));
    SidesAre(c, TransferDescs(c, more[i].first, pieces[o..o + n], EpAfter(c, pieces[..o], ep)));
  }

  /** A slot is submitted: its descriptors store to its own buffer, and those of the other stay. */
  lemma LaidMore(c: Config, ring: seq<Desc>, cuts: seq<Cut>, ts: seq<Ticket>, bufs: seq<seq<Extent>>,
                 more: seq<Cut>, us: seq<Ticket>, t: nat, ep: nat)
    requires ValidConfig(c) && c.dir.FromDevice? && |ring| == c.descMax && ep < 0x1_0000_0000_0000_0000
    requires Laid(ring, cuts, ts, bufs) && EndsWhole(ts) && PairwiseDisjoint(cuts + more)
    requires RequestTickets(us, more, t) && t < |bufs| && BusList(bufs[t]) && Sum(Counts(more)) == |bufs[t]|
    requires forall k :: 0 <= k < |more| ==> more[k].first + more[k].count <= |ring|
    ensures Laid(RingAfter(c, ring, more, bufs[t], ep), cuts + more, ts + us, bufs)
  {
    hide RingAfter, Destinations, ToGo, Sum, Counts, Offset, BusList;
    MoreDisjoint(cuts, more);
    var now := RingAfter(c, ring, more, bufs[t], ep);
    forall i | 0 <= i < |ts + us|
      ensures LaidAt(now, cuts + more, ts + us, bufs, i)
    {
      if i < |ts| {
        assert LaidAt(ring, cuts, ts, bufs, i);
        OldSlice(c, ring, cuts, more, bufs[t], ep, i);
        ToGoPrefix(ts, us, i);
      } else {
        var k := i - |ts|;
        assert TicketAt(us, more, t, k);
        NewSlice(c, ring, more, bufs[t], ep, k);
        ToGoRequest(us, more, t, k);
        ToGoSuffix(ts, us, k);
        OffsetStep(more, k);
        if k + 1 < |us| {
          assert TicketAt(us, more, t, k + 1);
        }
        FirstOfRest(us, k);
      }
    }
  }

  lemma FirstOfRest(us: seq<Ticket>, k: nat)
    requires k < |us|
    ensures us[k].num <= ToGo(us, k)
  {
  }

  lemma MoreDisjoint(cuts: seq<Cut>, more: seq<Cut>)
    requires PairwiseDisjoint(cuts + more)
    ensures PairwiseDisjoint(more)
  {
    forall i, j | 0 <= i < j < |more|
      ensures Disjoint(more[i], more[j])
    {
      assert Disjoint((cuts + more)[|cuts| + i], (cuts + more)[|cuts| + j]);
    }
  }

  // ---------------------------------------------------------------- where a store lands

  /** The pieces of a buffer lie inside it. */
  lemma {:induction false} PieceInside(addr: nat, len: nat, blen: nat, k: nat)
    requires blen > 0 && addr + len <= 0x1_0000_0000_0000_0000 && k < |Split(addr, len, blen)|
    ensures var p := Split(addr, len, blen)[k];
            addr <= p.addr && p.addr + p.len <= addr + len
    decreases len
  {
    if len > blen && k > 0 {
      Fits(addr + blen);
      PieceInside(addr + blen, len - blen, blen, k - 1);
    }
  }

  lemma RangeBounds(addr: nat, len: nat, at: nat)
    requires addr + len <= 0x1_0000_0000_0000_0000 && at in Range(addr, len)
    ensures addr <= at < addr + len
  {
    var i :| 0 <= i < len && Range(addr, len)[i] == at;
    Fits(addr + i);
  }

  /** A byte that the head transfer's descriptor j stores falls into the buffer of the head's slot. */
  lemma StoreInside(ring: seq<Desc>, cuts: seq<Cut>, ts: seq<Ticket>, bus: seq<nat>, size: nat, blen: nat,
                    j: nat, at: nat)
    requires blen > 0 && (forall i :: 0 <= i < |bus| ==> bus[i] + size <= 0x1_0000_0000_0000_0000)
    requires Laid(ring, cuts, ts, Buffers(bus, size, blen)) && ts != [] && j < ts[0].num
    requires cuts[0].first + j < |ring|
    requires var d := ring[cuts[0].first + j]; at in Range(Join(d.dstLo, d.dstHi), d.bytes)
    ensures ts[0].cb.Some? && ts[0].cb.value < |bus|
    ensures bus[ts[0].cb.value] <= at < bus[ts[0].cb.value] + size
  {
    hide Split, Range, ToGo;
    assert LaidAt(ring, cuts, ts, Buffers(bus, size, blen), 0);
    var t := ts[0].cb.value;
    var b, k := Buffers(bus, size, blen)[t], |Buffers(bus, size, blen)[t]| - ToGo(ts, 0) + j;
    var slice := ring[cuts[0].first..cuts[0].first + cuts[0].count];
    assert slice[j] == ring[cuts[0].first + j];
    assert Destinations(slice)[j] == b[k];
    PieceInside(bus[t], size, blen, k);
    RangeBounds(b[k].addr, b[k].len, at);
  }

  /** The pieces of the two buffers, which are one scatter-list entry each. */
  function Buffers(bus: seq<nat>, size: nat, blen: nat): (r: seq<seq<Extent>>)
    requires blen > 0
    ensures |r| == |bus|
  {
    seq(|bus|, i requires 0 <= i < |bus| => Split(bus[i], size, blen))
  }
}
