/** From a scatter list to software descriptors (xdma_init_request). */
module Request {
  import opened Words
  import opened LinearCopy

  // ---------------------------------------------------------------- xdma_init_request

  /** The pieces of one scatter-list entry: full pieces of `blen` bytes, then the rest. */
  function Split(addr: nat, len: nat, blen: nat): seq<Extent>
    requires blen > 0
    decreases len
  {
    if len == 0 then []
    else if len > blen then [Extent(addr, blen)] + Split(U64(addr + blen), len - blen, blen)
    else [Extent(addr, len)]
  }

  function Pieces(sgl: seq<Extent>, blen: nat): seq<Extent>
    requires blen > 0
  {
    if sgl == [] then [] else Split(sgl[0].addr, sgl[0].len, blen) + Pieces(sgl[1..], blen)
  }

  function CeilDiv(x: nat, b: nat): nat
    requires b > 0
  {
    (x + b - 1) / b
  }

  lemma {:induction false} SplitFaithful(addr: nat, len: nat, blen: nat)
    requires blen > 0 && addr < 0x1_0000_0000_0000_0000
    ensures Flatten(Split(addr, len, blen)) == Range(addr, len)
    ensures |Split(addr, len, blen)| == CeilDiv(len, blen)
    ensures forall i :: 0 <= i < |Split(addr, len, blen)| ==> 1 <= Split(addr, len, blen)[i].len <= blen
    ensures forall i :: 0 <= i < |Split(addr, len, blen)| ==> Split(addr, len, blen)[i].addr < 0x1_0000_0000_0000_0000
    decreases len
  {
    if len == 0 {
      DivUnique(blen - 1, blen, 0, blen - 1);
    } else if len > blen {
      var rest := Split(U64(addr + blen), len - blen, blen);
      SplitFaithful(U64(addr + blen), len - blen, blen);
      assert Split(addr, len, blen)[1..] == rest;
      RangeSplit(addr, blen, len - blen);
      DivStep(len - blen + blen - 1, blen);
    } else {
      assert Flatten([Extent(addr, len)]) == Range(addr, len) + Flatten([]);
      DivUnique(len + blen - 1, blen, 1, len - 1);
    }
  }

  function PieceCount(sgl: seq<Extent>, blen: nat): nat
    requires blen > 0
  {
    if sgl == [] then 0 else CeilDiv(sgl[0].len, blen) + PieceCount(sgl[1..], blen)
  }

  ghost predicate BusList(sgl: seq<Extent>) {
    forall i :: 0 <= i < |sgl| ==> sgl[i].addr < 0x1_0000_0000_0000_0000
  }

  /** Software descriptors denote exactly the bytes of the scatter list, in order, in bounded pieces. */
  lemma {:induction false} PiecesFaithful(sgl: seq<Extent>, blen: nat)
    requires blen > 0 && BusList(sgl)
    ensures Flatten(Pieces(sgl, blen)) == Flatten(sgl)
    ensures |Pieces(sgl, blen)| == PieceCount(sgl, blen)
    ensures forall i :: 0 <= i < |Pieces(sgl, blen)| ==> 1 <= Pieces(sgl, blen)[i].len <= blen
    ensures BusList(Pieces(sgl, blen))
    decreases |sgl|
  {
    if sgl != [] {
      SplitFaithful(sgl[0].addr, sgl[0].len, blen);
      PiecesFaithful(sgl[1..], blen);
      FlattenConcat(Split(sgl[0].addr, sgl[0].len, blen), Pieces(sgl[1..], blen));
    }
  }

  lemma PiecesTotal(sgl: seq<Extent>, blen: nat)
    requires blen > 0 && BusList(sgl)
    ensures Total(Pieces(sgl, blen)) == Total(sgl)
  {
    PiecesFaithful(sgl, blen);
    FlattenLength(sgl);
    FlattenLength(Pieces(sgl, blen));
  }

  lemma {:induction false} PiecesConcat(a: seq<Extent>, b: seq<Extent>, blen: nat)
    requires blen > 0
    ensures Pieces(a + b, blen) == Pieces(a, blen) + Pieces(b, blen)
    decreases |a|
  {
    if a == [] {
      assert a + b == b;
    } else {
      assert (a + b)[1..] == a[1..] + b;
      PiecesConcat(a[1..], b, blen);
    }
  }

  /** The slots that the first pass reserves for one entry; the sum wraps at 32 bits. */
  function Reserved(len: nat, blen: nat): nat
    requires blen > 0
  {
    1 + if len > blen then U32(len + blen - 1) / blen else 0
  }

  /** One entry's reservation holds its pieces exactly when the 32-bit rounding sum does not wrap. */
  lemma ReservedEnough(len: nat, blen: nat)
    requires 0 < blen < 0x1_0000_0000 && len < 0x1_0000_0000
    ensures CeilDiv(len, blen) <= Reserved(len, blen) <==> (len <= blen || len + blen - 1 < 0x1_0000_0000)
    ensures len <= blen ==> Reserved(len, blen) == 1
    ensures len > blen && len + blen - 1 < 0x1_0000_0000 ==> Reserved(len, blen) == CeilDiv(len, blen) + 1
  {
    var x := len + blen - 1;
    if len <= blen {
      if len == 0 {
        DivUnique(x, blen, 0, blen - 1);
      } else {
        DivUnique(x, blen, 1, len - 1);
      }
    } else if x >= 0x1_0000_0000 {
      var y := x - 0x1_0000_0000;
      var q, r := y / blen, y % blen;
      assert y == blen * q + r;
      if blen <= 0x8000_0000 {
        assert x >= blen * (q + 2) by {
          assert blen * (q + 2) == blen * q + 2 * blen;
        }
      } else {
        DivUnique(y, blen, 0, y);
        assert x >= blen * (q + 2) by {
          assert blen * (q + 2) == blen * q + 2 * blen;
        }
      }
      QuotientAtLeast(x, blen, q + 2);
    }
  }

  lemma QuotientAtLeast(x: nat, b: nat, q: nat)
    requires b > 0 && x >= b * q
    ensures x / b >= q
  {
    var k, r := x / b, x % b;
    assert x == b * k + r;
    assert b * (q - k) == b * q - b * k;
    MulSign(b, q - k);
  }

  ghost predicate NoRoundingWrap(sgl: seq<Extent>, blen: nat) {
    forall i :: 0 <= i < |sgl| ==> sgl[i].len <= blen || sgl[i].len + blen - 1 < 0x1_0000_0000
  }

  /** The slots that the counting pass adds up for the whole list. */
  function SlotCount(sgl: seq<Extent>, blen: nat): nat
    requires blen > 0
  {
    if sgl == [] then 0 else SlotCount(sgl[..|sgl| - 1], blen) + Reserved(sgl[|sgl| - 1].len, blen)
  }

  /** Without a wrapping entry they are enough; with one, spare slots of other entries may help. */
  lemma {:induction false} SlotsEnough(sgl: seq<Extent>, blen: nat)
    requires 0 < blen < 0x1_0000_0000 && NoRoundingWrap(sgl, blen)
    requires forall i :: 0 <= i < |sgl| ==> sgl[i].len < 0x1_0000_0000
    ensures PieceCount(sgl, blen) <= SlotCount(sgl, blen)
    decreases |sgl|
  {
    if sgl != [] {
      var n := |sgl| - 1;
      SlotsEnough(sgl[..n], blen);
      ReservedEnough(sgl[n].len, blen);
      assert sgl == sgl[..n] + [sgl[n]];
      CountSnoc(sgl[..n], sgl[n], blen);
    }
  }

  class RequestCb {
    var epAddr: nat
    var totalLen: nat
    var swDescIdx: nat
    var swDescCnt: nat
    var sdesc: array<Extent>

    constructor (max: nat, epAddr: nat)
      ensures this.epAddr == epAddr && totalLen == 0 && swDescIdx == 0 && swDescCnt == 0
      ensures fresh(sdesc) && sdesc.Length == max
    {
      this.epAddr := epAddr;
      totalLen, swDescIdx, swDescCnt := 0, 0, 0;
      sdesc := new Extent[max](_ => Extent(0, 0));
    }

    /** The software descriptors of the request. */
    ghost function Descs(): seq<Extent>
      requires swDescCnt <= sdesc.Length
      reads this, sdesc
    {
      sdesc[..swDescCnt]
    }
  }

  lemma SlotsSnoc(sgl: seq<Extent>, i: nat, blen: nat)
    requires blen > 0 && i < |sgl|
    ensures SlotCount(sgl[..i + 1], blen) == SlotCount(sgl[..i], blen) + Reserved(sgl[i].len, blen)
  {
    assert sgl[..i + 1][..i] == sgl[..i];
  }

  lemma NoSlots(blen: nat)
    requires blen > 0
    ensures SlotCount([], blen) == 0
  {
  }

  /** The counting pass: how many software descriptors to allocate. */
  method SlotBound(sgl: seq<Extent>, blenMax: nat) returns (max: nat)
    requires 0 < blenMax < 0x1_0000_0000
    requires forall i :: 0 <= i < |sgl| ==> sgl[i].len < 0x1_0000_0000
    ensures max == SlotCount(sgl, blenMax)
  {
    hide SlotCount, U32;
    var extra := 0;
    NoSlots(blenMax);
    for i := 0 to |sgl|
      invariant i + extra == SlotCount(sgl[..i], blenMax)
    {
      var len := sgl[i].len;
      if len > blenMax {
        extra := extra + U32(len + blenMax - 1) / blenMax;
      }
      SlotsSnoc(sgl, i, blenMax);
    }
    assert sgl[..|sgl|] == sgl;
    max := |sgl| + extra;
  }

  /** xdma_init_request: refused exactly when the list has more pieces than counted slots. The source
      finds that out after its stores; here a store outside the array is dropped. The 32-bit total
      wraps as in C. */
  method InitRequest(sgl: seq<Extent>, epAddr: nat, blenMax: nat) returns (r: Option<RequestCb>)
    requires 0 < blenMax < 0x1_0000_0000 && BusList(sgl)
    requires forall i :: 0 <= i < |sgl| ==> sgl[i].len < 0x1_0000_0000
    ensures r.Some? <==> PieceCount(sgl, blenMax) <= SlotCount(sgl, blenMax)
    ensures r.Some? ==>
              && fresh(r.value) && fresh(r.value.sdesc)
              && r.value.swDescCnt <= r.value.sdesc.Length
              && r.value.Descs() == Pieces(sgl, blenMax)
              && r.value.totalLen == U32(Total(sgl))
              && r.value.epAddr == epAddr && r.value.swDescIdx == 0
  {
    hide SlotCount, Split, U32, Pieces, PieceCount, Total, BusList, Written;
    var max := SlotBound(sgl, blenMax);
    var req := new RequestCb(max, epAddr);
    var j: nat := 0;
    NothingYet(sgl, blenMax);
    for i := 0 to |sgl|
      invariant fresh(req) && fresh(req.sdesc) && req.sdesc.Length == max
      invariant req.epAddr == epAddr && req.swDescIdx == 0
      invariant j == |Pieces(sgl[..i], blenMax)| && Stored(req.sdesc[..], Pieces(sgl[..i], blenMax))
      invariant req.totalLen == U32(Total(sgl[..i]))
    {
      var tlen, addr := sgl[i].len, sgl[i].addr;
      PrefixSnoc(sgl, i, blenMax);
      req.totalLen := U32(req.totalLen + tlen);
      ghost var was, first := req.sdesc[..], j;
      BusAt(sgl, i);
      j := FillEntry(req, j, addr, tlen, blenMax);
      StoredMore(was, req.sdesc[..], Pieces(sgl[..i], blenMax), Split(addr, tlen, blenMax));
    }
    assert sgl[..|sgl|] == sgl;
    PiecesFaithful(sgl, blenMax);
    if j > max {
      return None;
    }
    req.swDescCnt := j;
    return Some(req);
  }

  /** The array holds these descriptors from its start, as far as it reaches. */
  ghost predicate Stored(a: seq<Extent>, ps: seq<Extent>) {
    forall k :: 0 <= k < |a| && k < |ps| ==> a[k] == ps[k]
  }

  lemma StoredMore(was: seq<Extent>, now: seq<Extent>, a: seq<Extent>, b: seq<Extent>)
    requires Stored(was, a) && Written(was, now, |a|, b)
    ensures Stored(now, a + b)
  {
  }

  lemma BusAt(sgl: seq<Extent>, i: nat)
    requires BusList(sgl) && i < |sgl|
    ensures sgl[i].addr < 0x1_0000_0000_0000_0000
  {
  }

  lemma NothingYet(sgl: seq<Extent>, blen: nat)
    requires blen > 0
    ensures Pieces(sgl[..0], blen) == [] && U32(Total(sgl[..0])) == 0
  {
  }

  /** The inner loop: one scatter-list entry becomes full pieces and a rest. */
  method FillEntry(req: RequestCb, first: nat, entryAddr: nat, entryLen: nat, blenMax: nat) returns (j: nat)
    requires 0 < blenMax && entryAddr < 0x1_0000_0000_0000_0000
    modifies req.sdesc
    ensures j == first + |Split(entryAddr, entryLen, blenMax)|
    ensures Written(old(req.sdesc[..]), req.sdesc[..], first, Split(entryAddr, entryLen, blenMax))
  {
    hide Split, U64;
    var tlen: nat, addr: nat := entryLen, entryAddr;
    ghost var done, was := [], req.sdesc[..];
    j := first;
    while tlen > 0
      invariant j == first + |done|
      invariant Split(entryAddr, entryLen, blenMax) == done + Split(addr, tlen, blenMax)
      invariant Written(was, req.sdesc[..], first, done)
      decreases tlen
    {
      SplitStep(addr, tlen, blenMax);
      ghost var piece := Extent(addr, Min(tlen, blenMax));
      WrittenMore(was, req.sdesc[..], first, done, piece);
      if tlen > blenMax {
        if j < req.sdesc.Length {
          req.sdesc[j] := Extent(addr, blenMax);
        }
        addr := U64(addr + blenMax);
        tlen := tlen - blenMax;
      } else {
        if j < req.sdesc.Length {
          req.sdesc[j] := Extent(addr, tlen);
        }
        tlen := 0;
      }
      j := j + 1;
      done := done + [piece];
    }
    NoPieces(addr, blenMax);
  }

  /** These descriptors were stored from `first` on, as far as the array reaches, and nothing else. */
  ghost predicate Written(was: seq<Extent>, now: seq<Extent>, first: nat, ps: seq<Extent>) {
    && |was| == |now|
    && (forall k :: 0 <= k < first && k < |now| ==> now[k] == was[k])
    && forall k :: first <= k < first + |ps| && k < |now| ==> now[k] == ps[k - first]
  }

  lemma WrittenMore(was: seq<Extent>, now: seq<Extent>, first: nat, ps: seq<Extent>, p: Extent)
    requires Written(was, now, first, ps)
    ensures var j := first + |ps|;
            Written(was, if j < |now| then now[j := p] else now, first, ps + [p])
  {
  }

  lemma SplitStep(addr: nat, len: nat, blen: nat)
    requires blen > 0 && len > 0
    ensures Split(addr, len, blen)
         == [Extent(addr, Min(len, blen))]
            + Split(if len > blen then U64(addr + blen) else addr, if len > blen then len - blen else 0, blen)
  {
  }

  lemma NoPieces(addr: nat, blen: nat)
    requires blen > 0
    ensures Split(addr, 0, blen) == []
  {
  }

  /** One more entry of the list: its pieces follow. */
  lemma PrefixSnoc(sgl: seq<Extent>, i: nat, blen: nat)
    requires blen > 0 && i < |sgl| && BusList(sgl)
    ensures Pieces(sgl[..i + 1], blen) == Pieces(sgl[..i], blen) + Split(sgl[i].addr, sgl[i].len, blen)
    ensures U32(U32(Total(sgl[..i])) + sgl[i].len) == U32(Total(sgl[..i + 1]))
  {
    U32Add(Total(sgl[..i]), sgl[i].len);
    assert sgl[..i + 1] == sgl[..i] + [sgl[i]];
    TotalConcat(sgl[..i], [sgl[i]]);
    assert Lens([sgl[i]]) == [sgl[i].len] && Sum([sgl[i].len]) == sgl[i].len + Sum([]);
    PiecesConcat(sgl[..i], [sgl[i]], blen);
    assert Pieces([sgl[i]], blen) == Split(sgl[i].addr, sgl[i].len, blen) + Pieces([], blen);
  }

  lemma {:induction false} CountSnoc(s: seq<Extent>, e: Extent, blen: nat)
    requires blen > 0
    ensures PieceCount(s + [e], blen) == PieceCount(s, blen) + CeilDiv(e.len, blen)
    decreases |s|
  {
    if s != [] {
      assert (s + [e])[1..] == s[1..] + [e];
      CountSnoc(s[1..], e, blen);
    }
  }
}
