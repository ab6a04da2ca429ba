/** Byte memories, address ranges and the one linear copy that a request stands for. */
module LinearCopy {
  import opened Words

  type Memory = map<nat, bv8>

  /** A contiguous piece of bus memory: a scatter-list entry or a software descriptor. */
  datatype Extent = Extent(addr: nat, len: nat)

  function Load(m: Memory, a: nat): bv8 { if a in m then m[a] else 0 }

  /** The byte addresses of `len` bytes from `addr`, on a 64-bit bus. */
  function Range(addr: nat, len: nat): (r: seq<nat>)
    ensures |r| == len
  {
    seq<nat>(len, i requires 0 <= i < len => U64(addr + i))
  }

  /** The byte addresses of a list of extents, in order. */
  function Flatten(s: seq<Extent>): seq<nat> {
    if s == [] then [] else Range(s[0].addr, s[0].len) + Flatten(s[1..])
  }

  function Lens(s: seq<Extent>): (r: seq<nat>)
    ensures |r| == |s|
  {
    seq<nat>(|s|, i requires 0 <= i < |s| => s[i].len)
  }

  function Total(s: seq<Extent>): nat { Sum(Lens(s)) }

  /** Byte k of `srcs` is stored at byte k of `dsts`, for k ascending. */
  function Copy(dst: Memory, dsts: seq<nat>, src: Memory, srcs: seq<nat>): Memory
    requires |dsts| == |srcs|
    decreases |dsts|
  {
    if dsts == [] then dst
    else Copy(dst[dsts[0] := Load(src, srcs[0])], dsts[1..], src, srcs[1..])
  }

  lemma {:induction false} CopyConcat(dst: Memory, d1: seq<nat>, d2: seq<nat>, src: Memory, s1: seq<nat>, s2: seq<nat>)
    requires |d1| == |s1| && |d2| == |s2|
    ensures Copy(dst, d1 + d2, src, s1 + s2) == Copy(Copy(dst, d1, src, s1), d2, src, s2)
    decreases |d1|
  {
    if d1 == [] {
      assert d1 + d2 == d2 && s1 + s2 == s2;
    } else {
      assert (d1 + d2)[1..] == d1[1..] + d2 && (s1 + s2)[1..] == s1[1..] + s2;
      CopyConcat(dst[d1[0] := Load(src, s1[0])], d1[1..], d2, src, s1[1..], s2);
    }
  }

  /** No address is named twice. */
  ghost predicate Distinct(s: seq<nat>) { forall i, j :: 0 <= i < j < |s| ==> s[i] != s[j] }

  /** What a copy leaves in memory, byte by byte. */
  lemma {:induction false} CopyMeaning(dst: Memory, dsts: seq<nat>, src: Memory, srcs: seq<nat>)
    requires |dsts| == |srcs|
    ensures forall a :: a !in dsts ==> Load(Copy(dst, dsts, src, srcs), a) == Load(dst, a)
    ensures Distinct(dsts) ==>
              forall k :: 0 <= k < |dsts| ==> Load(Copy(dst, dsts, src, srcs), dsts[k]) == Load(src, srcs[k])
    decreases |dsts|
  {
    if dsts != [] {
      var m := dst[dsts[0] := Load(src, srcs[0])];
      CopyMeaning(m, dsts[1..], src, srcs[1..]);
      forall k | Distinct(dsts) && 0 <= k < |dsts|
        ensures Load(Copy(dst, dsts, src, srcs), dsts[k]) == Load(src, srcs[k])
      {
        if k > 0 {
          assert dsts[1..][k - 1] == dsts[k];
        } else {
          assert dsts[0] !in dsts[1..];
        }
      }
    }
  }

  lemma RangeSplit(addr: nat, m: nat, n: nat)
    ensures Range(addr, m + n) == Range(addr, m) + Range(U64(addr + m), n)
  {
    var whole, parts := Range(addr, m + n), Range(addr, m) + Range(U64(addr + m), n);
    forall i | 0 <= i < m + n
      ensures whole[i] == parts[i]
    {
      if i >= m {
        U64Add(addr + m, i - m);
      }
    }
  }

  lemma RangeDistinct(addr: nat, len: nat)
    requires len <= 0x1_0000_0000_0000_0000
    ensures Distinct(Range(addr, len))
  {
    forall i, j | 0 <= i < j < len
      ensures Range(addr, len)[i] != Range(addr, len)[j]
    {
      U64Injective(addr + i, addr + j);
    }
  }

  lemma {:induction false} FlattenConcat(a: seq<Extent>, b: seq<Extent>)
    ensures Flatten(a + b) == Flatten(a) + Flatten(b)
    decreases |a|
  {
    if a == [] {
      assert a + b == b;
    } else {
      assert (a + b)[1..] == a[1..] + b;
      FlattenConcat(a[1..], b);
      assert Range(a[0].addr, a[0].len) + (Flatten(a[1..]) + Flatten(b))
          == (Range(a[0].addr, a[0].len) + Flatten(a[1..])) + Flatten(b);
    }
  }

  lemma TotalConcat(a: seq<Extent>, b: seq<Extent>)
    ensures Total(a + b) == Total(a) + Total(b)
  {
    assert Lens(a + b) == Lens(a) + Lens(b);
    SumConcat(Lens(a), Lens(b));
  }

  lemma {:induction false} FlattenLength(s: seq<Extent>)
    ensures |Flatten(s)| == Total(s)
    decreases |s|
  {
    if s != [] {
      FlattenLength(s[1..]);
      assert Lens(s)[1..] == Lens(s[1..]);
    }
  }
}
