/** Fetching a chain: the engine's burst prefetch over Nxt_adj counts refines the plain
    linked-list walk over next pointers. */
module AdjacentWalk {
  import opened Words
  import opened LinearCopy
  import opened Descriptors

  /** The endpoint address of descriptor i of a chain. */
  function EpAt(c: Config, pieces: seq<Extent>, ep: nat, i: nat): nat
    requires i <= |pieces|
  {
    if c.nonIncr then ep else U64(ep + Sum(Lens(pieces)[..i]))
  }

  /** The ring holds, from index `first`, the chain for `pieces`. */
  ghost predicate ChainAt(c: Config, ring: seq<Desc>, first: nat, pieces: seq<Extent>, ep: nat) {
    && |ring| == c.descMax
    && 1 <= |pieces| && first + |pieces| <= c.descMax
    && forall i :: 0 <= i < |pieces| ==>
         ring[first + i] == Built(c, first, |pieces|, i, pieces[i], EpAt(c, pieces, ep, i))
  }

  /** What the engine uses of a fetched descriptor to find the next one. */
  datatype Link = Link(stop: bool, next: nat, adj: nat)

  function LinkAt(d: Desc): Link { Link(Stops(d), Next(d), Adjacent(d.control)) }

  function Links(ring: seq<Desc>): (r: seq<Link>)
    ensures |r| == |ring|
  {
    seq(|ring|, i requires 0 <= i < |ring| => LinkAt(ring[i]))
  }

  /** The ring index that a bus address denotes, if any. */
  predicate InRing(c: Config, addr: nat) {
    c.descBus <= addr && (addr - c.descBus) % 32 == 0 && (addr - c.descBus) / 32 < c.descMax
  }

  function IndexOf(c: Config, addr: nat): nat
    requires InRing(c, addr)
  {
    (addr - c.descBus) / 32
  }

  function Interval(first: nat, n: nat): (r: seq<nat>)
    ensures |r| == n
  {
    seq<nat>(n, i requires 0 <= i < n => first + i)
  }

  /** Ring indices visited by following next pointers until a descriptor with the stop flag. */
  function PointerWalk(c: Config, links: seq<Link>, addr: nat, fuel: nat): seq<nat>
    requires |links| == c.descMax
    decreases fuel
  {
    if fuel == 0 || !InRing(c, addr) then []
    else
      var k := IndexOf(c, addr);
      [k] + if links[k].stop then [] else PointerWalk(c, links, links[k].next, fuel - 1)
  }

  /** One prefetch: `count` descriptors from ring index `first` are executed. */
  datatype Burst = Burst(first: nat, count: nat)

  function Expand(bursts: seq<Burst>): seq<nat> {
    if bursts == [] then [] else Interval(bursts[0].first, bursts[0].count) + Expand(bursts[1..])
  }

  /** How many of `count` fetched descriptors execute before the engine stops. */
  function Executed(links: seq<Link>, k: nat, count: nat): (r: nat)
    requires k + count <= |links|
    ensures r <= count && (count > 0 ==> r > 0)
    decreases count
  {
    if count == 0 then 0
    else if links[k].stop then 1
    else 1 + Executed(links, k + 1, count - 1)
  }

  /** The engine's walk: fetch one descriptor and the `adj` adjacent ones, then continue with
      the next pointer and the adjacent count of the last of them. */
  function BurstWalk(c: Config, links: seq<Link>, addr: nat, adj: nat, fuel: nat): seq<Burst>
    requires |links| == c.descMax
    decreases fuel
  {
    if fuel == 0 || !InRing(c, addr) || IndexOf(c, addr) + adj >= c.descMax then []
    else
      var k := IndexOf(c, addr);
      var done := Executed(links, k, adj + 1);
      var last := links[k + done - 1];
      [Burst(k, done)] + if last.stop then [] else BurstWalk(c, links, last.next, last.adj, fuel - 1)
  }

  /** Position of a descriptor inside its block of 64. */
  function BlockSlot(c: Config, index: nat): nat { DescAddr(c, index) / 32 % 64 }

  /** The longest burst from ring index `s`: to the end of the block or of the chain. */
  function FullBurst(c: Config, s: nat, end: nat): nat
    requires s <= end
  {
    Min(64 - BlockSlot(c, s), end - s)
  }

  lemma AddrFacts(c: Config, index: nat)
    requires ValidConfig(c) && index < c.descMax
    ensures InRing(c, DescAddr(c, index)) && IndexOf(c, DescAddr(c, index)) == index
    ensures U64(DescAddr(c, index)) == DescAddr(c, index)
  {
  }

  lemma PageOffset(a: nat)
    ensures Lo(a) % 4096 == a % 4096
  {
    var q, p, t := a / 0x1_0000_0000, Lo(a) / 4096, Lo(a) % 4096;
    assert a == 0x1_0000_0000 * q + Lo(a);
    DivUnique(a, 4096, 0x10_0000 * q + p, t);
  }

  lemma PageSlot(a: nat)
    ensures a % 4096 / 32 % 64 == a / 32 % 64
  {
    var q, t := a / 4096, a % 4096;
    DivUnique(a, 32, 128 * q + t / 32, t % 32);
    DivUnique(128 * q + t / 32, 64, 2 * q + t / 32 / 64, t / 32 % 64);
  }

  /** The adjacent count that the driver stores ahead of ring index s. */
  function AdjBefore(c: Config, s: nat, end: nat): nat
    requires s <= end
  {
    GetNextAdj(end - s, Lo(DescAddr(c, s)))
  }

  /** It is exactly a full burst. */
  lemma AdjacentIsFullBurst(c: Config, s: nat, end: nat)
    requires ValidConfig(c) && s < end <= c.descMax
    ensures AdjBefore(c, s, end) + 1 == FullBurst(c, s, end)
  {
    PageOffset(DescAddr(c, s));
    PageSlot(DescAddr(c, s));
  }

  /** The links of a chain on ring indices [first, end). */
  ghost predicate Linked(c: Config, links: seq<Link>, first: nat, end: nat) {
    && |links| == c.descMax && first < end <= c.descMax
    && (forall s :: first <= s < end ==> (links[s].stop <==> s + 1 == end))
    && (forall s :: first <= s < end - 1 ==> links[s].next == DescAddr(c, s + 1))
    && (forall s :: first <= s < end - 1 ==> links[s].adj == AdjBefore(c, s + 1, end))
  }

  lemma ChainIsLinked(c: Config, ring: seq<Desc>, first: nat, pieces: seq<Extent>, ep: nat)
    requires ValidConfig(c) && ChainAt(c, ring, first, pieces, ep)
    ensures Linked(c, Links(ring), first, first + |pieces|)
  {
    var end := first + |pieces|;
    forall s | first <= s < end
      ensures Links(ring)[s].stop <==> s + 1 == end
      ensures s + 1 < end ==>
                Links(ring)[s].next == DescAddr(c, s + 1) && Links(ring)[s].adj == AdjBefore(c, s + 1, end)
    {
      ChainDecodes(c, ring, first, pieces, ep, s);
    }
  }

  lemma ChainDecodes(c: Config, ring: seq<Desc>, first: nat, pieces: seq<Extent>, ep: nat, s: nat)
    requires ValidConfig(c) && ChainAt(c, ring, first, pieces, ep)
    requires first <= s < first + |pieces|
    ensures var end := first + |pieces|;
            && (Stops(ring[s]) <==> s + 1 == end)
            && (s + 1 < end ==> Next(ring[s]) == DescAddr(c, s + 1))
            && (s + 1 < end ==> Adjacent(ring[s].control) == AdjBefore(c, s + 1, end))
  {
    var i := s - first;
    assert ring[first + i] == Built(c, first, |pieces|, i, pieces[i], EpAt(c, pieces, ep, i));
    BuiltDecodes(c, first, |pieces|, i, pieces[i], EpAt(c, pieces, ep, i));
    if s + 1 < first + |pieces| {
      AddrFacts(c, s + 1);
    }
  }

  lemma PointerStep(c: Config, links: seq<Link>, first: nat, end: nat, s: nat, fuel: nat)
    requires ValidConfig(c) && Linked(c, links, first, end)
    requires first <= s < end && fuel > 0
    ensures s + 1 < end ==>
              PointerWalk(c, links, DescAddr(c, s), fuel) == [s] + PointerWalk(c, links, DescAddr(c, s + 1), fuel - 1)
    ensures s + 1 == end ==> PointerWalk(c, links, DescAddr(c, s), fuel) == [s]
  {
    AddrFacts(c, s);
  }

  lemma IntervalCons(s: nat, n: nat)
    requires n > 0
    ensures Interval(s, n) == [s] + Interval(s + 1, n - 1)
  {
  }

  lemma {:induction false} PointerWalkCovers(c: Config, links: seq<Link>, first: nat, end: nat, s: nat, fuel: nat)
    requires ValidConfig(c) && Linked(c, links, first, end)
    requires first <= s < end <= s + fuel
    ensures PointerWalk(c, links, DescAddr(c, s), fuel) == Interval(s, end - s)
    decreases fuel
  {
    hide PointerWalk, Interval, DescAddr, ValidConfig;
    PointerStep(c, links, first, end, s, fuel);
    IntervalCons(s, end - s);
    if s + 1 < end {
      PointerWalkCovers(c, links, first, end, s + 1, fuel - 1);
    }
  }

  lemma {:induction false} ExecutedAll(c: Config, links: seq<Link>, first: nat, end: nat, s: nat, count: nat)
    requires Linked(c, links, first, end)
    requires first <= s && s + count <= end
    ensures Executed(links, s, count) == count
    decreases count
  {
    if count > 0 {
      ExecutedAll(c, links, first, end, s + 1, count - 1);
    }
  }

  lemma IntervalSplit(s: nat, m: nat, n: nat)
    ensures Interval(s, m + n) == Interval(s, m) + Interval(s + m, n)
  {
  }

  /** A full burst stays in its block of 64 descriptors, hence inside one 4 KiB page, and
      cannot be made longer. */
  ghost predicate Maximal(c: Config, b: Burst, end: nat) {
    && b.count >= 1 && b.first + b.count <= end
    && b.count == FullBurst(c, b.first, end)
    && DescAddr(c, b.first) / 2048 == DescAddr(c, b.first + b.count - 1) / 2048
    && DescAddr(c, b.first) / 4096 == DescAddr(c, b.first + b.count - 1) / 4096
    && (b.first + b.count < end ==> DescAddr(c, b.first + b.count) / 2048 == DescAddr(c, b.first) / 2048 + 1)
  }

  ghost predicate AllMaximal(c: Config, bursts: seq<Burst>, end: nat) {
    forall i :: 0 <= i < |bursts| ==> Maximal(c, bursts[i], end)
  }

  /** The bursts from s cover the chain's descriptors up to its end, each of them maximal. */
  ghost predicate Covers(c: Config, bursts: seq<Burst>, s: nat, end: nat) {
    s <= end && Expand(bursts) == Interval(s, end - s) && AllMaximal(c, bursts, end)
  }

  lemma CoversNothing(c: Config, end: nat)
    ensures Covers(c, [], end, end)
  {
  }

  lemma CoversCons(c: Config, b: Burst, rest: seq<Burst>, end: nat)
    requires Maximal(c, b, end) && Covers(c, rest, b.first + b.count, end)
    ensures Covers(c, [b] + rest, b.first, end)
  {
    assert ([b] + rest)[1..] == rest;
    IntervalSplit(b.first, b.count, end - b.first - b.count);
  }

  lemma SameBlock(a: nat, slot: nat, k: nat)
    requires a % 32 == 0 && slot == a / 32 % 64 && slot + k <= 64
    ensures k < 64 - slot ==> (a + 32 * k) / 2048 == a / 2048
    ensures k == 64 - slot ==> (a + 32 * k) / 2048 == a / 2048 + 1
  {
    var q := a / 32 / 64;
    assert a == 2048 * q + 32 * slot;
    DivUnique(a, 2048, q, 32 * slot);
    if k < 64 - slot {
      DivUnique(a + 32 * k, 2048, q, 32 * (slot + k));
    } else {
      DivUnique(a + 32 * k, 2048, q + 1, 0);
    }
  }

  lemma FullBurstIsMaximal(c: Config, s: nat, end: nat)
    requires ValidConfig(c) && s < end <= c.descMax
    ensures Maximal(c, Burst(s, FullBurst(c, s, end)), end)
  {
    var a, count := DescAddr(c, s), FullBurst(c, s, end);
    SameBlock(a, BlockSlot(c, s), count - 1);
    SameBlock(a, BlockSlot(c, s), count);
    PageOfBlock(a);
    PageOfBlock(a + 32 * (count - 1));
  }

  lemma PageOfBlock(a: nat)
    ensures a / 4096 == a / 2048 / 2
  {
  }

  /** The engine's walk from ring index s with the count stored ahead of it. */
  function WalkFrom(c: Config, links: seq<Link>, s: nat, end: nat, fuel: nat): seq<Burst>
    requires s <= end && |links| == c.descMax
  {
    BurstWalk(c, links, DescAddr(c, s), AdjBefore(c, s, end), fuel)
  }

  lemma BurstStep(c: Config, links: seq<Link>, first: nat, end: nat, s: nat, fuel: nat)
    requires ValidConfig(c) && Linked(c, links, first, end)
    requires first <= s < end && fuel > 0
    ensures var count := FullBurst(c, s, end);
            && 1 <= count <= end - s
            && (s + count < end ==>
                  WalkFrom(c, links, s, end, fuel) == [Burst(s, count)] + WalkFrom(c, links, s + count, end, fuel - 1))
            && (s + count == end ==> WalkFrom(c, links, s, end, fuel) == [Burst(s, count)] + [])
  {
    var count := FullBurst(c, s, end);
    AddrFacts(c, s);
    AdjacentIsFullBurst(c, s, end);
    ExecutedAll(c, links, first, end, s, count);
    assert links[s + count - 1].stop <==> s + count == end;
  }

  lemma {:induction false} BurstWalkCovers(c: Config, links: seq<Link>, first: nat, end: nat, s: nat, fuel: nat)
    requires ValidConfig(c) && Linked(c, links, first, end)
    requires first <= s < end <= s + fuel
    ensures Covers(c, WalkFrom(c, links, s, end, fuel), s, end)
    decreases fuel
  {
    hide WalkFrom, FullBurst, DescAddr, Maximal, Covers;
    var b := Burst(s, FullBurst(c, s, end));
    FullBurstIsMaximal(c, s, end);
    BurstStep(c, links, first, end, s, fuel);
    if s + b.count < end {
      BurstWalkCovers(c, links, first, end, s + b.count, fuel - 1);
      CoversCons(c, b, WalkFrom(c, links, s + b.count, end, fuel - 1), end);
    } else {
      CoversNothing(c, end);
      CoversCons(c, b, [], end);
    }
  }

  /** The engine started on a chain with the driver's first_desc_adjacent executes exactly the
      chain's descriptors, once and in order, like the pointer walk; every burst is as long as
      its block and the chain allow, and no longer. */
  lemma BurstsRefinePointers(c: Config, ring: seq<Desc>, first: nat, pieces: seq<Extent>, ep: nat, fuel: nat)
    requires ValidConfig(c) && ChainAt(c, ring, first, pieces, ep) && |pieces| <= fuel
    ensures var start := DescAddr(c, first);
            var bursts := BurstWalk(c, Links(ring), start, GetNextAdj(|pieces|, Lo(start)), fuel);
            && Expand(bursts) == PointerWalk(c, Links(ring), start, fuel) == Interval(first, |pieces|)
            && AllMaximal(c, bursts, first + |pieces|)
  {
    hide PointerWalk, BurstWalk, DescAddr, Linked, Maximal, Interval, GetNextAdj;
    ChainIsLinked(c, ring, first, pieces, ep);
    PointerWalkCovers(c, Links(ring), first, first + |pieces|, first, fuel);
    BurstWalkCovers(c, Links(ring), first, first + |pieces|, first, fuel);
    assert Covers(c, WalkFrom(c, Links(ring), first, first + |pieces|, fuel), first, first + |pieces|);
  }
}
