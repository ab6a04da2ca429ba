/** The hardware descriptor: its words, how the driver fills them and what the engine reads back. */
module Descriptors {
  import opened Words
  import opened LinearCopy

  datatype Direction = ToDevice | FromDevice

  /** struct xdma_desc. */
  datatype Desc = Desc(control: bv32, bytes: nat, srcLo: nat, srcHi: nat, dstLo: nat, dstHi: nat, nextLo: nat,
                       nextHi: nat)

  const BLANK := Desc(0, 0, 0, 0, 0, 0, 0, 0)

  const MAGIC: bv32 := 0xAD4B_0000
  const STOPPED: bv32 := 0x01
  const COMPLETED: bv32 := 0x02
  const EOP: bv32 := 0x10
  const LAST_FLAGS: bv32 := 0x13

  /** The engine settings that shape a descriptor chain. `descBus` and `resBus` are the bus
      addresses of the descriptor ring and of the result ring of `descMax` entries. */
  datatype Config = Config(dir: Direction, streaming: bool, nonIncr: bool, eopFlush: bool,
                           descMax: nat, descBus: nat, resBus: nat)

  ghost predicate ValidConfig(c: Config) {
    && 0 < c.descMax < 0x8000_0000
    && c.descBus % 32 == 0
    && c.descBus + 32 * c.descMax <= 0x1_0000_0000_0000_0000
    && c.resBus + 32 * c.descMax <= 0x1_0000_0000_0000_0000
  }

  // ---------------------------------------------------------------- the control word

  /** xdma_desc_control_set, for a field inside the low byte. */
  function SetControl(control: bv32, field: bv32): bv32 { (control & 0xFFFF_FF00) | field }

  /** xdma_desc_adjacent. */
  function SetAdjacent(control: bv32, nextAdjacent: nat): bv32
    requires nextAdjacent < 64
  {
    (control & 0x0000_F0FF) | 0xAD4B_0000 | ((nextAdjacent as bv32) << 8)
  }

  /** The fields of the control word as the engine decodes them. */
  function Flags(control: bv32): bv32 { control & 0xFF }
  function Adjacent(control: bv32): nat { ((control >> 8) & 0x3F) as nat }
  predicate HasMagic(control: bv32) { control & 0xFFFF_0000 == MAGIC }
  predicate Stops(d: Desc) { d.control & STOPPED == STOPPED }

  lemma SmallWord(n: nat)
    requires n < 64
    ensures (n as bv32) as nat == n && (n as bv32) < 64
  {
    var b := n as bv6;
    assert b as nat == n;
    WidenedWord(b);
  }

  lemma WidenedWord(b: bv6)
    ensures (b as bv32) as nat == b as nat
  {
  }

  lemma WordNarrow(x: bv32)
    ensures (x as nat) as bv32 == x
  {
  }

  lemma WordEquals(x: bv32, n: nat)
    requires n < 64
    ensures x as nat == n <==> x == n as bv32
  {
    SmallWord(n);
    if x as nat == n {
      WordNarrow(x);
    }
  }

  lemma AdjacentBits(control: bv32, a: bv32)
    requires a < 64
    ensures var c := (control & 0x0000_F0FF) | 0xAD4B_0000 | (a << 8);
            && c & 0xFFFF_0000 == MAGIC
            && c & 0xFF == control & 0xFF
            && ((c >> 8) & 0x3F == a <==> control & 0x3000 & !(a << 8) == 0)
  {
  }

  /** Setting the adjacent count keeps magic and flags. The new count reads back exactly when
      every count bit that the mask lets through from the old word is also set in the new count. */
  lemma AdjacentDecodes(control: bv32, n: nat)
    requires n < 64
    ensures HasMagic(SetAdjacent(control, n))
    ensures Flags(SetAdjacent(control, n)) == Flags(control)
    ensures Adjacent(SetAdjacent(control, n)) == n <==> control & 0x3000 & !((n as bv32) << 8) == 0
  {
    SmallWord(n);
    AdjacentBits(control, n as bv32);
    WordEquals((SetAdjacent(control, n) >> 8) & 0x3F, n);
  }

  // ---------------------------------------------------------------- adjacency

  /** xdma_get_next_adj. */
  function GetNextAdj(remaining: nat, nextLo: nat): (r: nat)
    ensures r < 64
  {
    if remaining <= 1 then 0
    else Min(64 - (nextLo % 4096) / 32 % 64 - 1, remaining - 1)
  }

  function DescAddr(c: Config, index: nat): nat { c.descBus + 32 * index }

  // ---------------------------------------------------------------- the built chain

  /** The control word before adjacency: flags of descriptor i in a chain of n. */
  function ChainFlags(c: Config, n: nat, i: nat): bv32 {
    if i + 1 == n then LAST_FLAGS else if c.eopFlush then COMPLETED else 0
  }

  function NextAddr(c: Config, first: nat, n: nat, i: nat): nat {
    if i + 1 < n then DescAddr(c, first + i + 1) else 0
  }

  /** The source of a C2H stream descriptor is where its result is written back. */
  function SourceAddr(c: Config, index: nat, host: nat, ep: nat): nat {
    if c.dir.ToDevice? then host
    else if c.streaming then c.resBus + 32 * index
    else ep
  }

  function DestAddr(c: Config, host: nat, ep: nat): nat {
    if c.dir.ToDevice? then ep else host
  }

  /** Descriptor i of a chain of n that starts at ring index `first`, for one software descriptor. */
  function Built(c: Config, first: nat, n: nat, i: nat, piece: Extent, ep: nat): Desc
    requires i < n
  {
    var next := NextAddr(c, first, n, i);
    Desc(SetAdjacent(SetControl(MAGIC, ChainFlags(c, n, i)), GetNextAdj(n - i - 1, Lo(next))),
         piece.len,
         Lo(SourceAddr(c, first + i, piece.addr, ep)), Hi(SourceAddr(c, first + i, piece.addr, ep)),
         Lo(DestAddr(c, piece.addr, ep)), Hi(DestAddr(c, piece.addr, ep)),
         Lo(next), Hi(next))
  }

  function Src(d: Desc): nat { Join(d.srcLo, d.srcHi) }
  function Dst(d: Desc): nat { Join(d.dstLo, d.dstHi) }
  function Next(d: Desc): nat { Join(d.nextLo, d.nextHi) }

  /** Every field of a built descriptor decodes to what it was built from: the last one stops, ends a
      packet and reports completion; the others report it exactly with eop_flush. */
  lemma BuiltDecodes(c: Config, first: nat, n: nat, i: nat, piece: Extent, ep: nat)
    requires ValidConfig(c) && i < n && first + n <= c.descMax
    ensures var d := Built(c, first, n, i, piece, ep);
            && HasMagic(d.control)
            && Flags(d.control) == ChainFlags(c, n, i)
            && Adjacent(d.control) == GetNextAdj(n - i - 1, Lo(NextAddr(c, first, n, i)))
            && (Stops(d) <==> i == n - 1)
            && d.control & 0xFFFF_0000 == 0xAD4B_0000
            && (d.control & 0x01 == 0x01 <==> i == n - 1) && (d.control & 0x10 == 0x10 <==> i == n - 1)
            && (d.control & 0x02 == 0x02 <==> i == n - 1 || c.eopFlush)
            && Next(d) == NextAddr(c, first, n, i)
            && Src(d) == U64(SourceAddr(c, first + i, piece.addr, ep))
            && Dst(d) == U64(DestAddr(c, piece.addr, ep))
            && d.bytes == piece.len
  {
    var flags := ChainFlags(c, n, i);
    var adj := GetNextAdj(n - i - 1, Lo(NextAddr(c, first, n, i)));
    FreshControl(flags, adj);
    JoinHalves(NextAddr(c, first, n, i));
    JoinHalves(SourceAddr(c, first + i, piece.addr, ep));
    JoinHalves(DestAddr(c, piece.addr, ep));
  }

  lemma FreshControl(flags: bv32, adj: nat)
    requires adj < 64 && (flags == 0 || flags == COMPLETED || flags == LAST_FLAGS)
    ensures var w := SetAdjacent(SetControl(MAGIC, flags), adj);
            HasMagic(w) && Flags(w) == flags && Adjacent(w) == adj
            && (w & STOPPED == STOPPED <==> flags == LAST_FLAGS)
            && (w & 0x01 == 0x01 <==> flags == LAST_FLAGS) && (w & 0x10 == 0x10 <==> flags == LAST_FLAGS)
            && (w & 0x02 == 0x02 <==> flags != 0)
  {
    var control := SetControl(MAGIC, flags);
    assert control & 0x3000 == 0;
    AdjacentDecodes(control, adj);
    assert control & 0x3000 & !((adj as bv32) << 8) == 0;
    var w := SetAdjacent(control, adj);
    assert Flags(w) == flags;
    FlagBits(w);
  }

  lemma FlagBits(w: bv32)
    ensures w & STOPPED == Flags(w) & STOPPED && w & 0x01 == Flags(w) & 0x01
    ensures w & 0x02 == Flags(w) & 0x02 && w & 0x10 == Flags(w) & 0x10
  {
  }
}
