/** The virtual cable: a bit vector of any length goes through a 32-bit JTAG shifter in chunks.
    A buffer is written as its bits, eight to a byte, least significant first. */
module CdevXvc {
  import opened Words

  const COMPLETION_LOOP_MAX := 100

  /** One clock of the scan chain: TMS and TDI in, the new state and TDO out. */
  type Clock<!S> = (S, bool, bool) -> (S, bool)

  /** A bit-serial shift of the whole vectors. */
  function Shift<S>(clock: Clock<S>, s: S, tms: seq<bool>, tdi: seq<bool>): (r: (S, seq<bool>))
    requires |tms| == |tdi|
    ensures |r.1| == |tms|
    decreases |tms|
  {
    if tms == [] then (s, [])
    else
      var n := |tms| - 1;
      var before := Shift(clock, s, tms[..n], tdi[..n]);
      var last := clock(before.0, tms[n], tdi[n]);
      (last.0, before.1 + [last.1])
  }

  /** One chain state per clock: clock i takes bit i of TMS and of TDI and puts out bit i of TDO. */
  ghost predicate Clocked<S>(clock: Clock<S>, states: seq<S>, tms: seq<bool>, tdi: seq<bool>, tdo: seq<bool>) {
    && |tms| == |tdi| == |tdo| && |states| == |tms| + 1
    && forall i :: 0 <= i < |tms| ==> clock(states[i], tms[i], tdi[i]) == (states[i + 1], tdo[i])
  }

  lemma {:induction false} ShiftIsClocked<S>(clock: Clock<S>, s: S, tms: seq<bool>, tdi: seq<bool>)
    returns (states: seq<S>)
    requires |tms| == |tdi|
    ensures Clocked(clock, states, tms, tdi, Shift(clock, s, tms, tdi).1)
    ensures states[0] == s && states[|tms|] == Shift(clock, s, tms, tdi).0
    decreases |tms|
  {
    if tms == [] {
      states := [s];
    } else {
      var n := |tms| - 1;
      states := ShiftIsClocked(clock, s, tms[..n], tdi[..n]);
      states := states + [Shift(clock, s, tms, tdi).0];
    }
  }

  lemma {:induction false} ShiftConcat<S>(clock: Clock<S>, s: S, m1: seq<bool>, m2: seq<bool>, d1: seq<bool>,
                                          d2: seq<bool>)
    requires |m1| == |d1| && |m2| == |d2|
    ensures var a := Shift(clock, s, m1, d1);
            var b := Shift(clock, a.0, m2, d2);
            Shift(clock, s, m1 + m2, d1 + d2) == (b.0, a.1 + b.1)
    decreases |m2|
  {
    var a := Shift(clock, s, m1, d1);
    if m2 == [] {
      assert m1 + m2 == m1 && d1 + d2 == d1 && a.1 + [] == a.1;
    } else {
      var n := |m2| - 1;
      ShiftConcat(clock, s, m1, m2[..n], d1, d2[..n]);
      assert (m1 + m2)[..|m1| + n] == m1 + m2[..n] && (d1 + d2)[..|d1| + n] == d1 + d2[..n];
      assert a.1 + (Shift(clock, a.0, m2[..n], d2[..n]).1 + [Shift(clock, a.0, m2, d2).1[n]])
          == (a.1 + Shift(clock, a.0, m2[..n], d2[..n]).1) + [Shift(clock, a.0, m2, d2).1[n]];
    }
  }

  /** The number of chunks of a vector. */
  function Chunks(total: nat): nat { (total + 31) / 32 }

  function ChunkLen(total: nat, j: nat): nat
    requires 32 * j <= total
  {
    Min(32, total - 32 * j)
  }

  /** The shifter's registers. `latency(k)` is the number of polls for which shift k stays busy;
      `rest(k)` is what TDO holds above the shifted bits. */
  class XvcBar<S(!new)> {
    const clock: Clock<S>
    const latency: nat -> nat
    const rest: nat -> bool
    var chain: S
    var length: nat
    var tms: seq<bool>
    var tdi: seq<bool>
    var tdo: seq<bool>
    var busy: nat
    /** LENGTH at every shift made so far. */
    var lengths: seq<nat>

    constructor (clock: Clock<S>, latency: nat -> nat, rest: nat -> bool, s: S)
      ensures this.clock == clock && this.latency == latency && chain == s && lengths == []
      ensures |tms| == |tdi| == 32
    {
      this.clock, this.latency, this.rest, this.chain := clock, latency, rest, s;
      length, busy, lengths := 0, 0, [];
      tms, tdi, tdo := seq(32, _ => false), seq(32, _ => false), seq(32, _ => false);
    }

    /** A write of 1 to CTRL. */
    method Enable()
      requires length <= 32 && |tms| == |tdi| == 32
      modifies this
      ensures length == old(length) && tms == old(tms) && tdi == old(tdi)
      ensures chain == Shift(clock, old(chain), tms[..length], tdi[..length]).0
      ensures |tdo| == 32 && tdo[..length] == Shift(clock, old(chain), tms[..length], tdi[..length]).1
      ensures lengths == old(lengths) + [length] && busy == latency(|old(lengths)|)
    {
      var r := Shift(clock, chain, tms[..length], tdi[..length]);
      chain := r.0;
      tdo := r.1 + seq(32 - length, i requires 0 <= i => rest(i));
      busy := latency(|lengths|);
      lengths := lengths + [length];
    }

    /** A read of CTRL: is the shift still running? */
    method Poll() returns (running: bool)
      modifies `busy
      ensures running == (old(busy) > 0)
      ensures busy == if old(busy) > 0 then old(busy) - 1 else 0
    {
      running := busy > 0;
      if busy > 0 {
        busy := busy - 1;
      }
    }

    /** xvc_shift_bits. */
    method ShiftBits(tmsBits: seq<bool>, tdiBits: seq<bool>) returns (rv: int, tdoBits: seq<bool>)
      requires |tmsBits| == |tdiBits| == 32 && length <= 32
      modifies this
      ensures length == old(length) && lengths == old(lengths) + [length] && |tdoBits| == 32
      ensures rv == if latency(|old(lengths)|) < COMPLETION_LOOP_MAX then 0 else -ETIMEDOUT
      ensures var r := Shift(clock, old(chain), tmsBits[..length], tdiBits[..length]);
              chain == r.0 && (rv == 0 ==> tdoBits[..length] == r.1)
    {
      tms := tmsBits;
      tdi := tdiBits;
      Enable();
      var count: nat := COMPLETION_LOOP_MAX;
      while count > 0
        invariant count <= COMPLETION_LOOP_MAX && busy + (COMPLETION_LOOP_MAX - count) == latency(|old(lengths)|)
        invariant length == old(length) && lengths == old(lengths) + [length] && |tdo| == 32
        invariant chain == Shift(clock, old(chain), tmsBits[..length], tdiBits[..length]).0
        invariant tdo[..length] == Shift(clock, old(chain), tmsBits[..length], tdiBits[..length]).1
        decreases count
      {
        var running := Poll();
        if !running {
          break;
        }
        count := count - 1;
      }
      tdoBits := seq(32, _ => false);
      if count == 0 {
        return -ETIMEDOUT, tdoBits;
      }
      tdoBits := tdo;
      rv := 0;
    }
  }

  /** LENGTH at each of the first n shifts of a vector. */
  function LengthsOf(total: nat, n: nat): (r: seq<nat>)
    requires n <= Chunks(total)
    ensures |r| == n
  {
    seq(n, j requires 0 <= j < n => ChunkLen(total, j))
  }

  lemma LengthsSnoc(total: nat, j: nat)
    requires 32 * j < total
    ensures LengthsOf(total, j + 1) == LengthsOf(total, j) + [Min(32, total - 32 * j)]
  {
  }

  /** The bytes that hold n bits. */
  function Bytes(n: nat): nat { (n + 7) / 8 }

  /** memcpy of whole bytes into a zeroed 32-bit word. */
  function Word(buf: seq<bool>, at: nat, bytes: nat): (r: seq<bool>)
    requires bytes <= 4 && at + 8 * bytes <= |buf|
    ensures |r| == 32
  {
    buf[at..at + 8 * bytes] + seq(32 - 8 * bytes, _ => false)
  }

  method Memcpy(dst: array<bool>, at: nat, src: seq<bool>, n: nat)
    requires n <= |src| && at + n <= dst.Length
    modifies dst
    ensures dst[..] == old(dst[..at]) + src[..n] + old(dst[at + n..])
  {
    forall i | 0 <= i < n {
      dst[at + i] := src[i];
    }
  }

  lemma Spliced(a: seq<bool>, b: seq<bool>, c: seq<bool>, n: nat)
    requires n <= |b|
    ensures (a + b + c)[..|a|] == a && (a + b + c)[|a|..|a| + n] == b[..n]
  {
  }

  /** The chain and the output after the first `done` bits. */
  ghost predicate Shifted<S(!new)>(clock: Clock<S>, s: S, tms: seq<bool>, tdi: seq<bool>, done: nat, chain: S,
                                   out: seq<bool>) {
    && done <= |tms| == |tdi| && done <= |out|
    && (chain, out[..done]) == Shift(clock, s, tms[..done], tdi[..done])
  }

  /** One more chunk of n bits. */
  lemma ShiftedMore<S(!new)>(clock: Clock<S>, s: S, tms: seq<bool>, tdi: seq<bool>, done: nat, n: nat,
                             chain: S, out: seq<bool>, chain': S, out': seq<bool>)
    requires Shifted(clock, s, tms, tdi, done, chain, out)
    requires done + n <= |tms| && done + n <= |out'| && out'[..done] == out[..done]
    requires (chain', out'[done..done + n]) == Shift(clock, chain, tms[done..done + n], tdi[done..done + n])
    ensures Shifted(clock, s, tms, tdi, done + n, chain', out')
  {
    ShiftConcat(clock, s, tms[..done], tms[done..done + n], tdi[..done], tdi[done..done + n]);
    assert tms[..done + n] == tms[..done] + tms[done..done + n] && tdi[..done + n] == tdi[..done] + tdi[done..done + n];
    assert out'[..done + n] == out'[..done] + out'[done..done + n];
  }

  /** The size of a buffer as xvc_ioctl computes it, in 32 bits. */
  function TotalBytes(total: nat): nat { U32(total + 7) / 8 }

  /** It is the number of bytes of the vector exactly up to 2^32 - 8 bits; above, it is 0. */
  lemma TotalBytesExactly(total: nat)
    requires total < 0x1_0000_0000
    ensures TotalBytes(total) == Bytes(total) <==> total <= 0xFFFF_FFF8
    ensures total > 0xFFFF_FFF8 ==> TotalBytes(total) == 0
  {
  }

  /** The bits counter: 32-bit, in steps of 32. It reaches the total exactly when the total is at
      most 2^32 - 32. The allocation of three buffers of that size comes before the loop. */
  lemma CounterReaches(total: nat)
    requires total < 0x1_0000_0000
    ensures (exists i: nat :: U32(32 * i) >= total) <==> total <= 0xFFFF_FFE0
  {
    if total <= 0xFFFF_FFE0 {
      assert U32(32 * 0x7FF_FFFF) == 0xFFFF_FFE0;
    }
    forall i: nat
      ensures U32(32 * i) <= 0xFFFF_FFE0
    {
      assert U32(32 * i) == 32 * (i % 0x800_0000) by {
        DivUnique(32 * i, 0x1_0000_0000, i / 0x800_0000, 32 * (i % 0x800_0000));
      }
    }
  }

  ghost predicate AllComplete(latency: nat -> nat, first: nat, n: nat) {
    forall k: nat :: first <= k < first + n ==> latency(k) < COMPLETION_LOOP_MAX
  }

  /** The shifted part of a word is the next n bits of the vector. */
  lemma WordBits(buf: seq<bool>, at: nat, bytes: nat, n: nat)
    requires bytes <= 4 && at + 8 * bytes <= |buf| && n <= 8 * bytes
    ensures Word(buf, at, bytes)[..n] == buf[at..at + n]
  {
  }

  lemma WholeBytes(total: nat, bits: nat, n: nat)
    requires bits % 32 == 0 && bits < total && n == Min(32, total - bits)
    ensures n <= 8 * Bytes(n) <= 32 && bits + 8 * Bytes(n) <= 8 * Bytes(total)
    ensures total - bits >= 32 ==> Bytes(n) == 4
  {
  }

  /** One turn of the chunk loop: n bits, whose bytes are copied in and out whole. */
  method Chunk<S(!new)>(bar: XvcBar<S>, total: nat, tms: seq<bool>, tdi: seq<bool>, tdo: array<bool>, bits: nat,
                        ghost start: S)
    returns (rv: int)
    requires |tms| == |tdi| == tdo.Length == 8 * Bytes(total) && bits % 32 == 0 && bits < total
    requires total - bits >= 32 ==> bar.length == 32
    requires Shifted(bar.clock, start, tms, tdi, bits, bar.chain, tdo[..])
    modifies bar, tdo
    ensures rv == if bar.latency(|old(bar.lengths)|) < COMPLETION_LOOP_MAX then 0 else -ETIMEDOUT
    ensures rv == 0 ==>
              var n := Min(32, total - bits);
              && Shifted(bar.clock, start, tms, tdi, bits + n, bar.chain, tdo[..])
              && bar.lengths == old(bar.lengths) + [n] && bar.length == n
  {
    hide Word, Shift, Shifted, Bytes;
    var bitsLeft, shiftBytes := total - bits, 4;
    if bitsLeft < 32 {
      bar.length := bitsLeft;
      shiftBytes := Bytes(bitsLeft);
    }
    ghost var n, chain, out := Min(32, total - bits), bar.chain, tdo[..];
    WholeBytes(total, bits, n);
    var tdoStore;
    rv, tdoStore := bar.ShiftBits(Word(tms, bits, shiftBytes), Word(tdi, bits, shiftBytes));
    if rv == 0 {
      Memcpy(tdo, bits, tdoStore, 8 * shiftBytes);
      ChunkDone(bar.clock, start, tms, tdi, bits, n, shiftBytes, chain, out, bar.chain, tdoStore, tdo[..]);
    }
  }

  /** The bits of a chunk reach the shifter and come back in place. */
  lemma ChunkDone<S(!new)>(clock: Clock<S>, s: S, tms: seq<bool>, tdi: seq<bool>, bits: nat, n: nat, bytes: nat,
                           chain: S, out: seq<bool>, chain': S, store: seq<bool>, out': seq<bool>)
    requires Shifted(clock, s, tms, tdi, bits, chain, out) && |out| == |tms|
    requires n <= 8 * bytes <= 32 && bits + 8 * bytes <= |tms| && |store| == 32
    requires (chain', store[..n]) == Shift(clock, chain, Word(tms, bits, bytes)[..n], Word(tdi, bits, bytes)[..n])
    requires out' == out[..bits] + store[..8 * bytes] + out[bits + 8 * bytes..]
    ensures Shifted(clock, s, tms, tdi, bits + n, chain', out')
  {
    WordBits(tms, bits, bytes, n);
    WordBits(tdi, bits, bytes, n);
    hide Word, Shift;
    Spliced(out[..bits], store[..8 * bytes], out[bits + 8 * bytes..], n);
    assert store[..8 * bytes][..n] == store[..n];
    ShiftedMore(clock, s, tms, tdi, bits, n, chain, out, chain', out');
  }

  lemma NothingShifted<S(!new)>(clock: Clock<S>, s: S, tms: seq<bool>, tdi: seq<bool>, out: seq<bool>, total: nat)
    requires |tms| == |tdi|
    ensures Shifted(clock, s, tms, tdi, 0, s, out) && LengthsOf(total, 0) == []
  {
  }

  /** The chunk loop of xvc_ioctl: for every vector whose shifts all complete, the first `total`
      bits of TDO and the final chain state are those of one bit-serial shift, and LENGTH at each
      shift is the number of bits still to go, at most 32. */
  method ShiftVector<S(!new)>(bar: XvcBar<S>, total: nat, tms: seq<bool>, tdi: seq<bool>, tdo: array<bool>)
    returns (rv: int)
    requires total <= 0xFFFF_FFE0 && |tms| == |tdi| == tdo.Length == 8 * Bytes(total)
    modifies bar, tdo
    ensures rv == if AllComplete(bar.latency, |old(bar.lengths)|, Chunks(total)) then 0 else -ETIMEDOUT
    ensures rv == 0 ==>
              && Shifted(bar.clock, old(bar.chain), tms, tdi, total, bar.chain, tdo[..])
              && bar.lengths == old(bar.lengths) + LengthsOf(total, Chunks(total))
  {
    hide Shifted, LengthsOf, Shift, Bytes;
    rv := 0;
    ghost var start, k := bar.chain, |bar.lengths|;
    NothingShifted(bar.clock, start, tms, tdi, tdo[..], total);
    if total >= 32 {
      bar.length := 32;
    }
    var bits: nat := 0;
    ghost var j: nat := 0;
    while bits < total
      invariant bits == 32 * j && j <= Chunks(total) && rv == 0
      invariant total - bits >= 32 ==> bar.length == 32
      invariant Shifted(bar.clock, start, tms, tdi, Min(bits, total), bar.chain, tdo[..])
      invariant bar.lengths == old(bar.lengths) + LengthsOf(total, j)
      invariant AllComplete(bar.latency, k, j)
      decreases total - bits
    {
      rv := Chunk(bar, total, tms, tdi, tdo, bits, start);
      if rv < 0 {
        break;
      }
      LengthsSnoc(total, j);
      assert (old(bar.lengths) + LengthsOf(total, j)) + [Min(32, total - bits)]
             == old(bar.lengths) + LengthsOf(total, j + 1);
      bits := bits + 32;
      j := j + 1;
    }
  }

  /** xvc_ioctl after the argument copy: unknown opcodes and a failed allocation are refused, a
      shift that does not complete ends the request, and opcode 2 returns TDI in place of TDO. */
  method XvcIoctl<S(!new)>(bar: XvcBar<S>, opcode: nat, total: nat, granted: bool, tms: seq<bool>, tdi: seq<bool>)
    returns (rv: int, user: seq<bool>)
    requires total < 0x1_0000_0000 && |tms| == |tdi| == 8 * TotalBytes(total)
    requires granted ==> total <= 0xFFFF_FFE0
    modifies bar
    ensures (opcode == 1 || opcode == 2) && !granted ==>
              rv == -ENOMEM && user == [] && bar.lengths == old(bar.lengths) && bar.chain == old(bar.chain)
    ensures opcode != 1 && opcode != 2 ==>
              rv == -EINVAL && user == [] && bar.lengths == old(bar.lengths) && bar.chain == old(bar.chain)
    ensures (opcode == 1 || opcode == 2) && granted ==>
              rv == if AllComplete(bar.latency, |old(bar.lengths)|, Chunks(total)) then 0 else -ETIMEDOUT
    ensures rv < 0 ==> user == []
    ensures rv == 0 ==>
              && |user| == |tdi| && total <= |tdi|
              && bar.chain == Shift(bar.clock, old(bar.chain), tms[..total], tdi[..total]).0
              && (opcode == 1 ==> user[..total] == Shift(bar.clock, old(bar.chain), tms[..total], tdi[..total]).1)
              && (opcode == 2 ==> user == tdi)
              && bar.lengths == old(bar.lengths) + LengthsOf(total, Chunks(total))
  {
    user := [];
    if opcode != 1 && opcode != 2 {
      return -EINVAL, user;
    }
    if !granted {
      return -ENOMEM, user;
    }
    TotalBytesExactly(total);
    var tdo := new bool[8 * TotalBytes(total)](_ => false);
    rv := ShiftVector(bar, total, tms, tdi, tdo);
    if rv < 0 {
      return;
    }
    user := if opcode == 2 then tdi else tdo[..];
  }
}
