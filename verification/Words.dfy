/** Fixed-width unsigned arithmetic as the driver's C types perform it. */
module Words {

  // errno values.
  const EIO := 5
  const ENOMEM := 12
  const EFAULT := 14
  const EBUSY := 16
  const EINVAL := 22
  const ETIMEDOUT := 110

  datatype Option<+T> = None | Some(value: T)

  /** A value stored in a 32-bit unsigned variable. */
  function U32(x: int): nat { x % 0x1_0000_0000 }

  /** A value stored in a 64-bit unsigned variable (u64, dma_addr_t, unsigned long). */
  function U64(x: int): nat { x % 0x1_0000_0000_0000_0000 }

  /** PCI_DMA_L and PCI_DMA_H: the two halves of a bus address. */
  function Lo(addr: nat): nat { addr % 0x1_0000_0000 }
  function Hi(addr: nat): nat { (addr / 0x1_0000_0000) % 0x1_0000_0000 }

  /** The address that hardware reads back from two halves. */
  function Join(lo: nat, hi: nat): nat { hi * 0x1_0000_0000 + lo }

  function Min(a: nat, b: nat): nat { if a <= b then a else b }

  lemma JoinHalves(addr: nat)
    ensures Join(Lo(addr), Hi(addr)) == U64(addr)
  {
    var low, high := addr % 0x1_0000_0000, addr / 0x1_0000_0000;
    assert addr == 0x1_0000_0000 * high + low;
    var q, r := high / 0x1_0000_0000, high % 0x1_0000_0000;
    assert high == 0x1_0000_0000 * q + r;
    DivUnique(addr, 0x1_0000_0000_0000_0000, q, r * 0x1_0000_0000 + low);
  }

  lemma U64Add(a: int, b: int)
    ensures U64(U64(a) + b) == U64(a + b)
  {
  }

  lemma U32Add(a: int, b: int)
    ensures U32(U32(a) + b) == U32(a + b)
  {
  }

  lemma U64Injective(a: nat, b: nat)
    requires a < b < a + 0x1_0000_0000_0000_0000
    ensures U64(a) != U64(b)
  {
    var qa, qb := a / 0x1_0000_0000_0000_0000, b / 0x1_0000_0000_0000_0000;
    assert a == qa * 0x1_0000_0000_0000_0000 + U64(a);
    assert b == qb * 0x1_0000_0000_0000_0000 + U64(b);
  }

  lemma DivStep(x: nat, b: nat)
    requires b > 0
    ensures (x + b) / b == x / b + 1
  {
    DivUnique(x + b, b, x / b + 1, x % b);
  }

  lemma DivUnique(x: int, b: nat, q: int, r: nat)
    requires b > 0 && r < b && x == b * q + r
    ensures x / b == q && x % b == r
  {
    var d := x / b - q;
    assert b * (x / b) + x % b == x;
    assert b * d == r - x % b;
    MulSign(b, d);
  }

  lemma MulSign(b: nat, d: int)
    ensures d >= 1 ==> b * d >= b
    ensures d <= -1 ==> b * d <= -1 * b
  {
  }

  /** Sums of a sequence of naturals. */
  function Sum(s: seq<nat>): nat { if s == [] then 0 else s[0] + Sum(s[1..]) }

  lemma SumConcat(a: seq<nat>, b: seq<nat>)
    ensures Sum(a + b) == Sum(a) + Sum(b)
  {
    if a == [] {
      assert a + b == b;
    } else {
      assert (a + b)[1..] == a[1..] + b;
      SumConcat(a[1..], b);
    }
  }

  lemma SumSnoc(a: seq<nat>, x: nat)
    ensures Sum(a + [x]) == Sum(a) + x
  {
    SumConcat(a, [x]);
    assert Sum([x]) == x + Sum([]);
  }

  lemma SumTake(s: seq<nat>, k: nat)
    requires k < |s|
    ensures Sum(s[..k + 1]) == Sum(s[..k]) + s[k]
  {
    assert s[..k + 1] == s[..k] + [s[k]];
    SumSnoc(s[..k], s[k]);
  }

  lemma SumTakeMonotone(s: seq<nat>, i: nat, j: nat)
    requires i <= j <= |s|
    ensures Sum(s[..i]) <= Sum(s[..j])
  {
    assert s[..j] == s[..i] + s[i..j];
    SumConcat(s[..i], s[i..j]);
  }
}
