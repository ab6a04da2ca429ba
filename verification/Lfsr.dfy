/** The 32-bit shift register that the test pattern comes from, and the checks over its values. */
module Lfsr {
  import opened Words

  /** TAP_POSITIONS. */
  const TAPS: seq<bv6> := [32, 31, 29, 28, 27, 26, 25, 24, 1]

  predicate ValidTaps(taps: seq<bv6>) { forall i :: 0 <= i < |taps| ==> 1 <= taps[i] <= 32 }

  function Bit(x: bv32, k: bv6): bv32
    requires k < 32
  {
    (x >> k) & 1
  }

  function Xor(a: bv32, b: bv32): bv32 { a ^ b }

  /** One place to the left, with a new lowest bit. */
  function Push(x: bv32, bit: bv32): bv32 { (x << 1) | bit }

  /** The exclusive or of the tapped bits. */
  function Feedback(x: bv32, taps: seq<bv6>): bv32
    requires ValidTaps(taps)
    decreases |taps|
  {
    if taps == [] then 0 else Xor(Feedback(x, taps[..|taps| - 1]), Bit(x, taps[|taps| - 1] - 1))
  }

  function StepBits(x: bv32, taps: seq<bv6>): bv32
    requires ValidTaps(taps)
  {
    Push(x, Feedback(x, taps))
  }

  /** A value of the register. */
  datatype Word = Word(bits: bv32)

  function NextWith(w: Word, taps: seq<bv6>): Word
    requires ValidTaps(taps)
  {
    Word(StepBits(w.bits, taps))
  }

  /** One step with the default taps. */
  function Next(w: Word): Word { NextWith(w, TAPS) }

  /** lfsr_next. */
  method LfsrNext(lfsr: Word, taps: seq<bv6>) returns (r: Word)
    requires ValidTaps(taps)
    ensures r == NextWith(lfsr, taps)
  {
    hide Bit, Xor, Push;
    var feedback: bv32 := 0;
    for i := 0 to |taps|
      invariant feedback == Feedback(lfsr.bits, taps[..i])
    {
      assert taps[..i + 1][..i] == taps[..i];
      feedback := Xor(feedback, Bit(lfsr.bits, taps[i] - 1));
    }
    assert taps[..|taps|] == taps;
    r := Word(Push(lfsr.bits, feedback));
  }

  // ---------------------------------------------------------------- the default taps

  /** The feedback bit with the default taps. */
  function NewBit(x: bv32): bv32 {
    var high := Xor(Xor(Xor(Xor(0, Bit(x, 31)), Bit(x, 30)), Bit(x, 28)), Bit(x, 27));
    Xor(Xor(Xor(Xor(Xor(high, Bit(x, 26)), Bit(x, 25)), Bit(x, 24)), Bit(x, 23)), Bit(x, 0))
  }

  lemma FeedbackStep(x: bv32, taps: seq<bv6>, k: nat, tap: bv6)
    requires ValidTaps(taps) && k < |taps| && taps[k] == tap
    ensures Feedback(x, taps[..k + 1]) == Xor(Feedback(x, taps[..k]), Bit(x, tap - 1))
  {
    hide Bit, Xor;
    assert taps[..k + 1][..k] == taps[..k];
  }

  lemma DefaultTaps(x: bv32)
    ensures Feedback(x, TAPS) == NewBit(x)
  {
    hide Bit, Xor;
    assert Feedback(x, TAPS[..0]) == 0;
    hide Feedback;
    FeedbackStep(x, TAPS, 0, 32);
    FeedbackStep(x, TAPS, 1, 31);
    FeedbackStep(x, TAPS, 2, 29);
    FeedbackStep(x, TAPS, 3, 28);
    FeedbackStep(x, TAPS, 4, 27);
    FeedbackStep(x, TAPS, 5, 26);
    FeedbackStep(x, TAPS, 6, 25);
    FeedbackStep(x, TAPS, 7, 24);
    FeedbackStep(x, TAPS, 8, 1);
    assert TAPS[..9] == TAPS;
  }

  /** The step written out: one place to the left, and the exclusive or of bits 31, 30, 28, 27, 26, 25,
      24, 23 and 0 comes in. */
  lemma NextBits(w: Word)
    ensures var x := w.bits;
            Next(w).bits
            == (x << 1) | (((x >> 31) ^ (x >> 30) ^ (x >> 28) ^ (x >> 27) ^ (x >> 26) ^ (x >> 25) ^ (x >> 24)
                            ^ (x >> 23) ^ x) & 1)
  {
    DefaultTaps(w.bits);
    assert Next(w).bits == Push(w.bits, NewBit(w.bits)) by {
      hide Push, NewBit;
    }
    ShiftedIn(w.bits);
  }

  lemma ShiftedIn(x: bv32)
    ensures Push(x, NewBit(x))
         == (x << 1) | (((x >> 31) ^ (x >> 30) ^ (x >> 28) ^ (x >> 27) ^ (x >> 26) ^ (x >> 25) ^ (x >> 24)
                         ^ (x >> 23) ^ x) & 1)
  {
  }

  /** The step undone: bit 31 is recovered from the feedback. */
  function PrevBits(y: bv32): bv32 {
    (y >> 1)
    | ((Bit(y, 0) ^ Bit(y, 31) ^ Bit(y, 29) ^ Bit(y, 28) ^ Bit(y, 27) ^ Bit(y, 26) ^ Bit(y, 25) ^ Bit(y, 24)
        ^ Bit(y, 1)) << 31)
  }

  function ParityBits(x: bv32): bv32 { Bit(x, 0) ^ Bit(x, 24) ^ Bit(x, 26) ^ Bit(x, 28) ^ Bit(x, 31) }

  function Prev(w: Word): Word { Word(PrevBits(w.bits)) }

  /** The conserved bit. */
  predicate Parity(w: Word) { ParityBits(w.bits) == 1 }

  lemma ShiftedBack(x: bv32)
    ensures PrevBits(Push(x, NewBit(x))) == x
    ensures ParityBits(Push(x, NewBit(x))) == ParityBits(x)
  {
  }

  lemma ShiftedForward(y: bv32)
    ensures Push(PrevBits(y), NewBit(PrevBits(y))) == y
  {
  }

  /** The step is a bijection on 32-bit words and keeps the parity bit. */
  lemma NextBijective(w: Word)
    ensures Prev(Next(w)) == w && Next(Prev(w)) == w
    ensures Parity(Next(w)) == Parity(w)
  {
    hide PrevBits, ParityBits, NewBit, Bit, Feedback, Push, Xor;
    DefaultTaps(w.bits);
    DefaultTaps(PrevBits(w.bits));
    ShiftedBack(w.bits);
    ShiftedForward(w.bits);
  }

  // ---------------------------------------------------------------- linearity, for any taps

  lemma BitXor(a: bv32, b: bv32, k: bv6)
    requires k < 32
    ensures Bit(Xor(a, b), k) == Xor(Bit(a, k), Bit(b, k))
  {
    assert ((a ^ b) >> k) & 1 == ((a >> k) & 1) ^ ((b >> k) & 1);
  }

  lemma BitSmall(a: bv32, k: bv6)
    requires k < 32
    ensures Bit(a, k) <= 1
  {
  }

  /** Exclusive or of one-bit words, as a truth value. */
  lemma XorTruth(p: bv32, q: bv32)
    requires p <= 1 && q <= 1
    ensures Xor(p, q) <= 1 && (Xor(p, q) == 1 <==> (p == 1) != (q == 1))
  {
  }

  lemma OneBitEqual(p: bv32, q: bv32)
    requires p <= 1 && q <= 1 && (p == 1 <==> q == 1)
    ensures p == q
  {
  }

  lemma Regroup(p: bv32, q: bv32, r: bv32, s: bv32)
    requires p <= 1 && q <= 1 && r <= 1 && s <= 1
    ensures Xor(Xor(p, q), Xor(r, s)) == Xor(Xor(p, r), Xor(q, s))
  {
    hide Xor;
    XorTruth(p, q);
    XorTruth(r, s);
    XorTruth(p, r);
    XorTruth(q, s);
    XorTruth(Xor(p, q), Xor(r, s));
    XorTruth(Xor(p, r), Xor(q, s));
    OneBitEqual(Xor(Xor(p, q), Xor(r, s)), Xor(Xor(p, r), Xor(q, s)));
  }

  lemma {:induction false} FeedbackXor(a: bv32, b: bv32, taps: seq<bv6>)
    requires ValidTaps(taps)
    ensures Feedback(Xor(a, b), taps) == Xor(Feedback(a, taps), Feedback(b, taps))
    ensures Feedback(a, taps) <= 1 && Feedback(b, taps) <= 1
    decreases |taps|
  {
    if taps == [] {
      assert Xor(0, 0) == 0;
    } else {
      hide Bit, Xor;
      var n := |taps| - 1;
      var k := taps[n] - 1;
      var fa, fb := Feedback(a, taps[..n]), Feedback(b, taps[..n]);
      FeedbackXor(a, b, taps[..n]);
      BitXor(a, b, k);
      BitSmall(a, k);
      BitSmall(b, k);
      Regroup(fa, fb, Bit(a, k), Bit(b, k));
      XorTruth(fa, Bit(a, k));
      XorTruth(fb, Bit(b, k));
    }
  }

  lemma PushXor(a: bv32, b: bv32, f: bv32, g: bv32)
    requires f <= 1 && g <= 1
    ensures Push(Xor(a, b), Xor(f, g)) == Xor(Push(a, f), Push(b, g))
  {
  }

  function XorWords(a: Word, b: Word): Word { Word(Xor(a.bits, b.bits)) }

  /** The step is linear over exclusive or, for any taps. */
  lemma NextXor(a: Word, b: Word, taps: seq<bv6>)
    requires ValidTaps(taps)
    ensures NextWith(XorWords(a, b), taps) == XorWords(NextWith(a, taps), NextWith(b, taps))
  {
    hide Feedback, Push, Xor;
    FeedbackXor(a.bits, b.bits, taps);
    PushXor(a.bits, b.bits, Feedback(a.bits, taps), Feedback(b.bits, taps));
  }

  /** The two patterns that never change. */
  lemma FixedPoints(w: Word)
    ensures Next(w) == w <==> w.bits == 0 || w.bits == 0xFFFF_FFFF
  {
    hide Feedback;
    DefaultTaps(w.bits);
  }

  // ---------------------------------------------------------------- orbits

  function Iter(n: nat, x: Word): Word { if n == 0 then x else Next(Iter(n - 1, x)) }

  lemma {:induction false} IterAdd(m: nat, n: nat, x: Word)
    ensures Iter(m + n, x) == Iter(m, Iter(n, x))
    decreases m
  {
    hide Next;
    if m > 0 {
      IterAdd(m - 1, n, x);
    }
  }

  lemma {:induction false} IterInjective(n: nat, a: Word, b: Word)
    requires Iter(n, a) == Iter(n, b)
    ensures a == b
    decreases n
  {
    hide Next;
    if n > 0 {
      NextBijective(Iter(n - 1, a));
      NextBijective(Iter(n - 1, b));
      IterInjective(n - 1, a, b);
    }
  }

  lemma {:induction false} IterKeepsParity(n: nat, x: Word)
    ensures Parity(Iter(n, x)) == Parity(x)
    decreases n
  {
    hide Next, Parity;
    if n > 0 {
      IterKeepsParity(n - 1, x);
      NextBijective(Iter(n - 1, x));
    }
  }

  lemma {:induction false} IterXor(n: nat, a: Word, b: Word)
    ensures Iter(n, XorWords(a, b)) == XorWords(Iter(n, a), Iter(n, b))
    decreases n
  {
    hide NextWith, XorWords;
    if n > 0 {
      IterXor(n - 1, a, b);
      NextXor(Iter(n - 1, a), Iter(n - 1, b), TAPS);
    }
  }

  // ---------------------------------------------------------------- verify_lfsr

  /** The transitions before index n that are not a step of the register. */
  ghost function BreaksBefore(v: seq<Word>, taps: seq<bv6>, n: nat): set<nat>
    requires ValidTaps(taps)
  {
    set i: nat | i < n && i + 1 < |v| && v[i + 1] != NextWith(v[i], taps)
  }

  ghost function Breaks(v: seq<Word>, taps: seq<bv6>): set<nat>
    requires ValidTaps(taps)
  {
    BreaksBefore(v, taps, |v|)
  }

  lemma BreaksNext(v: seq<Word>, taps: seq<bv6>, n: nat)
    requires ValidTaps(taps) && n + 1 < |v|
    ensures BreaksBefore(v, taps, n + 1)
            == BreaksBefore(v, taps, n) + if v[n + 1] != NextWith(v[n], taps) then {n} else {}
    ensures n !in BreaksBefore(v, taps, n)
  {
    hide NextWith;
  }

  /** verify_lfsr: the number of broken transitions. */
  method VerifyLfsr(values: seq<Word>, taps: seq<bv6>) returns (errors: nat)
    requires ValidTaps(taps)
    ensures errors == |Breaks(values, taps)|
  {
    hide NextWith, BreaksBefore;
    errors := 0;
    NoBreaks(values, taps);
    if |values| < 2 {
      return;
    }
    for i := 0 to |values| - 1
      invariant errors == |BreaksBefore(values, taps, i)|
    {
      BreaksNext(values, taps, i);
      var expected := LfsrNext(values[i], taps);
      if values[i + 1] != expected {
        errors := errors + 1;
      }
    }
  }

  lemma NoBreaks(v: seq<Word>, taps: seq<bv6>)
    requires ValidTaps(taps)
    ensures BreaksBefore(v, taps, 0) == {}
    ensures |v| < 2 ==> Breaks(v, taps) == {}
    ensures |v| >= 2 ==> Breaks(v, taps) == BreaksBefore(v, taps, |v| - 1)
  {
    hide NextWith;
  }

  /** verify_lfsr finds no error exactly when the values are one orbit of the register. */
  lemma NoErrorsIsOrbit(v: seq<Word>)
    requires v != []
    ensures Breaks(v, TAPS) == {} <==> forall i :: 0 <= i < |v| ==> v[i] == Iter(i, v[0])
  {
    hide NextWith;
    if Breaks(v, TAPS) == {} {
      forall i | 0 <= i < |v|
        ensures v[i] == Iter(i, v[0])
      {
        OrbitPrefix(v, i);
      }
    } else {
      var i :| i in Breaks(v, TAPS);
      assert Iter(i + 1, v[0]) == Next(Iter(i, v[0]));
    }
  }

  lemma {:induction false} OrbitPrefix(v: seq<Word>, i: nat)
    requires Breaks(v, TAPS) == {} && i < |v|
    ensures v[i] == Iter(i, v[0])
    decreases i
  {
    hide NextWith;
    if i > 0 {
      OrbitPrefix(v, i - 1);
      assert i - 1 !in Breaks(v, TAPS);
    }
  }

  // ---------------------------------------------------------------- find_lfsr_steps

  /** The least number of steps, up to a limit, that leads from one value to another. */
  ghost predicate LeastSteps(current: Word, received: Word, maxSteps: nat, r: Option<nat>) {
    && (r.Some? ==>
          && 1 <= r.value <= maxSteps && Iter(r.value, current) == received
          && forall j: nat :: 1 <= j < r.value ==> Iter(j, current) != received)
    && (r.None? ==> forall j: nat :: 1 <= j <= maxSteps ==> Iter(j, current) != received)
  }

  method FindLfsrSteps(current: Word, received: Word, maxSteps: nat) returns (r: Option<nat>)
    ensures LeastSteps(current, received, maxSteps, r)
  {
    hide NextWith;
    var value := current;
    for steps := 1 to maxSteps + 1
      invariant value == Iter(steps - 1, current)
      invariant forall j: nat :: 1 <= j < steps ==> Iter(j, current) != received
    {
      value := LfsrNext(value, TAPS);
      if value == received {
        return Some(steps);
      }
    }
    return None;
  }

  /** Values of different parity are on different orbits: no limit finds a step count. */
  lemma ParityNeverFound(current: Word, received: Word, maxSteps: nat, r: Option<nat>)
    requires Parity(current) != Parity(received) && LeastSteps(current, received, maxSteps, r)
    ensures r == None
  {
    hide Parity, Next;
    if r.Some? {
      IterKeepsParity(r.value, current);
    }
  }

  /** After m lost samples, with m + 1 within the limit, a count is found, at most m + 1; it is
      m + 1 exactly when the value does not come back to itself in m steps or fewer. */
  lemma StepsAfterLoss(x: Word, m: nat, maxSteps: nat, r: Option<nat>)
    requires m < maxSteps && LeastSteps(x, Iter(m + 1, x), maxSteps, r)
    ensures r.Some? && r.value <= m + 1
    ensures r.value == m + 1 <==> forall d: nat :: 1 <= d <= m ==> Iter(d, x) != x
  {
    hide Next;
    var k := r.value;
    if k < m + 1 {
      IterAdd(k, m + 1 - k, x);
      IterInjective(k, x, Iter(m + 1 - k, x));
      assert Iter(m + 1 - k, x) == x;
    } else if d: nat :| 1 <= d <= m && Iter(d, x) == x {
      IterAdd(m + 1 - d, d, x);
    }
  }
}
