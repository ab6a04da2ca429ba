/** Allocation of transfers from the fixed descriptor ring. */
module Ring {
  import opened Words
  import opened Request
  import opened Chains

  // ---------------------------------------------------------------- carving one request

  /** The transfers that transfer_init carves for n descriptors from ring index d, when no
      other submission comes between. */
  function Carve(n: nat, d: nat, r: nat): seq<Cut>
    requires d < r
    decreases n
  {
    if n == 0 then []
    else
      var k := Min(n, r - d);
      [Cut(d, k)] + Carve(n - k, (d + k) % r, r)
  }

  lemma {:induction false} CarveBounds(n: nat, d: nat, r: nat)
    requires d < r
    ensures forall i :: 0 <= i < |Carve(n, d, r)| ==> 1 <= Carve(n, d, r)[i].count <= r
    decreases n
  {
    if n > 0 {
      CarveBounds(n - Min(n, r - d), (d + Min(n, r - d)) % r, r);
    }
  }

  lemma WrapStep(d: nat, k: nat, r: nat)
    requires d < r && d + k <= r
    ensures (d + k) % r == if d + k == r then 0 else d + k
  {
    if d + k == r {
      DivUnique(d + k, r, 1, 0);
    } else {
      DivUnique(d + k, r, 0, d + k);
    }
  }

  /** Consecutive transfers continue where the previous one ended, modulo the ring size. */
  ghost predicate Gapless(r: nat, cuts: seq<Cut>, next: nat) {
    && next < r
    && (forall i :: 0 <= i < |cuts| ==> 1 <= cuts[i].count && cuts[i].first + cuts[i].count <= r)
    && (forall i :: 0 <= i < |cuts| - 1 ==> cuts[i + 1].first == (cuts[i].first + cuts[i].count) % r)
    && (cuts != [] ==> next == (cuts[|cuts| - 1].first + cuts[|cuts| - 1].count) % r)
  }

  function After(d: nat, n: nat, r: nat): nat
    requires r > 0
  {
    (d + n) % r
  }

  /** The number of transfers that carving takes. */
  function CarveCount(n: nat, d: nat, r: nat): nat
    requires d < r
  {
    if n == 0 then 0 else 1 + CeilDiv(if n <= r - d then 0 else n - (r - d), r)
  }

  /** Carving covers the request, leaves no gap, never wraps inside a transfer, and takes
      1 + ceil((n - (r - d)) / r) transfers when the first one cannot hold all. */
  lemma {:induction false} CarveFacts(n: nat, d: nat, r: nat)
    requires d < r
    ensures Sum(Counts(Carve(n, d, r))) == n
    ensures Gapless(r, Carve(n, d, r), After(d, n, r))
    ensures n > 0 ==> Carve(n, d, r) != [] && Carve(n, d, r)[0].first == d
    ensures |Carve(n, d, r)| == CarveCount(n, d, r)
    decreases n
  {
    if n > 0 {
      var k := Min(n, r - d);
      var d' := (d + k) % r;
      WrapStep(d, k, r);
      assert d' == After(d, k, r);
      hide Gapless, Sum, Counts, CarveCount, After;
      CarveFacts(n - k, d', r);
      CarveCountStep(n, d, r);
      AfterSplit(d, k, n - k, r);
      var rest := Carve(n - k, d', r);
      CarveCons(Cut(d, k), rest, n - k);
      GaplessCons(r, Cut(d, k), rest, After(d, n, r));
    } else {
      WrapStep(d, 0, r);
    }
  }

  lemma CarveCons(head: Cut, rest: seq<Cut>, n: nat)
    requires Sum(Counts(rest)) == n
    ensures Sum(Counts([head] + rest)) == head.count + n
  {
    assert Counts([head] + rest)[1..] == Counts(rest);
  }

  lemma CarveCountStep(n: nat, d: nat, r: nat)
    requires d < r && n > 0
    ensures var k := Min(n, r - d);
            CarveCount(n, d, r) == 1 + CarveCount(n - k, if d + k == r then 0 else d + k, r)
  {
    DivUnique(r - 1, r, 0, r - 1);
    if n > r - d {
      CountStep(n - (r - d), r);
    }
  }

  lemma CountStep(m: nat, r: nat)
    requires m > 0 && r > 0
    ensures CeilDiv(m, r) == 1 + CeilDiv(if m <= r then 0 else m - r, r)
  {
    if m <= r {
      DivUnique(m + r - 1, r, 1, m - 1);
      DivUnique(r - 1, r, 0, r - 1);
    } else {
      DivStep(m - r + r - 1, r);
    }
  }

  lemma AfterSplit(d: nat, k: nat, n: nat, r: nat)
    requires r > 0
    ensures After(After(d, k, r), n, r) == After(d, k + n, r)
  {
    var q := (d + k) / r;
    var p := (After(d, k, r) + n) / r;
    assert d + k == r * q + After(d, k, r);
    assert After(d, k, r) + n == r * p + After(After(d, k, r), n, r);
    assert r * (q + p) == r * q + r * p;
    DivUnique(d + k + n, r, q + p, After(After(d, k, r), n, r));
  }

  lemma GaplessCons(r: nat, head: Cut, rest: seq<Cut>, next: nat)
    requires r > 0 && 1 <= head.count && head.first + head.count <= r
    requires Gapless(r, rest, next)
    requires if rest == [] then next == (head.first + head.count) % r
             else rest[0].first == (head.first + head.count) % r
    ensures Gapless(r, [head] + rest, next)
  {
  }

  /** The two transfer records of a request suffice exactly when n <= 2r - d. */
  lemma TwoTransfersSuffice(n: nat, d: nat, r: nat)
    requires d < r
    ensures |Carve(n, d, r)| <= 2 <==> n <= 2 * r - d
    ensures n <= r ==> |Carve(n, d, r)| <= 2
    ensures n == 1 ==> |Carve(n, d, r)| == 1
  {
    CarveFacts(n, d, r);
    if n > r - d {
      var m := n - (r - d);
      CountStep(m, r);
      DivUnique(r - 1, r, 0, r - 1);
      if m > r {
        CountStep(m - r, r);
      }
    } else {
      DivUnique(r - 1, r, 0, r - 1);
    }
  }

  // ---------------------------------------------------------------- sharing the ring

  ghost predicate Disjoint(a: Cut, b: Cut) {
    a.first + a.count <= b.first || b.first + b.count <= a.first
  }

  /** The ring position of transfer i, counted without wrapping from the head of the queue. */
  function Unwrapped(q: seq<Cut>, i: nat): nat
    requires q != [] && i <= |q|
  {
    q[0].first + Sum(Counts(q)[..i])
  }

  lemma {:induction false} UnwrappedFolds(r: nat, q: seq<Cut>, next: nat, i: nat)
    requires r > 0 && q != [] && Gapless(r, q, next) && i <= |q|
    ensures (if i < |q| then q[i].first else next) == Unwrapped(q, i) % r
    decreases i
  {
    if i == 0 {
      DivUnique(q[0].first, r, 0, q[0].first);
    } else {
      UnwrappedFolds(r, q, next, i - 1);
      SumTake(Counts(q), i - 1);
      var u := Unwrapped(q, i - 1);
      assert q[i - 1].first == u % r && Unwrapped(q, i) == u + q[i - 1].count;
      hide Sum, Counts, Unwrapped;
      AfterSplit(0, u, q[i - 1].count, r);
    }
  }

  /** Unwrapped positions less than a full turn apart are different ring indices. */
  lemma ModDistinct(a: nat, b: nat, r: nat)
    requires a < b < a + r
    ensures a % r != b % r
  {
    var q, p := a / r, b / r;
    assert a == r * q + a % r && b == r * p + b % r;
    assert r * (p - q) == r * p - r * q;
    MulSign(r, p - q);
  }

  /** Ranges that lie within one turn, the first before the second, are disjoint in the ring. */
  lemma TurnDisjoint(r: nat, a: Cut, b: Cut, ua: nat, ub: nat)
    requires r > 0 && a.count >= 1 && b.count >= 1 && a.first + a.count <= r && b.first + b.count <= r
    requires a.first == ua % r && b.first == ub % r
    requires ua + a.count <= ub && ub + b.count <= ua + r
    ensures Disjoint(a, b)
  {
    if b.first <= a.first < b.first + b.count {
      ShiftMod(ub, a.first - b.first, r);
      ModDistinct(ua, ub + (a.first - b.first), r);
    } else if a.first <= b.first < a.first + a.count {
      ShiftMod(ua, b.first - a.first, r);
      ModDistinct(ua + (b.first - a.first), ub, r);
    }
  }

  lemma ShiftMod(u: nat, t: nat, r: nat)
    requires r > 0 && u % r + t < r
    ensures (u + t) % r == u % r + t
  {
    assert u == r * (u / r) + u % r;
    DivUnique(u + t, r, u / r, u % r + t);
  }

  /** With FIFO retirement, a new transfer shares no descriptor with any queued transfer
      exactly when the queued descriptors and the new ones fit the ring together. */
  lemma AllocationDisjoint(r: nat, q: seq<Cut>, next: nat, n: nat)
    requires r > 0 && Gapless(r, q, next) && Sum(Counts(q)) <= r
    requires 1 <= n && next + n <= r
    ensures (forall i :: 0 <= i < |q| ==> Disjoint(q[i], Cut(next, n))) <==> Sum(Counts(q)) + n <= r
  {
    if q != [] {
      var total := Sum(Counts(q));
      UnwrappedFolds(r, q, next, |q|);
      assert Counts(q)[..|q|] == Counts(q);
      if total + n <= r {
        forall i | 0 <= i < |q|
          ensures Disjoint(q[i], Cut(next, n))
        {
          UnwrappedFolds(r, q, next, i);
          SumTake(Counts(q), i);
          SumTakeMonotone(Counts(q), i + 1, |q|);
          TurnDisjoint(r, q[i], Cut(next, n), Unwrapped(q, i), q[0].first + total);
        }
      } else {
        FullTurn(q[0].first, total, r);
        assert !Disjoint(q[0], Cut(next, n));
      }
    }
  }

  /** One turn after the head, allocation is back at the head. */
  lemma FullTurn(d: nat, total: nat, r: nat)
    requires 0 < r && d < r && total <= r
    ensures d == (d + total) % r + (r - total) || d + r == (d + total) % r + (r - total)
  {
    if d + total < r {
      DivUnique(d + total, r, 0, d + total);
    } else {
      DivUnique(d + total, r, 1, d + total - r);
    }
  }

  /** Allocation at the tail and retirement at the head. */
  datatype RingOp = Allocate(n: nat) | Retire

  datatype RingState = RingState(queue: seq<Cut>, next: nat)

  function RingStep(r: nat, s: RingState, op: RingOp): RingState
    requires r > 0
  {
    match op
    case Allocate(n) => RingState(s.queue + [Cut(s.next, n)], (s.next + n) % r)
    case Retire => if s.queue == [] then s else s.(queue := s.queue[1..])
  }

  ghost predicate RingOpOk(r: nat, s: RingState, op: RingOp) {
    op.Allocate? ==> 1 <= op.n <= r - s.next && Sum(Counts(s.queue)) + op.n <= r
  }

  ghost predicate PairwiseDisjoint(q: seq<Cut>) {
    forall i, j :: 0 <= i < j < |q| ==> Disjoint(q[i], q[j])
  }

  ghost predicate RingInv(r: nat, s: RingState) {
    Gapless(r, s.queue, s.next) && Sum(Counts(s.queue)) <= r && PairwiseDisjoint(s.queue)
  }

  ghost predicate RingRun(r: nat, states: seq<RingState>, ops: seq<RingOp>)
    requires r > 0
  {
    && |states| == |ops| + 1
    && states[0].queue == [] && states[0].next < r
    && forall i :: 0 <= i < |ops| ==> RingOpOk(r, states[i], ops[i]) && states[i + 1] == RingStep(r, states[i], ops[i])
  }

  lemma AllocateKeeps(r: nat, s: RingState, n: nat)
    requires r > 0 && RingInv(r, s) && 1 <= n <= r - s.next && Sum(Counts(s.queue)) + n <= r
    ensures RingInv(r, RingState(s.queue + [Cut(s.next, n)], (s.next + n) % r))
  {
    var q' := s.queue + [Cut(s.next, n)];
    AllocationDisjoint(r, s.queue, s.next, n);
    assert Counts(q') == Counts(s.queue) + [n];
    SumSnoc(Counts(s.queue), n);
    WrapStep(s.next, n, r);
    GaplessSnoc(r, s.queue, s.next, n);
  }

  lemma GaplessSnoc(r: nat, q: seq<Cut>, next: nat, n: nat)
    requires r > 0 && Gapless(r, q, next) && 1 <= n <= r - next
    ensures Gapless(r, q + [Cut(next, n)], (next + n) % r)
  {
    WrapStep(next, n, r);
  }

  lemma RetireKeeps(r: nat, s: RingState)
    requires r > 0 && RingInv(r, s) && s.queue != []
    ensures RingInv(r, s.(queue := s.queue[1..]))
  {
    assert Counts(s.queue)[1..] == Counts(s.queue[1..]);
  }

  lemma RingStepKeeps(r: nat, s: RingState, op: RingOp)
    requires r > 0 && RingInv(r, s) && RingOpOk(r, s, op)
    ensures RingInv(r, RingStep(r, s, op))
  {
    hide RingInv;
    match op
    case Allocate(n) => AllocateKeeps(r, s, n);
    case Retire => if s.queue != [] { RetireKeeps(r, s); }
  }

  /** In every state of every run the queued transfers occupy pairwise disjoint ring ranges. */
  lemma {:induction false} RingRunsDisjoint(r: nat, states: seq<RingState>, ops: seq<RingOp>, i: nat)
    requires r > 0 && RingRun(r, states, ops) && i < |states|
    ensures RingInv(r, states[i])
    decreases i
  {
    if i > 0 {
      RingRunsDisjoint(r, states, ops, i - 1);
      RingStepKeeps(r, states[i - 1], ops[i - 1]);
    }
  }
}
