/** The completion-polling threads: which thread a new engine joins, and how even the loads stay. */
module XdmaThread {
  import opened Words

  /** struct xdma_kthread: the engines it polls, and their number. */
  datatype Thread = Thread(workCnt: nat, workList: seq<nat>)

  function Loads(ts: seq<Thread>): (r: seq<nat>)
    ensures |r| == |ts|
  {
    seq<nat>(|ts|, i requires 0 <= i < |ts| => ts[i].workCnt)
  }

  /** The thread that the search ends at. Only the first load is ever compared against: a later
      idle thread ends the search, otherwise the last thread below the first one's load wins. */
  ghost predicate Picked(c: seq<nat>, idx: nat) {
    && idx < |c|
    && (if exists i :: 1 <= i < |c| && c[i] == 0
        then idx >= 1 && c[idx] == 0 && forall i :: 1 <= i < idx ==> c[i] != 0
        else
          && (idx >= 1 ==> c[idx] < c[0])
          && forall i :: idx < i < |c| ==> c[i] >= c[0])
  }

  ghost predicate Least(c: seq<nat>, idx: nat) { idx < |c| && forall i :: 0 <= i < |c| ==> c[idx] <= c[i] }

  /** Loads differ by at most one. */
  ghost predicate Balanced(c: seq<nat>) { forall i, j :: 0 <= i < |c| && 0 <= j < |c| ==> c[i] <= c[j] + 1 }

  /** The choice is a least-loaded thread whenever the loads take at most two values. */
  lemma TwoLoadsPickLeast(c: seq<nat>, lo: nat, hi: nat, idx: nat)
    requires lo <= hi && (forall i :: 0 <= i < |c| ==> c[i] == lo || c[i] == hi) && Picked(c, idx)
    ensures Least(c, idx)
  {
    if exists i :: 1 <= i < |c| && c[i] == 0 {
    } else {
      forall i | 0 <= i < |c|
        ensures c[idx] <= c[i]
      {
        if idx == 0 && 1 <= i {
          assert c[i] >= c[0];
        }
      }
    }
  }

  /** The last of the first n threads whose load is below the first one's, or thread 0. */
  function LastBelow(c: seq<nat>, n: nat): (r: nat)
    requires 1 <= n <= |c|
    ensures r < n && (r >= 1 ==> c[r] < c[0])
    ensures forall i :: r < i < n ==> c[i] >= c[0]
  {
    if n == 1 then 0 else if c[n - 1] < c[0] then n - 1 else LastBelow(c, n - 1)
  }

  /** The choice is a least-loaded thread exactly when some thread is idle or the last load below
      the first one's, if there is one, is a minimum. */
  lemma PickedLeastExactly(c: seq<nat>, idx: nat)
    requires Picked(c, idx)
    ensures Least(c, idx) <==> 0 in c || Least(c, LastBelow(c, |c|))
  {
    if 0 in c {
      var z :| 0 <= z < |c| && c[z] == 0;
      if z == 0 && !(exists i :: 1 <= i < |c| && c[i] == 0) {
        assert idx == 0;
      }
      assert c[idx] == 0;
    } else {
      assert idx == LastBelow(c, |c|);
    }
  }

  ghost predicate TwoValues(c: seq<nat>) {
    exists lo, hi :: AllEither(c, lo, hi)
  }

  ghost predicate AllEither(c: seq<nat>, lo: nat, hi: nat) {
    forall i :: 0 <= i < |c| ==> c[i] == lo || c[i] == hi
  }

  /** However the loads are spread over the threads, the choice is a least-loaded thread. */
  ghost predicate AlwaysLeast(c: seq<nat>) {
    forall d: seq<nat>, idx: nat :: multiset(d) == multiset(c) && Picked(d, idx) ==> Least(d, idx)
  }

  /** The choice is right in every arrangement of the loads exactly when one of them is 0 or there
      are at most two different ones. */
  lemma AlwaysLeastExactly(c: seq<nat>)
    ensures AlwaysLeast(c) <==> 0 in c || TwoValues(c)
  {
    if 0 in c || TwoValues(c) {
      forall d: seq<nat>, idx: nat | multiset(d) == multiset(c) && Picked(d, idx)
        ensures Least(d, idx)
      {
        SpreadStays(c, d, idx);
      }
    } else {
      var d, idx := WrongSpread(c);
    }
  }

  lemma SpreadStays(c: seq<nat>, d: seq<nat>, idx: nat)
    requires multiset(d) == multiset(c) && Picked(d, idx) && (0 in c || TwoValues(c))
    ensures Least(d, idx)
  {
    hide Picked;
    if 0 in c {
      assert 0 in multiset(d);
      assert 0 in d;
      PickedLeastExactly(d, idx);
    } else {
      var lo: nat, hi: nat :| AllEither(c, lo, hi);
      forall i | 0 <= i < |d|
        ensures d[i] == lo || d[i] == hi
      {
        assert d[i] in multiset(c);
      }
      TwoLoadsPickLeast(d, Min(lo, hi), if lo <= hi then hi else lo, idx);
    }
  }

  function Removed(c: seq<nat>, i: nat): seq<nat>
    requires i < |c|
  {
    c[..i] + c[i + 1..]
  }

  lemma RemovedIs(c: seq<nat>, i: nat)
    requires i < |c|
    ensures multiset(c) == multiset(Removed(c, i)) + multiset{c[i]}
  {
    assert c == c[..i] + [c[i]] + c[i + 1..];
  }

  /** Three different positive loads: the highest first and a middle one last goes wrong. */
  lemma WrongSpread(c: seq<nat>) returns (d: seq<nat>, idx: nat)
    requires 0 !in c && !TwoValues(c)
    ensures multiset(d) == multiset(c) && Picked(d, idx) && !Least(d, idx)
  {
    var lo, mid, hi := ThreeValues(c);
    hide TwoValues, AllEither;
    d := Ends(c, hi, mid);
    idx := |c| - 1;
    SameMembers(c, d);
    assert c[lo] in d;
  }

  lemma SameMembers(c: seq<nat>, d: seq<nat>)
    requires multiset(c) == multiset(d)
    ensures |c| == |d| && forall x :: x in c <==> x in d
  {
    forall x
      ensures x in c <==> x in d
    {
      assert x in c <==> x in multiset(c);
      assert x in d <==> x in multiset(d);
    }
    assert |c| == |multiset(c)| && |d| == |multiset(d)|;
  }

  /** The same loads with load `hi` first and load `mid` last. */
  lemma Ends(c: seq<nat>, hi: nat, mid: nat) returns (d: seq<nat>)
    requires hi < |c| && mid < |c| && c[hi] != c[mid]
    ensures multiset(d) == multiset(c) && |d| == |c| && d[0] == c[hi] && d[|c| - 1] == c[mid]
  {
    var a := Removed(c, hi);
    RemovedIs(c, hi);
    assert c[mid] in multiset(a);
    var m :| 0 <= m < |a| && a[m] == c[mid];
    RemovedIs(a, m);
    var b := Removed(a, m);
    d := [c[hi]] + b + [c[mid]];
  }

  lemma ThreeValues(c: seq<nat>) returns (lo: nat, mid: nat, hi: nat)
    requires !TwoValues(c)
    ensures lo < |c| && mid < |c| && hi < |c| && c[lo] < c[mid] < c[hi]
  {
    if c == [] {
      assert AllEither(c, 0, 0);
    }
    lo, hi := 0, 0;
    for k := 0 to |c|
      invariant lo < |c| && hi < |c|
      invariant forall i :: 0 <= i < k ==> c[lo] <= c[i] <= c[hi]
      invariant c[lo] <= c[hi]
    {
      if c[k] < c[lo] {
        lo := k;
      }
      if c[k] > c[hi] {
        hi := k;
      }
    }
    assert !AllEither(c, c[lo], c[hi]);
    mid :| mid < |c| && c[mid] != c[lo] && c[mid] != c[hi];
  }

  // ---------------------------------------------------------------- which loads come about

  /** One call: an engine joins the picked thread, or leaves its own. */
  ghost predicate LoadStep(c: seq<nat>, c': seq<nat>) {
    AddStep(c, c') || exists t: nat :: t < |c| && c[t] > 0 && c' == c[t := c[t] - 1]
  }

  ghost predicate LoadRun(states: seq<seq<nat>>, from: seq<nat>, to: seq<nat>) {
    && |states| > 0 && states[0] == from && states[|states| - 1] == to
    && forall k :: 0 <= k < |states| - 1 ==> LoadStep(states[k], states[k + 1])
  }

  lemma RunSnoc(states: seq<seq<nat>>, from: seq<nat>, to: seq<nat>, next: seq<nat>)
    requires LoadRun(states, from, to) && LoadStep(to, next)
    ensures LoadRun(states + [next], from, next)
  {
    hide LoadStep;
    var all := states + [next];
    forall k | 0 <= k < |all| - 1
      ensures LoadStep(all[k], all[k + 1])
    {
    }
  }

  lemma SomePick(c: seq<nat>) returns (idx: nat)
    requires c != []
    ensures Picked(c, idx)
  {
    if z :| 1 <= z < |c| && c[z] == 0 {
      idx := z;
      for i := 1 to z
        invariant 1 <= i <= idx && c[idx] == 0 && forall k :: 1 <= k < i ==> c[k] != 0
      {
        if c[i] == 0 {
          idx := i;
          return;
        }
      }
    } else {
      idx := LastBelow(c, |c|);
    }
  }

  /** Additions alone bring any number of engines. */
  lemma {:induction false} GrownRun(n: nat, total: nat) returns (states: seq<seq<nat>>, c: seq<nat>)
    requires n > 0
    ensures LoadRun(states, seq<nat>(n, i => 0), c) && |c| == n && Balanced(c) && Sum(c) == total
    decreases total
  {
    hide Sum, LoadStep, Picked;
    if total == 0 {
      c := seq<nat>(n, i => 0);
      SumZero(c);
      states := [c];
    } else {
      states, c := GrownRun(n, total - 1);
      var idx := SomePick(c);
      var next := c[idx := c[idx] + 1];
      PickedStep(c, idx);
      AddStepFacts(c, next);
      RunSnoc(states, seq<nat>(n, i => 0), c, next);
      states, c := states + [next], next;
    }
  }

  lemma PickedStep(c: seq<nat>, idx: nat)
    requires Picked(c, idx)
    ensures AddStep(c, c[idx := c[idx] + 1]) && LoadStep(c, c[idx := c[idx] + 1])
  {
  }

  lemma TakeStep(c: seq<nat>, t: nat)
    requires t < |c| && c[t] > 0
    ensures LoadStep(c, c[t := c[t] - 1])
  {
  }

  /** Loads at least as high everywhere come down to any others by removals. */
  lemma {:induction false} ShrunkRun(states: seq<seq<nat>>, from: seq<nat>, c: seq<nat>, to: seq<nat>)
    returns (all: seq<seq<nat>>)
    requires LoadRun(states, from, c) && |c| == |to| && forall i :: 0 <= i < |c| ==> to[i] <= c[i]
    ensures LoadRun(all, from, to)
    decreases Sum(c)
  {
    hide Sum, LoadStep, LoadRun;
    if t: nat :| t < |c| && to[t] < c[t] {
      var next := c[t := c[t] - 1];
      TakeStep(c, t);
      RunSnoc(states, from, c, next);
      SumUpdate(c, t, c[t] - 1);
      all := ShrunkRun(states + [next], from, next, to);
    } else {
      assert c == to;
      all := states;
    }
  }

  /** Every assignment of loads comes about, also those for which the choice is wrong. */
  lemma EveryLoadReached(to: seq<nat>) returns (states: seq<seq<nat>>)
    requires to != []
    ensures LoadRun(states, seq<nat>(|to|, i => 0), to)
  {
    hide LoadRun, Balanced, Sum;
    var most := Most(to);
    var c;
    states, c := GrownRun(|to|, |to| * most);
    EvenShares(c, |to| * most);
    DivUnique(|to| * most, |to|, most, 0);
    states := ShrunkRun(states, seq<nat>(|to|, i => 0), c, to);
  }

  lemma Most(c: seq<nat>) returns (m: nat)
    ensures forall i :: 0 <= i < |c| ==> c[i] <= m
  {
    m := 0;
    for k := 0 to |c|
      invariant forall i :: 0 <= i < k ==> c[i] <= m
    {
      if c[k] > m {
        m := c[k];
      }
    }
  }

  // ---------------------------------------------------------------- balance

  lemma BalancedTwoLoads(c: seq<nat>) returns (lo: nat)
    requires c != [] && Balanced(c)
    ensures forall i :: 0 <= i < |c| ==> c[i] == lo || c[i] == lo + 1
    ensures exists i :: 0 <= i < |c| && c[i] == lo
  {
    var m := 0;
    for k := 0 to |c|
      invariant m < |c| && forall i :: 0 <= i < k ==> c[m] <= c[i]
    {
      if c[k] < c[m] {
        m := k;
      }
    }
    lo := c[m];
  }

  /** Adding one engine keeps the loads balanced. */
  lemma AddKeepsBalance(c: seq<nat>, idx: nat)
    requires Balanced(c) && Picked(c, idx)
    ensures Balanced(c[idx := c[idx] + 1])
  {
    var lo := BalancedTwoLoads(c);
    TwoLoadsPickLeast(c, lo, lo + 1, idx);
  }

  /** Engines added one after the other to idle threads. */
  ghost predicate AddRun(states: seq<seq<nat>>, n: nat) {
    && |states| > 0 && |states[0]| == n
    && (forall i :: 0 <= i < n ==> states[0][i] == 0)
    && forall k :: 0 <= k < |states| - 1 ==> AddStep(states[k], states[k + 1])
  }

  ghost predicate AddStep(c: seq<nat>, c': seq<nat>) {
    exists idx: nat :: Picked(c, idx) && c' == c[idx := c[idx] + 1]
  }

  lemma AddStepFacts(c: seq<nat>, c': seq<nat>)
    requires Balanced(c) && AddStep(c, c')
    ensures |c'| == |c| && Balanced(c') && Sum(c') == Sum(c) + 1
  {
    hide Balanced, Sum;
    var idx: nat :| Picked(c, idx) && c' == c[idx := c[idx] + 1];
    PickedInside(c, idx);
    hide Picked;
    AddKeepsBalance(c, idx);
    SumUpdate(c, idx, c[idx] + 1);
  }

  lemma PickedInside(c: seq<nat>, idx: nat)
    requires Picked(c, idx)
    ensures idx < |c|
  {
  }

  lemma SumUpdate(c: seq<nat>, idx: nat, x: nat)
    requires idx < |c|
    ensures Sum(c[idx := x]) + c[idx] == Sum(c) + x
  {
    assert c == c[..idx] + ([c[idx]] + c[idx + 1..]) && c[idx := x] == c[..idx] + ([x] + c[idx + 1..]);
    SumConcat(c[..idx], [c[idx]] + c[idx + 1..]);
    SumConcat(c[..idx], [x] + c[idx + 1..]);
    assert ([c[idx]] + c[idx + 1..])[1..] == c[idx + 1..] == ([x] + c[idx + 1..])[1..];
  }

  lemma {:induction false} SumZero(c: seq<nat>)
    requires forall i :: 0 <= i < |c| ==> c[i] == 0
    ensures Sum(c) == 0
    decreases |c|
  {
    if c != [] {
      SumZero(c[1..]);
    }
  }

  /** After k additions every thread has floor(k/n) engines or one more: the smallest spread possible. */
  lemma {:induction false} AddRunIsEven(states: seq<seq<nat>>, n: nat, k: nat)
    requires n > 0 && AddRun(states, n) && k < |states|
    ensures |states[k]| == n && Balanced(states[k]) && Sum(states[k]) == k
    ensures forall t :: 0 <= t < n ==> k / n <= states[k][t] <= k / n + 1
    decreases k
  {
    hide Sum, AddStep;
    if k == 0 {
      SumZero(states[0]);
    } else {
      AddRunIsEven(states, n, k - 1);
      AddStepFacts(states[k - 1], states[k]);
    }
    EvenShares(states[k], k);
  }

  lemma {:induction false} SumBounds(c: seq<nat>, lo: nat)
    requires forall i :: 0 <= i < |c| ==> c[i] == lo || c[i] == lo + 1
    ensures |c| * lo <= Sum(c) <= |c| * lo + |c|
    ensures (exists i :: 0 <= i < |c| && c[i] == lo) ==> Sum(c) < |c| * lo + |c|
    decreases |c|
  {
    if c != [] {
      SumBounds(c[1..], lo);
      assert |c| * lo == lo + |c[1..]| * lo;
      if i :| 0 <= i < |c| && c[i] == lo {
        if i > 0 {
          assert c[1..][i - 1] == lo;
        }
      }
    }
  }

  /** Balanced loads are as even as their total allows. */
  lemma EvenShares(c: seq<nat>, total: nat)
    requires c != [] && Balanced(c) && Sum(c) == total
    ensures forall t :: 0 <= t < |c| ==> total / |c| <= c[t] <= total / |c| + 1
  {
    var lo := BalancedTwoLoads(c);
    SumBounds(c, lo);
    DivUnique(total, |c|, lo, total - |c| * lo);
  }

  /** Work counts are list lengths, and each engine is listed exactly once, on its own thread. */
  ghost predicate Consistent(ts: seq<Thread>, cmplthp: map<nat, nat>) {
    && (forall t :: 0 <= t < |ts| ==> ts[t].workCnt == |ts[t].workList| && NoRepeats(ts[t].workList))
    && (forall t, e :: 0 <= t < |ts| && e in ts[t].workList ==> e in cmplthp && cmplthp[e] == t)
    && (forall e :: e in cmplthp ==> cmplthp[e] < |ts| && e in ts[cmplthp[e]].workList)
  }

  class ThreadPool {
    const threads: array<Thread>
    /** engine->cmplthp, as a thread index. */
    var cmplthp: map<nat, nat>

    ghost predicate Valid()
      reads this, threads
    {
      threads.Length > 0 && Consistent(threads[..], cmplthp)
    }

    constructor (n: nat)
      requires n > 0
      ensures Valid() && threads.Length == n && fresh(threads) && cmplthp == map[]
      ensures forall t :: 0 <= t < n ==> threads[t] == Thread(0, [])
    {
      threads := new Thread[n](_ => Thread(0, []));
      cmplthp := map[];
    }

    /** The search loop of xdma_thread_add_work; `v` is set once. */
    method PickThread() returns (idx: nat)
      requires threads.Length > 0
      ensures Picked(Loads(threads[..]), idx)
      ensures idx < threads.Length
      ensures (exists i :: 1 <= i < threads.Length && threads[i].workCnt == 0) ==>
                idx >= 1 && threads[idx].workCnt == 0 && forall i :: 1 <= i < idx ==> threads[i].workCnt > 0
      ensures (forall i :: 1 <= i < threads.Length ==> threads[i].workCnt > 0) ==>
                && (idx >= 1 ==> threads[idx].workCnt < threads[0].workCnt)
                && forall i :: idx < i < threads.Length ==> threads[i].workCnt >= threads[0].workCnt
    {
      var v: nat := 0;
      idx := threads.Length;
      ghost var c := Loads(threads[..]);
      for i := 0 to threads.Length
        invariant i == 0 ==> idx == threads.Length
        invariant i > 0 ==> idx < i && v == c[0] && (idx >= 1 ==> c[idx] < c[0])
        invariant forall k :: 1 <= k < i ==> c[k] != 0 && (idx < k ==> c[k] >= c[0])
      {
        if idx == threads.Length {
          v := threads[i].workCnt;
          idx := i;
        } else if threads[i].workCnt == 0 {
          idx := i;
          assert c[i] == 0;
          break;
        } else if threads[i].workCnt < v {
          idx := i;
        }
      }
      assert forall i :: 0 <= i < threads.Length ==> threads[i].workCnt == c[i];
    }

    /** xdma_thread_add_work for an engine that is on no thread. */
    method AddWork(e: nat)
      requires Valid() && e !in cmplthp
      modifies this, threads
      ensures Valid() && e in cmplthp && cmplthp == old(cmplthp)[e := cmplthp[e]]
      ensures var idx := cmplthp[e];
              && Picked(old(Loads(threads[..])), idx)
              && threads[..] == old(threads[..])[idx := Thread(old(threads[idx]).workCnt + 1,
                                                               old(threads[idx]).workList + [e])]
      ensures LoadStep(old(Loads(threads[..])), Loads(threads[..]))
      ensures Balanced(old(Loads(threads[..]))) ==> Balanced(Loads(threads[..]))
    {
      hide Picked, Balanced, Loads, NoRepeats, LoadStep, Consistent;
      ghost var was := threads[..];
      var idx := PickThread();
      AttachFacts(was, idx, e);
      Attached(was, cmplthp, idx, e);
      threads[idx] := Thread(threads[idx].workCnt + 1, threads[idx].workList + [e]);
      cmplthp := cmplthp[e := idx];
    }

    /** xdma_thread_remove_work; an engine on no thread is left alone. */
    method RemoveWork(e: nat)
      requires Valid()
      modifies this, threads
      ensures Valid() && cmplthp == old(cmplthp) - {e}
      ensures e !in old(cmplthp) ==> threads[..] == old(threads[..])
      ensures e in old(cmplthp) ==>
                var t := old(cmplthp)[e];
                && t < threads.Length
                && threads[..] == old(threads[..])[t := Thread(old(threads[t]).workCnt - 1,
                                                               Without(old(threads[t]).workList, e))]
                && LoadStep(old(Loads(threads[..])), Loads(threads[..]))
    {
      hide NoRepeats, Without, Loads, LoadStep, Consistent;
      Detached(threads[..], cmplthp, e);
      if e in cmplthp {
        var t := cmplthp[e];
        DetachFacts(threads[..], t, e);
        threads[t] := Thread(threads[t].workCnt - 1, Without(threads[t].workList, e));
      }
      cmplthp := cmplthp - {e};
    }
  }

  /** One engine more on the picked thread. */
  lemma AttachFacts(ts: seq<Thread>, idx: nat, e: nat)
    requires Picked(Loads(ts), idx)
    ensures idx < |ts|
    ensures var ts' := ts[idx := Thread(ts[idx].workCnt + 1, ts[idx].workList + [e])];
            LoadStep(Loads(ts), Loads(ts')) && (Balanced(Loads(ts)) ==> Balanced(Loads(ts')))
  {
    hide Balanced, LoadStep, Picked, NoRepeats, Loads;
    PickedInside(Loads(ts), idx);
    LoadsUpdate(ts, idx, Thread(ts[idx].workCnt + 1, ts[idx].workList + [e]));
    PickedStep(Loads(ts), idx);
    if Balanced(Loads(ts)) {
      AddKeepsBalance(Loads(ts), idx);
    }
  }

  lemma Attached(ts: seq<Thread>, where: map<nat, nat>, t: nat, e: nat)
    requires Consistent(ts, where) && t < |ts| && e !in where
    ensures Consistent(ts[t := Thread(ts[t].workCnt + 1, ts[t].workList + [e])], where[e := t])
  {
    Appended(ts[t].workList, e);
    hide NoRepeats;
  }

  /** An engine that is on a thread is taken off that one. */
  lemma Detached(ts: seq<Thread>, where: map<nat, nat>, e: nat)
    requires Consistent(ts, where)
    ensures e !in where ==> where - {e} == where
    ensures e in where ==>
              var t := where[e];
              && t < |ts| && ts[t].workCnt > 0
              && Consistent(ts[t := Thread(ts[t].workCnt - 1, Without(ts[t].workList, e))], where - {e})
  {
    hide NoRepeats, Without;
    if e in where {
      WithoutFacts(ts[where[e]].workList, e);
    }
  }

  lemma Appended(s: seq<nat>, e: nat)
    ensures NoRepeats(s) && e !in s ==> NoRepeats(s + [e])
  {
  }

  lemma LoadsUpdate(ts: seq<Thread>, t: nat, th: Thread)
    requires t < |ts|
    ensures Loads(ts)[t] == ts[t].workCnt && Loads(ts[t := th]) == Loads(ts)[t := th.workCnt]
  {
  }

  /** One engine less on its thread. */
  lemma DetachFacts(ts: seq<Thread>, t: nat, e: nat)
    requires t < |ts| && ts[t].workCnt > 0
    ensures LoadStep(Loads(ts), Loads(ts[t := Thread(ts[t].workCnt - 1, Without(ts[t].workList, e))]))
  {
    LoadsUpdate(ts, t, Thread(ts[t].workCnt - 1, Without(ts[t].workList, e)));
    hide Loads, LoadStep;
    TakeStep(Loads(ts), t);
  }

  ghost predicate NoRepeats(s: seq<nat>) { forall i, j :: 0 <= i < j < |s| ==> s[i] != s[j] }

  /** list_del of the entry of e. */
  function Without(s: seq<nat>, e: nat): seq<nat> {
    if s == [] then [] else if s[0] == e then s[1..] else [s[0]] + Without(s[1..], e)
  }

  lemma {:induction false} WithoutFacts(s: seq<nat>, e: nat)
    requires NoRepeats(s) && e in s
    ensures |Without(s, e)| == |s| - 1 && NoRepeats(Without(s, e))
    ensures forall x :: x in Without(s, e) <==> x in s && x != e
    decreases |s|
  {
    if s[0] != e {
      WithoutFacts(s[1..], e);
      assert s[0] !in s[1..];
      assert s[0] !in Without(s[1..], e);
    } else {
      assert e !in s[1..];
    }
  }
}
