/** The blocking submission loop as a value: how a wait ends, what the request counts, and what
    stays accounted (the loop of xdma_xfer_submit). */
module BlockingLoop {
  import opened Words
  import opened LinearCopy
  import opened Descriptors
  import opened Chains
  import opened Ring
  import opened EngineModel

  // ---------------------------------------------------------------- one wait

  /** One service pass during a wait: BUSY, an error bit, the completed-descriptor count of the
      hardware's current run (at most the chain's length), and the result write-backs. */
  datatype ServicePass = ServicePass(busy: bool, error: bool, count: nat, results: seq<Result>)

  /** What happens to a submitted transfer until its wait ends: it is refused, or these passes run
      and then, if it is still submitted, the timeout. */
  datatype Wait = Refused | Served(passes: seq<ServicePass>)

  datatype Outcome = Refusal | Expired | Failure | Success(cmpl: nat, eop: bool)

  /** What one pass does to the waiting transfer: nothing (it stays at the head, restarted if the
      hardware had stopped), the engine stops for good, or the transfer leaves. */
  datatype Effect = Stays | Stuck | Leaves(outcome: Outcome)

  /** A freshly submitted transfer of n descriptors. */
  function FreshXfer(id: nat, n: nat, last: bool): Xfer {
    Xfer(Ticket(id, n, last, None), 0, Submitted, false, false)
  }

  function Padded(results: seq<Result>, n: nat): (r: seq<Result>)
    ensures |r| == n
  {
    seq(n, i requires 0 <= i < n => if i < |results| then results[i] else Result(false, 0))
  }

  function EffectOf(c: Config, n: nat, p: ServicePass): Effect {
    var k := Min(p.count, n);
    if k == 0 then if p.busy then Stays else Stuck
    else
      match Judge(FreshXfer(0, n, false), k, c.eopFlush, p.error, Padded(p.results, n))
      case Keep(_) => Stays
      case Remove(x, _, _) => Leaves(if x.state == Completed then Success(x.cmpl, x.eop) else Failure)
  }

  /** How the passes end a transfer of n descriptors, and the results then in memory. */
  datatype Ending = Ending(outcome: Outcome, results: seq<Result>)

  function EndingOf(c: Config, n: nat, passes: seq<ServicePass>): Ending
    decreases |passes|
  {
    if passes == [] then Ending(Expired, [])
    else
      match EffectOf(c, n, passes[0])
      case Stays => EndingOf(c, n, passes[1..])
      case Stuck => Ending(Expired, [])
      case Leaves(o) => Ending(o, Padded(passes[0].results, n))
  }

  function WaitEnding(c: Config, n: nat, w: Wait): Ending {
    match w
    case Refused => Ending(Refusal, [])
    case Served(passes) => EndingOf(c, n, passes)
  }

  function OutcomeOf(c: Config, n: nat, w: Wait): Outcome { WaitEnding(c, n, w).outcome }

  /** Pass i is the first that does not leave the transfer waiting. */
  ghost predicate FirstDecisive(c: Config, n: nat, passes: seq<ServicePass>, i: nat) {
    i < |passes| && EffectOf(c, n, passes[i]) != Stays && forall j :: 0 <= j < i ==> EffectOf(c, n, passes[j]) == Stays
  }

  /** However many passes run before it, the first decisive one alone says how a wait ends; without
      one the wait expires. */
  lemma {:induction false} LastPassDecides(c: Config, n: nat, passes: seq<ServicePass>, i: nat)
    ensures FirstDecisive(c, n, passes, i) ==>
              EndingOf(c, n, passes) == (match EffectOf(c, n, passes[i])
                                         case Leaves(o) => Ending(o, Padded(passes[i].results, n))
                                         case _ => Ending(Expired, []))
    ensures (forall j :: 0 <= j < |passes| ==> EffectOf(c, n, passes[j]) == Stays) ==>
              EndingOf(c, n, passes) == Ending(Expired, [])
    decreases |passes|
  {
    hide EffectOf, Padded;
    if passes != [] {
      LastPassDecides(c, n, passes[1..], if i > 0 then i - 1 else 0);
      if i > 0 && FirstDecisive(c, n, passes, i) {
        assert passes[1..][i - 1] == passes[i];
        assert forall j :: 0 <= j < i - 1 ==> passes[1..][j] == passes[j + 1];
      }
      if forall j :: 0 <= j < |passes| ==> EffectOf(c, n, passes[j]) == Stays {
        assert forall j :: 0 <= j < |passes| - 1 ==> passes[1..][j] == passes[j + 1];
      }
    }
  }

  /** A pass with eop_flush and no error: a packet end on any completed descriptor, of fewer than all,
      completes the transfer there; without one it waits on; all descriptors complete it in full, and a
      packet end on the last one is not told apart. */
  lemma EopEffect(c: Config, n: nat, p: ServicePass)
    requires c.eopFlush && !p.error && p.count >= 1 && n >= 1
    ensures p.count >= n ==> EffectOf(c, n, p) == Leaves(Success(n, false))
    ensures p.count < n && (exists i :: 0 <= i < p.count && i < |p.results| && p.results[i].eop) ==>
              EffectOf(c, n, p) == Leaves(Success(p.count, true))
    ensures p.count < n && !(exists i :: 0 <= i < p.count && i < |p.results| && p.results[i].eop) ==>
              EffectOf(c, n, p) == Stays
  {
    var k := Min(p.count, n);
    PaddedEop(p.results, n, k);
    hide HasEop, Padded;
  }

  lemma PaddedEop(results: seq<Result>, n: nat, k: nat)
    requires k <= n
    ensures HasEop(Padded(results, n), k) <==> exists i :: 0 <= i < k && i < |results| && results[i].eop
  {
    if i :| 0 <= i < k && i < |results| && results[i].eop {
      assert Padded(results, n)[i].eop;
    }
  }

  lemma EffectSuccess(c: Config, n: nat, p: ServicePass)
    ensures EffectOf(c, n, p).Leaves? ==>
              var o := EffectOf(c, n, p).outcome;
              (o.Success? || o.Failure?) && (o.Success? ==> o.cmpl <= n)
  {
    hide HasEop, Padded;
  }

  lemma {:induction false} EndingBounds(c: Config, n: nat, passes: seq<ServicePass>)
    ensures var e := EndingOf(c, n, passes);
            !e.outcome.Refusal? && (e.outcome.Success? ==> e.outcome.cmpl <= n && |e.results| == n)
    decreases |passes|
  {
    hide EffectOf, Padded;
    if passes != [] {
      EffectSuccess(c, n, passes[0]);
      EndingBounds(c, n, passes[1..]);
    }
  }

  // ---------------------------------------------------------------- the loop

  function Lengths(results: seq<Result>): (r: seq<nat>)
    ensures |r| == |results|
  {
    seq<nat>(|results|, i requires 0 <= i < |results| => results[i].length)
  }

  predicate StreamIn(c: Config) { c.streaming && c.dir.FromDevice? }

  /** The bytes that one completed transfer adds. */
  function BytesOf(c: Config, pieces: seq<Extent>, n: nat, e: Ending): nat
    requires n <= |pieces|
  {
    if StreamIn(c) && e.outcome.Success? && e.outcome.cmpl <= |e.results| then Sum(Lengths(e.results)[..e.outcome.cmpl])
    else U32(Total(pieces[..n]))
  }

  /** engine->desc_idx after n more descriptors. */
  function NextIndex(c: Config, d: nat, n: nat): (r: nat)
    requires c.descMax > 0
    ensures r < c.descMax
  {
    (d + n) % c.descMax
  }

  /** A packet end finishes the whole request. */
  predicate EndsRequest(c: Config, o: Outcome) { StreamIn(c) && c.eopFlush && o.Success? && o.eop }

  /** The byte count, the status and the descriptors left accounted as used. */
  datatype Account = Account(done: nat, rv: int, leaked: int)

  /** The account of the rest of the request, added to what is done. */
  function Plus(done: nat, rest: Account): Account { rest.(done := done + rest.done) }

  function Blocking(c: Config, pieces: seq<Extent>, d: nat, waits: nat -> Wait, t: nat): Account
    requires d < c.descMax
    decreases |pieces|
  {
    if pieces == [] then Account(0, 0, 0)
    else
      var n := Min(|pieces|, c.descMax - d);
      var e := WaitEnding(c, n, waits(t));
      match e.outcome
      case Refusal => Account(0, -EBUSY, n)
      case Expired => Account(0, -ETIMEDOUT, 0)
      case Failure => Account(0, -EIO, 0)
      case Success(_, _) =>
        if EndsRequest(c, e.outcome) then Account(BytesOf(c, pieces, n, e), 0, 0)
        else Plus(BytesOf(c, pieces, n, e), Blocking(c, pieces[n..], NextIndex(c, d, n), waits, t + 1))
  }

  /** One step of the loop. */
  lemma BlockingUnfolds(c: Config, left: seq<Extent>, d: nat, waits: nat -> Wait, t: nat)
    requires d < c.descMax && left != []
    ensures var n := Min(|left|, c.descMax - d);
            var e, r := WaitEnding(c, n, waits(t)), Blocking(c, left, d, waits, t);
            && (e.outcome.Refusal? ==> r == Account(0, -EBUSY, n))
            && (e.outcome.Expired? ==> r == Account(0, -ETIMEDOUT, 0))
            && (e.outcome.Failure? ==> r == Account(0, -EIO, 0))
            && (e.outcome.Success? ==>
                  r == if EndsRequest(c, e.outcome) then Account(BytesOf(c, left, n, e), 0, 0)
                       else Plus(BytesOf(c, left, n, e), Blocking(c, left[n..], NextIndex(c, d, n), waits, t + 1)))
  {
    hide WaitEnding, BytesOf, NextIndex, EndsRequest;
  }

  // ---------------------------------------------------------------- where the loop stops

  /** A transfer after which the loop goes on. */
  predicate GoesOn(c: Config, o: Outcome) { o.Success? && !EndsRequest(c, o) }

  /** The first transfer of the carving that ends the loop, or the number of transfers. */
  function FirstEnding(c: Config, cuts: seq<Cut>, waits: nat -> Wait, t: nat): (k: nat)
    ensures k <= |cuts|
    decreases |cuts|
  {
    if cuts == [] || !GoesOn(c, OutcomeOf(c, cuts[0].count, waits(t))) then 0
    else 1 + FirstEnding(c, cuts[1..], waits, t + 1)
  }

  /** The descriptors that stay accounted: exactly those of the transfer that the queue refuses,
      if the loop reaches one. */
  function Leak(c: Config, cuts: seq<Cut>, waits: nat -> Wait, t: nat): nat {
    var k := FirstEnding(c, cuts, waits, t);
    if k < |cuts| && waits(t + k).Refused? then cuts[k].count else 0
  }

  lemma LeakStep(c: Config, cuts: seq<Cut>, waits: nat -> Wait, t: nat)
    requires cuts != []
    ensures GoesOn(c, OutcomeOf(c, cuts[0].count, waits(t))) ==>
              Leak(c, cuts, waits, t) == Leak(c, cuts[1..], waits, t + 1)
    ensures !GoesOn(c, OutcomeOf(c, cuts[0].count, waits(t))) ==>
              Leak(c, cuts, waits, t) == if waits(t).Refused? then cuts[0].count else 0
  {
    hide OutcomeOf, GoesOn;
  }

  lemma RefusedOutcome(c: Config, n: nat, w: Wait)
    ensures OutcomeOf(c, n, w).Refusal? <==> w.Refused?
  {
    if w.Served? {
      EndingBounds(c, n, w.passes);
    }
  }

  lemma CarveStep(c: Config, n: nat, d: nat)
    requires d < c.descMax && n > 0
    ensures var k := Min(n, c.descMax - d);
            var cuts := Carve(n, d, c.descMax);
            cuts == [Cut(d, k)] + Carve(n - k, NextIndex(c, d, k), c.descMax) && cuts[0] == Cut(d, k)
            && cuts[1..] == Carve(n - k, NextIndex(c, d, k), c.descMax)
  {
  }

  /** desc_used is restored exactly unless the loop reaches a transfer that the queue refuses; then
      that transfer's descriptors stay accounted. In every mode. */
  lemma {:induction false} LeaksExactly(c: Config, pieces: seq<Extent>, d: nat, waits: nat -> Wait, t: nat)
    requires d < c.descMax
    ensures Blocking(c, pieces, d, waits, t).leaked == Leak(c, Carve(|pieces|, d, c.descMax), waits, t)
    decreases |pieces|
  {
    hide Leak, Blocking, WaitEnding, BytesOf, Carve, NextIndex, EndsRequest;
    if pieces == [] {
      NothingToDo(c, d, waits, t);
    } else {
      var n := Min(|pieces|, c.descMax - d);
      CarveStep(c, |pieces|, d);
      LeakStep(c, Carve(|pieces|, d, c.descMax), waits, t);
      BlockingUnfolds(c, pieces, d, waits, t);
      RefusedOutcome(c, n, waits(t));
      LeaksExactly(c, pieces[n..], NextIndex(c, d, n), waits, t + 1);
    }
  }

  lemma NothingToDo(c: Config, d: nat, waits: nat -> Wait, t: nat)
    requires d < c.descMax
    ensures Carve(0, d, c.descMax) == [] && Blocking(c, [], d, waits, t) == Account(0, 0, 0)
    ensures Leak(c, [], waits, t) == 0 && FirstEnding(c, [], waits, t) == 0
  {
  }

  // ---------------------------------------------------------------- what the byte count is

  /** The descriptors of the transfers that complete before the loop ends. Outside C2H streaming
      only a transfer that does not complete ends it. */
  function CompletedDescs(c: Config, pieces: seq<Extent>, d: nat, waits: nat -> Wait, t: nat): nat
    requires d < c.descMax
  {
    var cuts := Carve(|pieces|, d, c.descMax);
    Sum(Counts(cuts)[..FirstEnding(c, cuts, waits, t)])
  }

  predicate AllComplete(c: Config, pieces: seq<Extent>, d: nat, waits: nat -> Wait, t: nat)
    requires d < c.descMax
  {
    var cuts := Carve(|pieces|, d, c.descMax);
    FirstEnding(c, cuts, waits, t) == |cuts|
  }

  /** No completed transfer reaches 4 GiB, where its 32-bit length would wrap. */
  predicate TransfersFit(c: Config, pieces: seq<Extent>, d: nat, waits: nat -> Wait, t: nat)
    requires d < c.descMax
    decreases |pieces|
  {
    pieces == [] ||
    var n := Min(|pieces|, c.descMax - d);
    GoesOn(c, OutcomeOf(c, n, waits(t))) ==>
      Total(pieces[..n]) < 0x1_0000_0000 && TransfersFit(c, pieces[n..], NextIndex(c, d, n), waits, t + 1)
  }

  lemma CompletedStep(c: Config, pieces: seq<Extent>, d: nat, waits: nat -> Wait, t: nat)
    requires d < c.descMax && pieces != []
    ensures var n := Min(|pieces|, c.descMax - d);
            var d' := NextIndex(c, d, n);
            && (GoesOn(c, OutcomeOf(c, n, waits(t))) ==>
                  && CompletedDescs(c, pieces, d, waits, t) == n + CompletedDescs(c, pieces[n..], d', waits, t + 1)
                  && (AllComplete(c, pieces, d, waits, t) <==> AllComplete(c, pieces[n..], d', waits, t + 1)))
            && (!GoesOn(c, OutcomeOf(c, n, waits(t))) ==>
                  CompletedDescs(c, pieces, d, waits, t) == 0 && !AllComplete(c, pieces, d, waits, t))
  {
    hide OutcomeOf, GoesOn, NextIndex, Carve;
    var n := Min(|pieces|, c.descMax - d);
    var cuts, rest := Carve(|pieces|, d, c.descMax), Carve(|pieces| - n, NextIndex(c, d, n), c.descMax);
    CarveStep(c, |pieces|, d);
    assert Counts(cuts)[..0] == [];
    SumFirst(Cut(d, n), rest, FirstEnding(c, rest, waits, t + 1));
  }

  lemma SumFirst(first: Cut, rest: seq<Cut>, k: nat)
    requires k <= |rest|
    ensures Sum(Counts([first] + rest)[..k + 1]) == first.count + Sum(Counts(rest)[..k])
  {
    assert Counts([first] + rest)[..k + 1][1..] == Counts(rest)[..k];
  }

  lemma TotalNothing(pieces: seq<Extent>)
    ensures Total(pieces[..0]) == 0
  {
    assert pieces[..0] == [];
  }

  lemma TotalFirst(pieces: seq<Extent>, n: nat, m: nat)
    requires n + m <= |pieces|
    ensures Total(pieces[..n + m]) == Total(pieces[..n]) + Total(pieces[n..][..m])
  {
    assert pieces[..n + m] == pieces[..n] + pieces[n..][..m];
    TotalConcat(pieces[..n], pieces[n..][..m]);
  }

  lemma Wraps(x: nat)
    ensures U32(x) <= x && (U32(x) == x <==> x < 0x1_0000_0000)
  {
  }

  /** Outside C2H streaming, the status of a step. */
  lemma BlockingStep(c: Config, pieces: seq<Extent>, d: nat, waits: nat -> Wait, t: nat)
    requires d < c.descMax && pieces != [] && !StreamIn(c)
    ensures var n := Min(|pieces|, c.descMax - d);
            var r, rest := Blocking(c, pieces, d, waits, t), Blocking(c, pieces[n..], NextIndex(c, d, n), waits, t + 1);
            && (GoesOn(c, OutcomeOf(c, n, waits(t))) ==>
                  r.done == U32(Total(pieces[..n])) + rest.done && r.rv == rest.rv)
            && (!GoesOn(c, OutcomeOf(c, n, waits(t))) ==> r.done == 0 && r.rv != 0)
  {
    hide WaitEnding, Total, Blocking, NextIndex;
    BlockingUnfolds(c, pieces, d, waits, t);
  }

  /** Outside C2H streaming the byte count never exceeds that of the completed prefix of the
      request, and equals it exactly when no completed transfer reaches 4 GiB. */
  lemma {:induction false} CountsCompletedPrefix(c: Config, pieces: seq<Extent>, d: nat, waits: nat -> Wait, t: nat)
    requires d < c.descMax && !StreamIn(c)
    ensures var completed, result := CompletedDescs(c, pieces, d, waits, t), Blocking(c, pieces, d, waits, t);
            && completed <= |pieces|
            && result.done <= Total(pieces[..completed])
            && (result.done == Total(pieces[..completed]) <==> TransfersFit(c, pieces, d, waits, t))
            && (result.rv == 0 <==> AllComplete(c, pieces, d, waits, t))
            && (result.rv == 0 ==> completed == |pieces|)
    decreases |pieces|
  {
    hide OutcomeOf, CompletedDescs, AllComplete, Total, Blocking, NextIndex, U32, GoesOn;
    TotalNothing(pieces);
    if pieces == [] {
      NoPieces(c, d, waits, t);
    } else {
      var n := Min(|pieces|, c.descMax - d);
      var d' := NextIndex(c, d, n);
      CompletedStep(c, pieces, d, waits, t);
      BlockingStep(c, pieces, d, waits, t);
      Wraps(Total(pieces[..n]));
      if GoesOn(c, OutcomeOf(c, n, waits(t))) {
        CountsCompletedPrefix(c, pieces[n..], d', waits, t + 1);
        TotalFirst(pieces, n, CompletedDescs(c, pieces[n..], d', waits, t + 1));
      }
    }
  }

  lemma NoPieces(c: Config, d: nat, waits: nat -> Wait, t: nat)
    requires d < c.descMax
    ensures CompletedDescs(c, [], d, waits, t) == 0 && AllComplete(c, [], d, waits, t)
    ensures Blocking(c, [], d, waits, t) == Account(0, 0, 0)
  {
    assert Counts(Carve(0, d, c.descMax)) == [];
  }

  /** A ring that cannot hold 4 GiB of bounded pieces never wraps a transfer's length. */
  lemma {:induction false} SmallRingFits(c: Config, pieces: seq<Extent>, blen: nat, d: nat, waits: nat -> Wait, t: nat)
    requires d < c.descMax && c.descMax * blen < 0x1_0000_0000
    requires forall i :: 0 <= i < |pieces| ==> pieces[i].len <= blen
    ensures TransfersFit(c, pieces, d, waits, t)
    decreases |pieces|
  {
    hide OutcomeOf, NextIndex, Total, GoesOn;
    if pieces != [] {
      var n := Min(|pieces|, c.descMax - d);
      TotalBound(pieces[..n], blen);
      assert n * blen <= c.descMax * blen;
      SmallRingFits(c, pieces[n..], blen, NextIndex(c, d, n), waits, t + 1);
    }
  }

  lemma {:induction false} TotalBound(pieces: seq<Extent>, blen: nat)
    requires forall i :: 0 <= i < |pieces| ==> pieces[i].len <= blen
    ensures Total(pieces) <= |pieces| * blen
    decreases |pieces|
  {
    if pieces != [] {
      assert Lens(pieces)[1..] == Lens(pieces[1..]);
      TotalBound(pieces[1..], blen);
      assert |pieces| * blen == blen + |pieces[1..]| * blen;
    }
  }

  /** When every transfer completes and none wraps, the whole request is counted, with status 0
      and nothing left accounted. */
  lemma AllCompletedCountsAll(c: Config, pieces: seq<Extent>, d: nat, waits: nat -> Wait, t: nat)
    requires d < c.descMax && !StreamIn(c)
    ensures AllComplete(c, pieces, d, waits, t) && TransfersFit(c, pieces, d, waits, t) <==>
              Blocking(c, pieces, d, waits, t) == Account(Total(pieces), 0, 0)
  {
    CountsCompletedPrefix(c, pieces, d, waits, t);
    LeaksExactly(c, pieces, d, waits, t);
    hide Blocking, TransfersFit, Total, OutcomeOf, Carve;
    assert pieces[..|pieces|] == pieces;
  }

  // ---------------------------------------------------------------- what the status is

  /** A pass fails the waiting transfer on an error bit or, without eop_flush, short of its count. */
  lemma EffectFails(c: Config, n: nat, p: ServicePass)
    requires n >= 1
    ensures EffectOf(c, n, p) == Leaves(Failure) <==> p.count > 0 && (p.error || (!c.eopFlush && p.count < n))
    ensures EffectOf(c, n, p) == Stuck <==> p.count == 0 && !p.busy
  {
    hide HasEop, Padded;
  }

  /** The status is that of the first transfer that ends the loop: refused, failed or timed out. */
  lemma {:induction false} StatusExact(c: Config, pieces: seq<Extent>, d: nat, waits: nat -> Wait, t: nat)
    requires d < c.descMax
    ensures var cuts, rv := Carve(|pieces|, d, c.descMax), Blocking(c, pieces, d, waits, t).rv;
            var k := FirstEnding(c, cuts, waits, t);
            if k == |cuts| then rv == 0
            else
              match OutcomeOf(c, cuts[k].count, waits(t + k))
              case Refusal => rv == -16
              case Failure => rv == -5
              case Expired => rv == -110
              case Success(_, _) => rv == 0
    decreases |pieces|
  {
    hide OutcomeOf, BytesOf, Carve, NextIndex, FirstEnding, Blocking, GoesOn;
    if pieces == [] {
      NothingToDo(c, d, waits, t);
    } else {
      var n := Min(|pieces|, c.descMax - d);
      CarveStep(c, |pieces|, d);
      StatusStep(c, pieces, d, waits, t);
      FirstEndingStep(c, Carve(|pieces|, d, c.descMax), waits, t);
      StatusExact(c, pieces[n..], NextIndex(c, d, n), waits, t + 1);
    }
  }

  lemma FirstEndingStep(c: Config, cuts: seq<Cut>, waits: nat -> Wait, t: nat)
    requires cuts != []
    ensures FirstEnding(c, cuts, waits, t)
         == if GoesOn(c, OutcomeOf(c, cuts[0].count, waits(t))) then 1 + FirstEnding(c, cuts[1..], waits, t + 1) else 0
  {
    hide OutcomeOf, GoesOn;
  }

  lemma StatusStep(c: Config, pieces: seq<Extent>, d: nat, waits: nat -> Wait, t: nat)
    requires d < c.descMax && pieces != []
    ensures var n, rv := Min(|pieces|, c.descMax - d), Blocking(c, pieces, d, waits, t).rv;
            if GoesOn(c, OutcomeOf(c, n, waits(t)))
            then rv == Blocking(c, pieces[n..], NextIndex(c, d, n), waits, t + 1).rv
            else
              match OutcomeOf(c, n, waits(t))
              case Refusal => rv == -16
              case Failure => rv == -5
              case Expired => rv == -110
              case Success(_, _) => rv == 0
  {
    BlockingUnfolds(c, pieces, d, waits, t);
    hide WaitEnding, BytesOf, NextIndex, Blocking;
  }

  // ---------------------------------------------------------------- what a stream read counts

  /** The bytes that the first k write-backs report; what was not written back counts nothing. */
  function Received(results: seq<Result>, k: nat): nat {
    if k == 0 then 0 else Received(results, k - 1) + if k <= |results| then results[k - 1].length else 0
  }

  ghost predicate EndsPacket(results: seq<Result>, k: nat) {
    exists i :: 0 <= i < k && i < |results| && results[i].eop
  }

  /** What one pass means for a stream read of n descriptors: it waits on, it gets nothing more, or
      this many descriptors have arrived, early if a packet ended. */
  datatype Arrival = Waits | Ends | Arrives(count: nat, early: bool)

  ghost function ArrivalOf(c: Config, n: nat, p: ServicePass): Arrival {
    if p.count == 0 then if p.busy then Waits else Ends
    else if p.error then Ends
    else if p.count >= n then Arrives(n, false)
    else if !c.eopFlush then Ends
    else if EndsPacket(p.results, p.count) then Arrives(p.count, true)
    else Waits
  }

  /** The bytes of one transfer, and whether the read goes on after it. */
  ghost function Streamed(c: Config, n: nat, passes: seq<ServicePass>): (nat, bool)
    decreases |passes|
  {
    if passes == [] then (0, false)
    else
      match ArrivalOf(c, n, passes[0])
      case Waits => Streamed(c, n, passes[1..])
      case Ends => (0, false)
      case Arrives(k, early) => (Received(passes[0].results, k), !early)
  }

  /** The bytes of a stream read of `left` descriptors from ring index d on. */
  ghost function StreamCount(c: Config, left: nat, d: nat, waits: nat -> Wait, t: nat): nat
    requires d < c.descMax
    decreases left
  {
    if left == 0 || waits(t).Refused? then 0
    else
      var n := Min(left, c.descMax - d);
      var s := Streamed(c, n, waits(t).passes);
      s.0 + if s.1 then StreamCount(c, left - n, (d + n) % c.descMax, waits, t + 1) else 0
  }

  lemma {:induction false} ReceivedIsSum(results: seq<Result>, n: nat, k: nat)
    requires k <= n
    ensures Sum(Lengths(Padded(results, n))[..k]) == Received(results, k)
    decreases k
  {
    var xs := Lengths(Padded(results, n));
    if k == 0 {
      assert xs[..0] == [];
    } else {
      ReceivedIsSum(results, n, k - 1);
      SumTake(xs, k - 1);
      hide Sum;
    }
  }

  lemma EffectIsArrival(c: Config, n: nat, p: ServicePass)
    requires n >= 1
    ensures var e, a := EffectOf(c, n, p), ArrivalOf(c, n, p);
            && (a.Waits? <==> e.Stays?)
            && (a.Arrives? <==> e.Leaves? && e.outcome.Success?)
            && (a.Arrives? ==> a.count <= n && e.outcome == Success(a.count, a.early) && (a.early ==> c.eopFlush))
  {
    PaddedEop(p.results, n, Min(p.count, n));
    hide HasEop, Padded;
  }

  lemma {:induction false} EndingIsStreamed(c: Config, n: nat, passes: seq<ServicePass>)
    requires n >= 1
    ensures var e, s := EndingOf(c, n, passes), Streamed(c, n, passes);
            && (if e.outcome.Success?
                then e.outcome.cmpl <= |e.results| && s.0 == Sum(Lengths(e.results)[..e.outcome.cmpl])
                else s == (0, false))
            && (e.outcome.Success? ==> s.1 == !e.outcome.eop && (e.outcome.eop ==> c.eopFlush))
    decreases |passes|
  {
    hide EffectOf, ArrivalOf, Lengths, Padded, Sum, Received;
    if passes != [] {
      EffectIsArrival(c, n, passes[0]);
      EndingIsStreamed(c, n, passes[1..]);
      var a := ArrivalOf(c, n, passes[0]);
      if a.Arrives? {
        ReceivedIsSum(passes[0].results, n, a.count);
      }
    }
  }

  /** A C2H stream read counts, in every run and with or without eop_flush, the lengths that the
      completed descriptors of its completed transfers report, that of a packet's end included. */
  lemma {:induction false} StreamCounts(c: Config, pieces: seq<Extent>, d: nat, waits: nat -> Wait, t: nat)
    requires d < c.descMax && StreamIn(c)
    ensures Blocking(c, pieces, d, waits, t).done == StreamCount(c, |pieces|, d, waits, t)
    ensures Blocking(c, pieces, d, waits, t).rv <= 0
    decreases |pieces|
  {
    hide Streamed, EndingOf, Lengths, Sum, Blocking, Total, U32;
    if pieces == [] {
      NoPieces(c, d, waits, t);
    } else {
      var n := Min(|pieces|, c.descMax - d);
      BlockingUnfolds(c, pieces, d, waits, t);
      RefusedOutcome(c, n, waits(t));
      StreamCounts(c, pieces[n..], NextIndex(c, d, n), waits, t + 1);
      if waits(t).Served? {
        EndingIsStreamed(c, n, waits(t).passes);
      }
    }
  }

  /** On a C2H stream with eop_flush, a transfer that a pass completes finishes the request exactly
      when fewer than all of its descriptors were complete, one of which ended a packet; it contributes
      the lengths of the completed ones. Otherwise the request goes on after it. */
  lemma EopEndsRequest(c: Config, pieces: seq<Extent>, d: nat, waits: nat -> Wait, t: nat, i: nat)
    requires d < c.descMax && StreamIn(c) && c.eopFlush && pieces != [] && waits(t).Served?
    requires var n, ps := Min(|pieces|, c.descMax - d), waits(t).passes;
             && FirstDecisive(c, n, ps, i) && !ps[i].error && ps[i].count >= 1
    ensures var n, p := Min(|pieces|, c.descMax - d), waits(t).passes[i];
            var k, r := Min(p.count, n), Blocking(c, pieces, d, waits, t);
            && (p.count < n ==>
                  && (exists j :: 0 <= j < p.count && j < |p.results| && p.results[j].eop)
                  && r == Account(Received(p.results, k), 0, 0))
            && (p.count >= n ==>
                  r == Plus(Received(p.results, k), Blocking(c, pieces[n..], NextIndex(c, d, n), waits, t + 1)))
  {
    hide EffectOf, EndingOf, Blocking, HasEop, Padded, Sum, Lengths, NextIndex, Received;
    var n, ps := Min(|pieces|, c.descMax - d), waits(t).passes;
    LastPassDecides(c, n, ps, i);
    EopEffect(c, n, ps[i]);
    ReceivedIsSum(ps[i].results, n, Min(ps[i].count, n));
    BlockingUnfolds(c, pieces, d, waits, t);
  }
}
