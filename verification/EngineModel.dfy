/** The engine's transfer queue as a value: submission, start and one interrupt-mode service pass. */
module EngineModel {
  import opened Words

  datatype XferState = New | Submitted | Completed | Failed | Aborted

  /** What never changes in a transfer: a serial number, its descriptors, and its completion callback. */
  datatype Ticket = Ticket(id: nat, num: nat, last: bool, cb: Option<nat>)

  datatype Xfer = Xfer(ticket: Ticket, cmpl: nat, state: XferState, eop: bool, cyclic: bool)

  /** One stream result write-back: does the packet end here, and how many bytes arrived. */
  datatype Result = Result(eop: bool, length: nat)

  datatype Engine = Engine(queue: seq<Xfer>, running: bool, dequeued: nat, eopFlush: bool,
                           shutRequest: bool, shutIdle: bool)

  /** What a service pass reads from the hardware: BUSY, an error bit of the engine's direction,
      the completed-descriptor count of this run and the head transfer's results. */
  datatype Reading = Reading(busy: bool, error: bool, count: nat, results: seq<Result>)

  /** The engine after the pass, the transfers removed from the queue in order, whether RUN was
      cleared and whether the hardware was started again. */
  datatype Serviced = Serviced(eng: Engine, retired: seq<Xfer>, stopped: bool, started: bool)

  function Nums(q: seq<Xfer>): (r: seq<nat>)
    ensures |r| == |q|
  {
    seq<nat>(|q|, i requires 0 <= i < |q| => q[i].ticket.num)
  }

  // ---------------------------------------------------------------- submission

  /** engine_start on an idle engine with a non-empty queue. */
  function Start(e: Engine): Engine {
    e.(running := true, dequeued := 0, shutRequest := false, shutIdle := false)
  }

  /** transfer_queue: refused while a shutdown is requested, otherwise queued and started when idle. */
  function Enqueue(e: Engine, x: Xfer): Engine {
    if e.shutRequest then e
    else
      var e' := e.(queue := e.queue + [x.(state := Submitted)]);
      if e.running then e' else Start(e')
  }

  // ---------------------------------------------------------------- one service pass

  /** engine_service_transfer_list: all but the last completed transfer. */
  function RetireList(q: seq<Xfer>, c: nat): (r: (seq<Xfer>, seq<Xfer>, nat))
    decreases |q|
  {
    if q != [] && !q[0].cyclic && c > q[0].ticket.num then
      var t := RetireList(q[1..], c - q[0].ticket.num);
      ([q[0].(state := Completed)] + t.0, t.1, t.2)
    else ([], q, c)
  }

  predicate HasEop(results: seq<Result>, c: nat) {
    exists i :: 0 <= i < c && i < |results| && results[i].eop
  }

  /** The transfer stays at the head, or leaves with a number of descriptors accounted as dequeued. */
  datatype Verdict = Keep(x: Xfer) | Remove(x: Xfer, stop: bool, dequeue: nat)

  /** engine_service_final_transfer. */
  function Judge(x: Xfer, c: nat, eopFlush: bool, error: bool, results: seq<Result>): Verdict {
    if error then Remove(x.(state := Failed), true, 0)
    else if c < x.ticket.num then
      if eopFlush then
        var x' := x.(cmpl := c, eop := x.eop || HasEop(results, c));
        if x'.eop then Remove(x'.(state := Completed), true, c) else Keep(x')
      else Remove(x.(state := Failed, cmpl := c), false, x.ticket.num)
    else Remove(x.(state := Completed, cmpl := x.ticket.num), false, x.ticket.num)
  }

  /** engine_service_resume. */
  function Resume(e: Engine, retired: seq<Xfer>, stopped: bool): Serviced {
    if !e.running then
      if e.queue != [] then Serviced(Start(e), retired, stopped, true)
      else if e.shutRequest then Serviced(e.(shutIdle := true), retired, stopped, false)
      else Serviced(e, retired, stopped, false)
    else if e.queue == [] then Serviced(e.(running := false), retired, true, false)
    else Serviced(e, retired, stopped, false)
  }

  /** The last part of a pass: judge the transfer the engine is on, then resume. */
  function Finish(e: Engine, done: seq<Xfer>, c: nat, stopped: bool, r: Reading): Serviced {
    if e.queue == [] then Resume(e, done, stopped)
    else
      match Judge(e.queue[0], c, e.eopFlush, r.error, r.results)
      case Keep(x) => Resume(e.(queue := [x] + e.queue[1..]), done, stopped)
      case Remove(x, stop, n) =>
        Resume(e.(queue := e.queue[1..], dequeued := e.dequeued + n, running := e.running && !stop), done + [x],
               stopped || stop)
  }

  /** engine_service as the interrupt handler calls it. The count difference wraps at 32 bits. */
  function Service(e: Engine, r: Reading): Serviced {
    if !e.running then Serviced(e, [], false, false)
    else
      var stopped := !r.busy;
      var e1 := e.(running := !stopped);
      if r.count == 0 then Serviced(e1, [], stopped, false)
      else
        var c := U32(r.count - e.dequeued);
        var t := RetireList(e.queue, c);
        Finish(e1.(queue := t.1, dequeued := e.dequeued + Sum(Nums(t.0))), t.0, t.2, stopped, r)
  }

  /** The list loop and the judgement, before resuming: the engine and the retired transfers. */
  function Drain(e: Engine, count: nat, error: bool, results: seq<Result>): (Engine, seq<Xfer>) {
    var t := RetireList(e.queue, count);
    var e1 := e.(queue := t.1, dequeued := e.dequeued + Sum(Nums(t.0)));
    if t.1 == [] then (e1, t.0)
    else
      match Judge(t.1[0], t.2, e.eopFlush, error, results)
      case Keep(x) => (e1.(queue := [x] + t.1[1..]), t.0)
      case Remove(x, stop, n) =>
        (e1.(queue := t.1[1..], dequeued := e1.dequeued + n, running := e.running && !stop), t.0 + [x])
  }

  lemma ServiceIdle(e: Engine, r: Reading)
    requires !e.running || r.count == 0
    ensures Service(e, r).retired == []
    ensures Service(e, r).eng == if e.running then e.(running := r.busy) else e
  {
  }

  lemma DrainCases(e: Engine, count: nat, error: bool, results: seq<Result>)
    ensures var t, d := RetireList(e.queue, count), Drain(e, count, error, results);
            var sum := e.dequeued + Sum(Nums(t.0));
            && (t.1 == [] ==> d == (e.(queue := t.1, dequeued := sum), t.0))
            && (t.1 != [] ==>
                  var v := Judge(t.1[0], t.2, e.eopFlush, error, results);
                  && (v.Keep? ==> d == (e.(queue := [v.x] + t.1[1..], dequeued := sum), t.0))
                  && (v.Remove? ==> d == (e.(queue := t.1[1..], dequeued := sum + v.dequeue,
                                             running := e.running && !v.stop), t.0 + [v.x])))
  {
    hide RetireList, Sum, Nums, Judge;
  }

  /** A pass with a non-zero count drains the queue and resumes. */
  lemma ServiceDrains(e: Engine, r: Reading)
    requires e.running && r.count > 0
    ensures var d := Drain(e.(running := r.busy), U32(r.count - e.dequeued), r.error, r.results);
            && Service(e, r).eng == Resume(d.0, [], false).eng
            && Service(e, r).retired == d.1
  {
    hide RetireList, Sum, Nums, Judge, Resume;
    var c := U32(r.count - e.dequeued);
    var t := RetireList(e.queue, c);
    var e1 := e.(running := r.busy, queue := t.1, dequeued := e.dequeued + Sum(Nums(t.0)));
    assert Service(e, r) == Finish(e1, t.0, t.2, !r.busy, r);
    FinishDrains(e1, t.0, t.2, !r.busy, r);
    DrainCases(e.(running := r.busy), c, r.error, r.results);
  }

  lemma ResumeEngine(e: Engine, retired: seq<Xfer>, stopped: bool)
    ensures Resume(e, retired, stopped).eng == Resume(e, [], false).eng
            && Resume(e, retired, stopped).retired == retired
  {
  }

  lemma FinishDrains(e: Engine, done: seq<Xfer>, c: nat, stopped: bool, r: Reading)
    ensures var s := Finish(e, done, c, stopped, r);
            && (e.queue == [] ==> s.eng == Resume(e, [], false).eng && s.retired == done)
            && (e.queue != [] ==>
                  var v := Judge(e.queue[0], c, e.eopFlush, r.error, r.results);
                  && (v.Keep? ==>
                        s.eng == Resume(e.(queue := [v.x] + e.queue[1..]), [], false).eng && s.retired == done)
                  && (v.Remove? ==>
                        var e' := e.(queue := e.queue[1..], dequeued := e.dequeued + v.dequeue,
                                     running := e.running && !v.stop);
                        s.eng == Resume(e', [], false).eng && s.retired == done + [v.x]))
  {
    hide Judge, Resume;
    if e.queue == [] {
      ResumeEngine(e, done, stopped);
    } else {
      match Judge(e.queue[0], c, e.eopFlush, r.error, r.results)
      case Keep(x) => ResumeEngine(e.(queue := [x] + e.queue[1..]), done, stopped);
      case Remove(x, stop, n) =>
        ResumeEngine(e.(queue := e.queue[1..], dequeued := e.dequeued + n, running := e.running && !stop), done + [x],
                     stopped || stop);
    }
  }

  // ---------------------------------------------------------------- what one pass completes

  /** k is the length of the longest queue prefix whose descriptor total is at most c. */
  ghost predicate Longest(q: seq<Xfer>, c: nat, k: nat) {
    k <= |q| && Sum(Nums(q)[..k]) <= c && (k < |q| ==> Sum(Nums(q)[..k + 1]) > c)
  }

  ghost predicate Plain(q: seq<Xfer>) {
    forall i :: 0 <= i < |q| ==> q[i].ticket.num >= 1 && !q[i].cyclic
  }

  lemma NumsCons(q: seq<Xfer>, k: nat)
    requires q != [] && 1 <= k <= |q|
    ensures Sum(Nums(q)[..k]) == q[0].ticket.num + Sum(Nums(q[1..])[..k - 1])
  {
    assert Nums(q)[..k][1..] == Nums(q[1..])[..k - 1];
  }

  lemma {:induction false} LongestExists(q: seq<Xfer>, c: nat) returns (k: nat)
    ensures Longest(q, c, k)
    decreases |q|
  {
    if q == [] || q[0].ticket.num > c {
      k := 0;
      if q != [] {
        NumsCons(q, 1);
      }
    } else {
      k := LongestExists(q[1..], c - q[0].ticket.num);
      k := k + 1;
      NumsCons(q, k);
      if k < |q| {
        NumsCons(q, k + 1);
      }
    }
  }

  lemma LongestUnique(q: seq<Xfer>, c: nat, j: nat, k: nat)
    requires Longest(q, c, j) && Longest(q, c, k)
    ensures j == k
  {
    if j < k {
      SumTakeMonotone(Nums(q), j + 1, k);
    } else if k < j {
      SumTakeMonotone(Nums(q), k + 1, j);
    }
  }

  /** How transfer i of a completed prefix leaves the queue. */
  function Finished(q: seq<Xfer>, c: nat, i: nat): Xfer
    requires i < |q|
  {
    q[i].(state := Completed, cmpl := if Sum(Nums(q)[..i + 1]) == c then q[i].ticket.num else q[i].cmpl)
  }

  lemma TwoExceed(q: seq<Xfer>, k: nat)
    requires Plain(q) && 2 <= k <= |q|
    ensures Sum(Nums(q)[..k]) > q[0].ticket.num
  {
    NumsCons(q, 2);
    NumsCons(q[1..], 1);
    SumTakeMonotone(Nums(q), 2, k);
  }

  /** The list loop retires the longest prefix, short of a transfer that consumes the count exactly. */
  lemma {:induction false} RetireListFacts(q: seq<Xfer>, c: nat, k: nat)
    requires Plain(q) && c >= 1 && Longest(q, c, k)
    ensures var t := RetireList(q, c);
            var exact := k > 0 && Sum(Nums(q)[..k]) == c;
            && |t.0| == (if exact then k - 1 else k)
            && t.1 == q[|t.0|..]
            && t.2 == c - Sum(Nums(q)[..|t.0|])
            && forall i :: 0 <= i < |t.0| ==> t.0[i] == Finished(q, c, i)
    decreases |q|
  {
    NoSum(q);
    hide Sum, Nums, RetireList, Finished, Plain;
    RetireListStep(q, c);
    PlainHead(q);
    if q != [] && c > q[0].ticket.num {
      LongestTail(q, c, k);
      RetireListFacts(q[1..], c - q[0].ticket.num, k - 1);
      RetiredTail(q, c, k);
    } else if q != [] {
      NumsCons(q, 1);
      NoSum(q[1..]);
      if k >= 2 {
        TwoExceed(q, k);
      }
      assert q[0..] == q;
    }
  }

  lemma NoSum(q: seq<Xfer>)
    ensures Sum(Nums(q)[..0]) == 0
  {
  }

  lemma PlainHead(q: seq<Xfer>)
    requires Plain(q)
    ensures q != [] ==> q[0].ticket.num >= 1 && !q[0].cyclic && Plain(q[1..])
  {
  }

  lemma RetireListStep(q: seq<Xfer>, c: nat)
    ensures if q != [] && !q[0].cyclic && c > q[0].ticket.num then
              var t := RetireList(q[1..], c - q[0].ticket.num);
              RetireList(q, c) == ([q[0].(state := Completed)] + t.0, t.1, t.2)
            else RetireList(q, c) == ([], q, c)
  {
  }

  lemma LongestTail(q: seq<Xfer>, c: nat, k: nat)
    requires q != [] && c > q[0].ticket.num && Longest(q, c, k)
    ensures k >= 1 && Longest(q[1..], c - q[0].ticket.num, k - 1)
    ensures Sum(Nums(q)[..k]) == q[0].ticket.num + Sum(Nums(q[1..])[..k - 1])
  {
    NumsCons(q, 1);
    NoSum(q[1..]);
    hide Sum, Nums;
    if k > 0 {
      NumsCons(q, k);
    }
    if k < |q| {
      NumsCons(q, k + 1);
    }
  }

  /** The first transfer and what the loop retires behind it. */
  lemma RetiredTail(q: seq<Xfer>, c: nat, k: nat)
    requires q != [] && c > q[0].ticket.num && !q[0].cyclic && 1 <= k <= |q|
    requires var t := RetireList(q[1..], c - q[0].ticket.num);
             && |t.0| < k && t.1 == q[1..][|t.0|..] && t.2 == c - q[0].ticket.num - Sum(Nums(q[1..])[..|t.0|])
             && forall i :: 0 <= i < |t.0| ==> t.0[i] == Finished(q[1..], c - q[0].ticket.num, i)
    ensures var t := RetireList(q, c);
            && |t.0| == |RetireList(q[1..], c - q[0].ticket.num).0| + 1 && t.1 == q[|t.0|..]
            && t.2 == c - Sum(Nums(q)[..|t.0|])
            && forall i :: 0 <= i < |t.0| ==> t.0[i] == Finished(q, c, i)
  {
    hide Sum, Nums, RetireList, Finished;
    RetireListStep(q, c);
    var t, t' := RetireList(q, c), RetireList(q[1..], c - q[0].ticket.num);
    NumsCons(q, |t'.0| + 1);
    assert q[1..][|t'.0|..] == q[|t.0|..];
    forall i | 0 <= i < |t.0|
      ensures t.0[i] == Finished(q, c, i)
    {
      FinishedTail(q, c, i);
    }
  }

  lemma FinishedTail(q: seq<Xfer>, c: nat, i: nat)
    requires i < |q| && c > q[0].ticket.num
    ensures Finished(q, c, i)
            == if i == 0 then q[0].(state := Completed) else Finished(q[1..], c - q[0].ticket.num, i - 1)
  {
    NumsCons(q, i + 1);
    NoSum(q[1..]);
  }

  lemma FinishPlain(e: Engine, done: seq<Xfer>, c: nat, stopped: bool, r: Reading)
    requires !e.eopFlush && !r.error
    ensures var s := Finish(e, done, c, stopped, r);
            && (e.queue == [] ==> s.retired == done && s.eng.queue == [])
            && (e.queue != [] ==>
                  var x := e.queue[0];
                  && s.eng.queue == e.queue[1..]
                  && s.retired == done + [if c < x.ticket.num then x.(state := Failed, cmpl := c)
                                          else x.(state := Completed, cmpl := x.ticket.num)])
  {
  }

  /** A pass with new completions is the list loop, then the judgement of the next transfer. */
  lemma ServiceUnfolds(e: Engine, r: Reading)
    requires e.running && e.dequeued < r.count < 0x1_0000_0000
    ensures var c := r.count - e.dequeued;
            var t := RetireList(e.queue, c);
            Service(e, r) == Finish(e.(running := r.busy, queue := t.1, dequeued := e.dequeued + Sum(Nums(t.0))), t.0,
                                    t.2, !r.busy, r)
  {
    hide Finish, RetireList;
    assert U32(r.count - e.dequeued) == r.count - e.dequeued;
  }

  /** One pass over a queue with c new completions, no error and no eop_flush: exactly the longest
      prefix of total at most c is COMPLETED; a remainder makes the next transfer FAILED with that
      many completed descriptors; every other transfer stays, untouched and in order. */
  lemma PassCompletesLongestPrefix(e: Engine, r: Reading, k: nat)
    requires e.running && !e.eopFlush && !r.error && Plain(e.queue)
    requires e.dequeued < r.count < 0x1_0000_0000
    requires Longest(e.queue, r.count - e.dequeued, k)
    ensures var c := r.count - e.dequeued;
            var rest := c - Sum(Nums(e.queue)[..k]);
            var s := Service(e, r);
            && |s.retired| == (if rest > 0 && k < |e.queue| then k + 1 else k)
            && (forall i :: 0 <= i < k ==> s.retired[i] == Finished(e.queue, c, i))
            && (rest > 0 && k < |e.queue| ==> s.retired[k] == e.queue[k].(state := Failed, cmpl := rest))
            && s.eng.queue == e.queue[|s.retired|..]
  {
    hide Finish, Service, RetireList, Plain;
    var c := r.count - e.dequeued;
    var t := RetireList(e.queue, c);
    RetireListFacts(e.queue, c, k);
    ServiceUnfolds(e, r);
    FinishPlain(e.(running := r.busy, queue := t.1, dequeued := e.dequeued + Sum(Nums(t.0))), t.0, t.2, !r.busy, r);
    if |t.0| < |e.queue| {
      SumTake(Nums(e.queue), |t.0|);
    }
  }
}
