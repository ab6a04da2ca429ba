/** Whole runs of an engine: submissions, hardware progress, hardware stops and service passes. */
module EngineRuns {
  import opened Words
  import opened EngineModel

  /** The hardware run: none, or the transfer whose chain was started, the results of the
      descriptors completed so far, and BUSY. The last descriptor of a chain carries the stop
      flag, so a run never completes more than its own transfer's descriptors. */
  datatype Hardware = Idle | Active(id: nat, num: nat, results: seq<Result>, busy: bool)

  /** The driver and hardware state, with the history of the run: what was submitted, what was
      retired and on which results, and which callbacks fired. */
  datatype System = System(eng: Engine, hw: Hardware, submitted: seq<Ticket>, retired: seq<Xfer>,
                           seen: seq<seq<Result>>, callbacks: seq<nat>, errors: bool)

  datatype Step = Submit(num: nat, last: bool, cb: Option<nat>) | Progress(result: Result) | Halt | Pass(error: bool)

  function Tickets(q: seq<Xfer>): (r: seq<Ticket>)
    ensures |r| == |q|
  {
    seq(|q|, i requires 0 <= i < |q| => q[i].ticket)
  }

  /** engine_transfer_completion: io_done is called for the last transfer of a request only. */
  function CallbackOf(x: Xfer): seq<nat> {
    if x.ticket.last && x.ticket.cb.Some? then [x.ticket.cb.value] else []
  }

  function Callbacks(xs: seq<Xfer>): seq<nat> {
    if xs == [] then [] else Callbacks(xs[..|xs| - 1]) + CallbackOf(xs[|xs| - 1])
  }

  function Launch(x: Xfer): Hardware { Active(x.ticket.id, x.ticket.num, [], true) }

  function ReadingOf(hw: Hardware, error: bool): Reading {
    match hw
    case Idle => Reading(false, error, 0, [])
    case Active(_, _, results, busy) => Reading(busy, error, |results|, results)
  }

  function HardwareAfter(hw: Hardware, o: Serviced): Hardware {
    if o.started && o.eng.queue != [] then Launch(o.eng.queue[0])
    else if o.stopped then Idle
    else hw
  }

  function Apply(s: System, step: Step): System {
    match step
    case Submit(num, last, cb) =>
      var x := Xfer(Ticket(|s.submitted|, num, last, cb), 0, New, false, false);
      var e := Enqueue(s.eng, x);
      s.(eng := e, submitted := s.submitted + [x.ticket],
         hw := if e.running && !s.eng.running && e.queue != [] then Launch(e.queue[0]) else s.hw)
    case Progress(result) => if s.hw.Active? then s.(hw := s.hw.(results := s.hw.results + [result])) else s
    case Halt => if s.hw.Active? then s.(hw := s.hw.(busy := false)) else s
    case Pass(error) =>
      var r := ReadingOf(s.hw, error);
      var o := Service(s.eng, r);
      System(o.eng, HardwareAfter(s.hw, o), s.submitted, s.retired + o.retired,
             s.seen + seq(|o.retired|, _ => r.results), s.callbacks + Callbacks(o.retired), s.errors || error)
  }

  /** When a service pass may run: the hardware has stopped with at least one completed
      descriptor, or the pass cannot take a transfer from under a running engine. */
  predicate PassSafe(s: System, error: bool) {
    !s.eng.running ||
    var r := ReadingOf(s.hw, error);
    if r.count == 0 then r.busy
    else !r.busy || error || |s.eng.queue| == 1 || (s.eng.eopFlush && s.hw.Active? && r.count < s.hw.num)
  }

  predicate Enabled(s: System, step: Step) {
    match step
    case Submit(num, _, _) => 1 <= num < 0x8000_0000
    case Progress(_) => s.hw.Active? && s.hw.busy && |s.hw.results| < s.hw.num
    case Halt => s.hw.Active? && s.hw.busy && s.hw.results != []
    case Pass(error) => PassSafe(s, error)
  }

  /** A transfer that waits in the queue. */
  predicate Waiting(x: Xfer) {
    1 <= x.ticket.num < 0x8000_0000 && x.state == Submitted && !x.eop && !x.cyclic
  }

  /** A transfer that left the queue: failed only after an error or outside eop_flush, and
      otherwise complete, or ended by a packet end among its completed descriptors. */
  predicate Left(x: Xfer, seen: seq<Result>, eopFlush: bool, errors: bool) {
    || (x.state == Failed && (errors || (!eopFlush && x.cmpl == |seen| < x.ticket.num)))
    || (x.state == Completed && x.cmpl == x.ticket.num == |seen|)
    || (x.state == Completed && eopFlush && x.cmpl == |seen| < x.ticket.num && HasEop(seen, x.cmpl))
  }

  /** The hardware run belongs to the head of the queue. */
  predicate RunsHead(s: System) {
    if s.eng.queue == [] then s.hw.Idle?
    else
      && s.hw.Active?
      && s.hw.id == s.eng.queue[0].ticket.id
      && s.hw.num == s.eng.queue[0].ticket.num
      && |s.hw.results| <= s.hw.num
  }

  ghost predicate Control(s: System) {
    && (s.eng.running <==> s.eng.queue != [])
    && RunsHead(s)
    && (s.eng.running ==> s.eng.dequeued == 0)
    && !s.eng.shutRequest
    && forall i :: 0 <= i < |s.eng.queue| ==> Waiting(s.eng.queue[i])
  }

  ghost predicate History(s: System) {
    && s.submitted == Tickets(s.retired) + Tickets(s.eng.queue)
    && (forall i :: 0 <= i < |s.submitted| ==> s.submitted[i].id == i)
    && s.callbacks == Callbacks(s.retired)
    && |s.seen| == |s.retired|
    && forall i :: 0 <= i < |s.retired| ==> Left(s.retired[i], s.seen[i], s.eng.eopFlush, s.errors)
  }

  /** Running iff work is queued, the run is the head's, and every submission is either retired
      or queued, once and in order. */
  ghost predicate Inv(s: System) { Control(s) && History(s) }

  ghost predicate Initial(s: System) {
    s.eng.queue == [] && !s.eng.running && !s.eng.shutRequest && s.hw.Idle?
    && s.submitted == [] && s.retired == [] && s.seen == [] && s.callbacks == [] && !s.errors
  }

  // ---------------------------------------------------------------- one step

  /** A pass on the head: the whole effect of one judgement. */
  function PassResult(e: Engine, r: Reading): Serviced
    requires e.queue != []
  {
    match Judge(e.queue[0], r.count, e.eopFlush, r.error, r.results)
    case Keep(x) =>
      var e' := e.(queue := [x] + e.queue[1..]);
      if r.busy then Serviced(e', [], false, false) else Serviced(Start(e'), [], true, true)
    case Remove(x, stop, n) =>
      var e' := e.(queue := e.queue[1..], dequeued := n);
      if e'.queue == [] then Serviced(e'.(running := false), [x], true, false)
      else if r.busy && !stop then Serviced(e', [x], false, false)
      else Serviced(Start(e'), [x], true, true)
  }

  lemma PassOnHead(s: System, error: bool)
    requires Control(s) && s.eng.queue != [] && s.hw.results != []
    ensures Service(s.eng, ReadingOf(s.hw, error)) == PassResult(s.eng, ReadingOf(s.hw, error))
  {
    var e, r := s.eng, ReadingOf(s.hw, error);
    assert Waiting(e.queue[0]);
    assert U32(r.count - 0) == r.count;
    assert RetireList(e.queue, r.count) == ([], e.queue, r.count);
    assert Sum(Nums([])) == 0;
    assert Service(e, r) == Finish(e.(running := r.busy), [], r.count, !r.busy, r);
  }

  /** What a pass does to the queue: nothing, or it updates the head, or it retires the head. */
  lemma PassQueue(s: System, error: bool)
    requires Control(s) && s.eng.queue != [] && s.hw.results != []
    ensures var o := Service(s.eng, ReadingOf(s.hw, error));
            var v := Judge(s.eng.queue[0], |s.hw.results|, s.eng.eopFlush, error, s.hw.results);
            && o.eng.eopFlush == s.eng.eopFlush && !o.eng.shutRequest
            && (v.Keep? ==> o.retired == [] && o.eng.queue == [v.x] + s.eng.queue[1..])
            && (v.Remove? ==> o.retired == [v.x] && o.eng.queue == s.eng.queue[1..])
            && (v.Keep? ==> o.eng.running && o.started == !s.hw.busy && o.stopped == !s.hw.busy)
            && (v.Remove? && o.eng.queue == [] ==> !o.eng.running && o.stopped && !o.started)
            && (v.Remove? && o.eng.queue != [] ==>
                  o.eng.running && o.started == (!s.hw.busy || v.stop) && o.stopped == o.started)
            && (o.started || v.Keep? ==> o.eng.dequeued == 0)
  {
    PassOnHead(s, error);
  }

  lemma PassKeepsControl(s: System, error: bool)
    requires Control(s) && PassSafe(s, error)
    ensures Control(Apply(s, Pass(error)))
  {
    if s.eng.queue != [] && s.hw.results != [] {
      PassQueue(s, error);
      assert Waiting(s.eng.queue[0]);
      hide Service;
    }
  }

  /** An unsafe pass always leaves a state in which the driver and the hardware disagree. */
  lemma UnsafePassBreaks(s: System, error: bool)
    requires Inv(s) && !PassSafe(s, error)
    ensures !Control(Apply(s, Pass(error)))
  {
    if s.hw.results != [] {
      PassQueue(s, error);
      assert Waiting(s.eng.queue[0]);
      assert s.submitted[|s.retired|] == s.eng.queue[0].ticket;
      assert s.submitted[|s.retired| + 1] == s.eng.queue[1].ticket;
      hide Service;
    }
  }

  lemma CallbacksSnoc(xs: seq<Xfer>, x: Xfer)
    ensures Callbacks(xs + [x]) == Callbacks(xs) + CallbackOf(x)
  {
    assert (xs + [x])[..|xs + [x]| - 1] == xs;
  }

  /** A judged transfer leaves for a reason that its results show. */
  lemma JudgedLeft(x: Xfer, eopFlush: bool, error: bool, results: seq<Result>)
    requires Waiting(x) && 1 <= |results| <= x.ticket.num
    ensures var v := Judge(x, |results|, eopFlush, error, results);
            && v.x.ticket == x.ticket
            && (v.Remove? ==> Left(v.x, results, eopFlush, error))
            && (v.Keep? ==> Waiting(v.x))
  {
  }

  lemma PassKeepsHistory(s: System, error: bool)
    requires Inv(s)
    ensures History(Apply(s, Pass(error)))
  {
    var s' := Apply(s, Pass(error));
    if s.eng.queue != [] && s.hw.results != [] {
      PassQueue(s, error);
      var x := s.eng.queue[0];
      JudgedLeft(x, s.eng.eopFlush, error, s.hw.results);
      var v := Judge(x, |s.hw.results|, s.eng.eopFlush, error, s.hw.results);
      hide Service, Judge, Waiting;
      if v.Remove? {
        RetireHistory(s, s', v.x);
      } else {
        KeepHistory(s, s', v.x);
      }
    } else {
      KeepHistoryIdle(s, s');
    }
  }

  lemma RetireHistory(s: System, s': System, x: Xfer)
    requires History(s) && s.eng.queue != [] && x.ticket == s.eng.queue[0].ticket
    requires s'.submitted == s.submitted && s'.eng.queue == s.eng.queue[1..] && s'.eng.eopFlush == s.eng.eopFlush
    requires s'.retired == s.retired + [x] && |s'.seen| == |s'.retired| && s'.seen[..|s.seen|] == s.seen
    requires s'.callbacks == s.callbacks + Callbacks([x]) && (s.errors ==> s'.errors)
    requires Left(x, s'.seen[|s.seen|], s.eng.eopFlush, s'.errors)
    ensures History(s')
  {
    hide Callbacks, CallbackOf, Left;
    CallbacksSnoc(s.retired, x);
    OneCallback(x);
    assert Tickets(s.eng.queue) == [x.ticket] + Tickets(s.eng.queue[1..]);
    assert Tickets(s.retired + [x]) == Tickets(s.retired) + [x.ticket];
    forall i | 0 <= i < |s'.retired|
      ensures Left(s'.retired[i], s'.seen[i], s'.eng.eopFlush, s'.errors)
    {
      if i < |s.retired| {
        assert s'.seen[i] == s.seen[i] && s'.retired[i] == s.retired[i];
        LeftMonotone(s.retired[i], s.seen[i], s.eng.eopFlush, s.errors, s'.errors);
      }
    }
  }

  lemma OneCallback(x: Xfer)
    ensures Callbacks([x]) == CallbackOf(x)
  {
    CallbacksSnoc([], x);
    assert [] + [x] == [x];
  }

  lemma LeftMonotone(x: Xfer, seen: seq<Result>, eopFlush: bool, errors: bool, errors': bool)
    requires Left(x, seen, eopFlush, errors) && (errors ==> errors')
    ensures Left(x, seen, eopFlush, errors')
  {
  }

  lemma KeepHistory(s: System, s': System, x: Xfer)
    requires History(s) && s.eng.queue != [] && x.ticket == s.eng.queue[0].ticket
    requires s'.eng.queue == [x] + s.eng.queue[1..]
    requires s'.submitted == s.submitted && s'.retired == s.retired && s'.seen == s.seen
    requires s'.callbacks == s.callbacks && (s.errors ==> s'.errors) && s'.eng.eopFlush == s.eng.eopFlush
    ensures History(s')
  {
    assert Tickets([x] + s.eng.queue[1..]) == Tickets(s.eng.queue);
    forall i | 0 <= i < |s.retired|
      ensures Left(s'.retired[i], s'.seen[i], s'.eng.eopFlush, s'.errors)
    {
      assert Left(s.retired[i], s.seen[i], s.eng.eopFlush, s.errors);
    }
  }

  lemma KeepHistoryIdle(s: System, s': System)
    requires History(s)
    requires s'.eng.queue == s.eng.queue
    requires s'.submitted == s.submitted && s'.retired == s.retired && s'.seen == s.seen
    requires s'.callbacks == s.callbacks && (s.errors ==> s'.errors) && s'.eng.eopFlush == s.eng.eopFlush
    ensures History(s')
  {
    forall i | 0 <= i < |s.retired|
      ensures Left(s'.retired[i], s'.seen[i], s'.eng.eopFlush, s'.errors)
    {
      assert Left(s.retired[i], s.seen[i], s.eng.eopFlush, s.errors);
    }
  }

  lemma SubmitKeeps(s: System, num: nat, last: bool, cb: Option<nat>)
    requires Inv(s) && 1 <= num < 0x8000_0000
    ensures Inv(Apply(s, Submit(num, last, cb)))
  {
    var x := Xfer(Ticket(|s.submitted|, num, last, cb), 0, Submitted, false, false);
    var s' := Apply(s, Submit(num, last, cb));
    assert s'.eng.queue == s.eng.queue + [x];
    assert Tickets(s.eng.queue + [x]) == Tickets(s.eng.queue) + [x.ticket];
  }

  lemma StepKeeps(s: System, step: Step)
    requires Inv(s) && Enabled(s, step)
    ensures Inv(Apply(s, step))
  {
    match step
    case Submit(num, last, cb) => SubmitKeeps(s, num, last, cb);
    case Progress(_) =>
    case Halt =>
    case Pass(error) =>
      PassKeepsControl(s, error);
      PassKeepsHistory(s, error);
  }

  /** In any state between steps, a service pass keeps the invariant exactly when it is safe. */
  lemma PassKeepsExactly(s: System, error: bool)
    requires Inv(s)
    ensures Inv(Apply(s, Pass(error))) <==> PassSafe(s, error)
  {
    if PassSafe(s, error) {
      StepKeeps(s, Pass(error));
    } else {
      UnsafePassBreaks(s, error);
    }
  }

  // ---------------------------------------------------------------- every run

  ghost predicate Run(states: seq<System>, steps: seq<Step>) {
    && |states| == |steps| + 1
    && Initial(states[0])
    && forall i :: 0 <= i < |steps| ==> Enabled(states[i], steps[i]) && states[i + 1] == Apply(states[i], steps[i])
  }

  lemma {:induction false} RunsKeepInv(states: seq<System>, steps: seq<Step>, i: nat)
    requires Run(states, steps) && i < |states|
    ensures Inv(states[i])
    decreases i
  {
    if i == 0 {
      assert states[0].submitted == Tickets(states[0].retired) + Tickets(states[0].eng.queue);
    } else {
      RunsKeepInv(states, steps, i - 1);
      StepKeeps(states[i - 1], steps[i - 1]);
    }
  }

  /** Retirement is FIFO and happens once: the i-th retired transfer is the i-th submitted one,
      and the i-th queued transfer was submitted right after everything already retired. */
  lemma RetiredInOrder(s: System)
    requires Inv(s)
    ensures |s.submitted| == |s.retired| + |s.eng.queue|
    ensures forall i :: 0 <= i < |s.retired| ==> s.retired[i].ticket == s.submitted[i]
    ensures forall i :: 0 <= i < |s.eng.queue| ==> s.eng.queue[i].ticket == s.submitted[|s.retired| + i]
    ensures forall i, j :: 0 <= i < j < |s.retired| ==> s.retired[i].ticket.id != s.retired[j].ticket.id
  {
    forall i | 0 <= i < |s.retired|
      ensures s.retired[i].ticket == s.submitted[i]
    {
      assert Tickets(s.retired)[i] == s.retired[i].ticket;
    }
    forall i | 0 <= i < |s.eng.queue|
      ensures s.eng.queue[i].ticket == s.submitted[|s.retired| + i]
    {
      assert Tickets(s.eng.queue)[i] == s.eng.queue[i].ticket;
    }
  }

  // ---------------------------------------------------------------- completion callbacks

  /** The callbacks that these submissions are owed: one for each last transfer that has a handle. */
  function Owed(ts: seq<Ticket>): seq<nat> {
    if ts == [] then []
    else
      var t := ts[|ts| - 1];
      Owed(ts[..|ts| - 1]) + if t.last && t.cb.Some? then [t.cb.value] else []
  }

  lemma {:induction false} CallbacksAreOwed(xs: seq<Xfer>)
    ensures Callbacks(xs) == Owed(Tickets(xs))
    decreases |xs|
  {
    if xs != [] {
      var n := |xs| - 1;
      CallbacksAreOwed(xs[..n]);
      assert Tickets(xs)[..n] == Tickets(xs[..n]);
    }
  }

  /** The callbacks fired so far are, in order, those owed for what has been retired; handles may
      be used again. */
  lemma CallbacksExact(s: System)
    requires Inv(s)
    ensures |s.retired| <= |s.submitted| && s.callbacks == Owed(s.submitted[..|s.retired|])
  {
    hide Callbacks, Owed, Left, Control, Waiting;
    CallbacksAreOwed(s.retired);
    assert s.submitted[..|s.retired|] == Tickets(s.retired);
  }

  /** The submissions from position `first` to `final` form a request with callback h: only the
      last of them is flagged. */
  ghost predicate IsRequest(submitted: seq<Ticket>, h: nat, first: nat, final: nat) {
    && first <= final < |submitted|
    && submitted[final].last
    && (forall i :: first <= i <= final ==> submitted[i].cb == Some(h))
    && (forall i :: first <= i < final ==> !submitted[i].last)
  }

  lemma {:induction false} OwedPrefix(ts: seq<Ticket>, k: nat)
    requires k <= |ts|
    ensures Owed(ts[..k]) <= Owed(ts)
    decreases |ts|
  {
    if k < |ts| {
      var n := |ts| - 1;
      OwedPrefix(ts[..n], k);
      assert ts[..n][..k] == ts[..k];
    } else {
      assert ts[..k] == ts;
    }
  }

  /** A request owns one place in the sequence of callbacks: that of its last transfer. It is filled
      with the request's handle exactly from the retirement of that transfer on, hence of all the
      request's transfers. */
  lemma CallbackOnce(s: System, h: nat, first: nat, final: nat)
    requires Inv(s) && IsRequest(s.submitted, h, first, final)
    ensures var place := |Owed(s.submitted[..final])|;
            && (place < |s.callbacks| <==> final < |s.retired|)
            && (final < |s.retired| ==> s.callbacks[place] == h)
    ensures final < |s.retired| ==> forall i :: first <= i <= final ==> s.retired[i].ticket == s.submitted[i]
  {
    hide Inv, Owed;
    RetiredInOrder(s);
    CallbacksExact(s);
    OwnPlace(s.submitted, h, final);
    var done := s.submitted[..|s.retired|];
    if final < |s.retired| {
      OwedPrefix(done, final + 1);
      assert done[..final + 1] == s.submitted[..final + 1];
    } else {
      OwedPrefix(s.submitted[..final], |s.retired|);
      assert s.submitted[..final][..|s.retired|] == done;
    }
  }

  /** No other request has that place, whether or not it uses the same handle. */
  lemma PlacesDiffer(ts: seq<Ticket>, g: nat, h: nat, from: nat, other: nat, first: nat, final: nat)
    requires IsRequest(ts, g, from, other) && IsRequest(ts, h, first, final) && other != final
    ensures |Owed(ts[..other])| != |Owed(ts[..final])|
  {
    hide Owed;
    if other < final {
      Earlier(ts, g, other, final);
    } else {
      Earlier(ts, h, final, other);
    }
  }

  lemma OwnPlace(ts: seq<Ticket>, h: nat, final: nat)
    requires final < |ts| && ts[final].last && ts[final].cb == Some(h)
    ensures Owed(ts[..final + 1]) == Owed(ts[..final]) + [h]
  {
    assert ts[..final + 1][..final] == ts[..final];
  }

  lemma Earlier(ts: seq<Ticket>, h: nat, i: nat, j: nat)
    requires i < j <= |ts| && ts[i].last && ts[i].cb == Some(h)
    ensures |Owed(ts[..i])| < |Owed(ts[..j])|
  {
    OwnPlace(ts, h, i);
    OwedPrefix(ts[..j], i + 1);
    assert ts[..j][..i + 1] == ts[..i + 1];
  }

  lemma InvHead(s: System)
    requires Inv(s) && s.eng.queue != []
    ensures Control(s) && s.eng.queue[0].state == Submitted
  {
    assert Waiting(s.eng.queue[0]);
  }

  lemma JudgedState(x: Xfer, c: nat, eopFlush: bool, error: bool, results: seq<Result>)
    ensures var v := Judge(x, c, eopFlush, error, results);
            && v.x.ticket == x.ticket
               && CallbackOf(v.x) == (if x.ticket.last && x.ticket.cb.Some? then [x.ticket.cb.value] else [])
            && ((v.Remove? && v.x.state == Failed) <==> (error || (!eopFlush && c < x.ticket.num)))
  {
  }

  lemma NoCallback()
    ensures Callbacks([]) == []
  {
  }

  /** io_done is told of success whatever happened: the head leaves failed exactly on an error bit
      or, outside eop_flush, short of its count; and its callback fires as for a completed one. */
  lemma FailureFiresCallback(s: System, error: bool)
    requires Inv(s) && s.eng.queue != [] && s.hw.results != []
    ensures var s', x := Apply(s, Pass(error)), s.eng.queue[0];
            && ((|s'.retired| > |s.retired| && s'.retired[|s.retired|].state == Failed) <==>
                  (error || (!s.eng.eopFlush && |s.hw.results| < x.ticket.num)))
            && (|s'.retired| > |s.retired| ==>
                  && |s'.retired| == |s.retired| + 1 && s'.retired[|s.retired|].ticket == x.ticket
                  && s'.callbacks == s.callbacks + if x.ticket.last && x.ticket.cb.Some? then [x.ticket.cb.value]
                     else [])
  {
    hide Service, Judge, Left, Waiting, Callbacks, Owed, CallbackOf;
    InvHead(s);
    PassQueue(s, error);
    var v := Judge(s.eng.queue[0], |s.hw.results|, s.eng.eopFlush, error, s.hw.results);
    JudgedState(s.eng.queue[0], |s.hw.results|, s.eng.eopFlush, error, s.hw.results);
    OneCallback(v.x);
    NoCallback();
  }

  // ---------------------------------------------------------------- eop_flush

  /** With eop_flush and no error, a transfer leaves the queue only when all its descriptors are
      complete or a packet end lies among the completed ones. */
  lemma LeavesOnEopOrComplete(states: seq<System>, steps: seq<Step>, i: nat, k: nat)
    requires Run(states, steps) && i < |states| && k < |states[i].retired|
    requires states[i].eng.eopFlush && !states[i].errors
    ensures k < |states[i].seen|
    ensures var x, seen := states[i].retired[k], states[i].seen[k];
            && x.state == Completed && x.cmpl == |seen|
            && (x.cmpl == x.ticket.num || exists j :: 0 <= j < x.cmpl && seen[j].eop)
  {
    RunsKeepInv(states, steps, i);
    assert Left(states[i].retired[k], states[i].seen[k], states[i].eng.eopFlush, states[i].errors);
  }

  /** And it does leave: in any reachable state, a pass without an error over new completions retires
      the head exactly when all its descriptors are complete or any completed one ends a packet, the
      newest included; it is then completed, with the hardware's count. */
  lemma EopRetiresHead(states: seq<System>, steps: seq<Step>, i: nat)
    requires Run(states, steps) && i < |states| && states[i].eng.eopFlush
    requires states[i].eng.queue != [] && states[i].hw.Active? && states[i].hw.results != []
    ensures var s, s' := states[i], Apply(states[i], Pass(false));
            var x, n := s.eng.queue[0], |s.hw.results|;
            && n <= x.ticket.num
            && (|s'.retired| > |s.retired| <==>
                  n == x.ticket.num || exists j :: 0 <= j < n && s.hw.results[j].eop)
            && (|s'.retired| > |s.retired| ==>
                  && s'.eng.queue == s.eng.queue[1..] && |s'.retired| == |s.retired| + 1
                  && s'.retired[|s.retired|].ticket == x.ticket
                  && s'.retired[|s.retired|].state == Completed && s'.retired[|s.retired|].cmpl == n)
            && (|s'.retired| == |s.retired| ==> Tickets(s'.eng.queue) == Tickets(s.eng.queue))
  {
    RunsKeepInv(states, steps, i);
    var s := states[i];
    var x, n, results := s.eng.queue[0], |s.hw.results|, s.hw.results;
    hide Service, Judge, Left, Waiting, Callbacks;
    InvHead(s);
    PassQueue(s, false);
    HeadCount(s);
    EopJudgement(x, n, results);
    var v := Judge(x, n, true, false, results);
    if v.Keep? {
      assert Tickets([v.x] + s.eng.queue[1..]) == Tickets(s.eng.queue);
    }
  }

  lemma HeadCount(s: System)
    requires Inv(s) && s.eng.queue != []
    ensures s.hw.Active? && |s.hw.results| <= s.eng.queue[0].ticket.num && !s.eng.queue[0].eop
  {
    assert Waiting(s.eng.queue[0]);
  }

  lemma EopJudgement(x: Xfer, n: nat, results: seq<Result>)
    requires !x.eop && n == |results| <= x.ticket.num
    ensures var v := Judge(x, n, true, false, results);
            && v.x.ticket == x.ticket
            && (v.Remove? <==> n == x.ticket.num || exists j :: 0 <= j < n && results[j].eop)
            && (v.Remove? ==> v.x.state == Completed && v.x.cmpl == n)
  {
  }
}
