/** Over whole runs, what is delivered is what was submitted, with the result of the call that decided it. */
module Results {
  import opened Engine
  import opened Conservation
  import opened Await
  import opened Text

  // ------------------------------------------------------------- whose event it is

  /** A submission as it was made. */
  datatype Order = Order(s: nat, op: Op, cb: Callback)

  function Ordered(step: Step): seq<Order> {
    if step.Submitted? then [Order(step.s, step.op, step.cb)] else []
  }

  /** The submissions of a run, by identity. */
  function Orders(steps: seq<Step>): seq<Order> {
    if steps == [] then []
    else Ordered(steps[0]) + Orders(steps[1..])
  }

  /** Every finished event has the callback submitted with its identity; every armed slot the socket and
      the operation as well. */
  ghost predicate Faithful(st: State, orders: seq<Order>) {
    && |orders| == st.next
    && (forall i :: 0 <= i < |Finished(st)| ==>
          Finished(st)[i].id < |orders| && Finished(st)[i].cb == orders[Finished(st)[i].id].cb)
    && (forall s :: ArmedAt(st, s) ==>
          st.slots[s].ev.id < |orders| && orders[st.slots[s].ev.id] == Order(s, st.slots[s].kind, st.slots[s].ev.cb))
  }

  /** What keeps that: an event more at most, which is faithful itself, and no armed slot that is not. */
  lemma StaysFaithful(st: State, st': State, orders: seq<Order>, orders': seq<Order>, done: seq<Event>)
    requires Faithful(st, orders) && orders <= orders' && |orders'| == st'.next && Finished(st') == Finished(st) + done
    requires forall i :: 0 <= i < |done| ==> done[i].id < |orders'| && done[i].cb == orders'[done[i].id].cb
    requires forall s :: ArmedAt(st', s) ==>
      (ArmedAt(st, s) && st'.slots[s].kind == st.slots[s].kind && st'.slots[s].ev == st.slots[s].ev)
      || (&& st'.slots[s].ev.id < |orders'|
          && orders'[st'.slots[s].ev.id] == Order(s, st'.slots[s].kind, st'.slots[s].ev.cb))
    ensures Faithful(st', orders')
  {
  }

  lemma SubmittedStaysFaithful(st: State, s: nat, op: Op, result: int, cb: Callback, orders: seq<Order>)
    requires Faithful(st, orders)
    ensures Faithful(Submit(st, s, op, result, cb), orders + [Order(s, op, cb)])
  {
    var st' := Submit(st, s, op, result, cb);
    var done := SubmitSlot(SlotOf(st, s), op, Event(st.next, WAITING, 0, 0, cb), result).1;
    assert Finished(st') == Finished(st) + done;
    StaysFaithful(st, st', orders, orders + [Order(s, op, cb)], done);
  }

  lemma ReportedStaysFaithful(st: State, r: Report, orders: seq<Order>)
    requires Faithful(st, orders) && Legal(st, Reported(r))
    ensures Faithful(OnReport(st, r), orders)
  {
    var st' := OnReport(st, r);
    var done := ReportSlot(SlotOf(st, r.sock), r).1;
    ReportFinishesOne(SlotOf(st, r.sock), r);
    ReportTells(SlotOf(st, r.sock), r);
    assert Finished(st') == Finished(st) + done;
    StaysFaithful(st, st', orders, orders, done);
  }

  lemma StepStaysFaithful(st: State, step: Step, orders: seq<Order>)
    requires Faithful(st, orders) && Legal(st, step)
    ensures Faithful(Apply(st, step), orders + Ordered(step))
  {
    assert orders + [] == orders;
    match step
    case Submitted(s, op, result, cb) => SubmittedStaysFaithful(st, s, op, result, cb, orders);
    case Reported(r) => ReportedStaysFaithful(st, r, orders);
    case Delivered =>
      assert Finished(Deliver(st)) == Finished(st) + [];
      StaysFaithful(st, Deliver(st), orders, orders, []);
    case Ended => StaysFaithful(st, st.(running := false), orders, orders, []);
  }

  lemma OrdersSplit(orders: seq<Order>, steps: seq<Step>)
    requires steps != []
    ensures orders + Ordered(steps[0]) + Orders(steps[1..]) == orders + Orders(steps)
  {
    Associate(orders, Ordered(steps[0]), Orders(steps[1..]));
  }

  lemma {:induction false} RunStaysFaithful(st: State, steps: seq<Step>, orders: seq<Order>)
    requires Faithful(st, orders) && LegalRun(st, steps)
    ensures Faithful(Run(st, steps), orders + Orders(steps))
    decreases |steps|
  {
    if steps == [] {
      assert orders + Orders(steps) == orders;
    } else {
      StepStaysFaithful(st, steps[0], orders);
      RunStaysFaithful(Apply(st, steps[0]), steps[1..], orders + Ordered(steps[0]));
      OrdersSplit(orders, steps);
    }
  }

  /** What is delivered over a run goes to the callback it was submitted with. */
  lemma DeliveredToItsCallback(steps: seq<Step>, i: nat)
    requires LegalRun(BLANK, steps) && i < |Run(BLANK, steps).delivered|
    ensures var e := Run(BLANK, steps).delivered[i]; e.id < |Orders(steps)| && e.cb == Orders(steps)[e.id].cb
  {
    RunStaysFaithful(BLANK, steps, []);
    assert [] + Orders(steps) == Orders(steps);
    var st := Run(BLANK, steps);
    assert Finished(st)[i] == st.delivered[i];
  }

  // ------------------------------------------------------------- which call decides it

  /** The event is the one submitted by this step, or the one this step finds armed, as the call made
      in this step finishes it. */
  ghost predicate Decides(st: State, step: Step, e: Event) {
    match step
    case Submitted(s, op, result, cb) =>
      && TriesNow(SlotOf(st, s), op) && result != -EWOULDBLOCK
      && e == Finish(Event(st.next, WAITING, 0, 0, cb), Forced(op, result))
    case Reported(r) =>
      && ArmedAt(st, r.sock) && Tells(st.slots[r.sock].kind, r)
      && e == Finish(st.slots[r.sock].ev, Told(st.slots[r.sock].kind, r))
    case _ => false
  }

  lemma StepDecides(st: State, step: Step)
    requires Legal(st, step)
    ensures var st' := Apply(st, step);
      forall i :: |Finished(st)| <= i < |Finished(st')| ==> Decides(st, step, Finished(st')[i])
  {
    var st' := Apply(st, step);
    match step
    case Submitted(s, op, result, cb) =>
      var done := SubmitSlot(SlotOf(st, s), op, Event(st.next, WAITING, 0, 0, cb), result).1;
      assert Finished(st') == Finished(st) + done;
    case Reported(r) =>
      ReportTells(SlotOf(st, r.sock), r);
      assert Finished(st') == Finished(st) + ReportSlot(SlotOf(st, r.sock), r).1;
    case Delivered => assert Finished(st') == Finished(st);
    case Ended =>
  }

  /** Every event that finishes over a run is decided by one of its steps. */
  lemma {:induction false} EveryFinishDecided(st: State, steps: seq<Step>, i: nat) returns (k: nat)
    requires LegalRun(st, steps) && |Finished(st)| <= i < |Finished(Run(st, steps))|
    ensures k < |steps| && LegalRun(st, steps[..k])
    ensures Decides(Run(st, steps[..k]), steps[k], Finished(Run(st, steps))[i])
    decreases |steps|
  {
    var st' := Apply(st, steps[0]);
    if i < |Finished(st')| {
      k := 0;
      StepDecides(st, steps[0]);
      FirstFinishedFirst(st', steps[1..]);
    } else {
      k := EveryFinishDecided(st', steps[1..], i);
      k := k + 1;
      assert steps[..k][1..] == steps[1..][..k - 1];
    }
  }

  // ------------------------------------------------------------- what its callback is told

  /** What the caller learns is the result of that call, and nothing else: a length or a negative errno
      from what returns lengths, an errno from what does not. */
  predicate Learns(kind: Op, outcome: int, e: Event) {
    if ReturnsLength(kind) then -INT_LIMIT < outcome < INT_LIMIT ==> Awaited(e) == outcome
    else e.error == -outcome
  }

  /** What a report says, as its callback learns it. */
  predicate Reports(kind: Op, r: Report, e: Event) {
    if r.err then e.error == r.sockErr
    else if r.hup then e.error == HANGUP_ERROR
    else if ReadKind(kind) || kind == SIGNAL then Learns(kind, r.inResult, e)
    else if WriteKind(kind) then Learns(kind, r.outResult, e)
    else e.error == 0
  }

  /** The callback learns the result of the call made in this step. */
  ghost predicate Yields(st: State, step: Step, e: Event) {
    match step
    case Submitted(_, op, result, _) => Learns(op, result, e)
    case Reported(r) => ArmedAt(st, r.sock) && Reports(st.slots[r.sock].kind, r, e)
    case _ => false
  }

  lemma ForcedIsLearnt(kind: Op, ev: Event, result: int)
    requires Untouched(ev)
    ensures Learns(kind, result, Finish(ev, Forced(kind, result)))
  {
    if ReturnsLength(kind) && -INT_LIMIT < result < INT_LIMIT {
      ForcedIsAwaited(kind, ev, result);
    }
  }

  lemma ToldIsLearnt(slot: Slot, r: Report)
    requires Armed(slot) && Untouched(slot.ev)
    ensures Reports(slot.kind, r, Finish(slot.ev, Told(slot.kind, r)))
  {
    if r.err || r.hup {
    } else if ReadKind(slot.kind) {
      ForcedIsLearnt(slot.kind, slot.ev, r.inResult);
    } else if WriteKind(slot.kind) {
      ForcedIsLearnt(slot.kind, slot.ev, r.outResult);
    } else if slot.kind == SIGNAL && -INT_LIMIT < r.inResult < INT_LIMIT {
      SizeRoundTrip(r.inResult);
    }
  }

  lemma DecidedYields(st: State, step: Step, e: Event)
    requires Conserved(st) && Decides(st, step, e)
    ensures Yields(st, step, e)
  {
    match step
    case Submitted(s, op, result, cb) => ForcedIsLearnt(op, Event(st.next, WAITING, 0, 0, cb), result);
    case Reported(r) => ToldIsLearnt(st.slots[r.sock], r);
    case _ =>
  }

  /** Over every run each delivered event is decided by one of its steps, the one that submitted it or
      the one that found it armed, and tells its callback the result of the call made then. */
  lemma DeliveredYieldsResult(steps: seq<Step>, i: nat) returns (k: nat)
    requires LegalRun(BLANK, steps) && i < |Run(BLANK, steps).delivered|
    ensures k < |steps| && LegalRun(BLANK, steps[..k])
    ensures Decides(Run(BLANK, steps[..k]), steps[k], Run(BLANK, steps).delivered[i])
    ensures Yields(Run(BLANK, steps[..k]), steps[k], Run(BLANK, steps).delivered[i])
  {
    var st := Run(BLANK, steps);
    assert Finished(st)[i] == st.delivered[i];
    k := EveryFinishDecided(BLANK, steps, i);
    RunConserves(BLANK, steps[..k]);
    DecidedYields(Run(BLANK, steps[..k]), steps[k], st.delivered[i]);
  }

  // ------------------------------------------------------------- connecting

  /** Over every run a connection's callback learns 0 exactly if connect() succeeded on submission, or
      output was reported while the connection waited, without error and hang-up. */
  lemma ConnectionLearns(steps: seq<Step>, i: nat) returns (k: nat)
    requires LegalRun(BLANK, steps) && i < |Run(BLANK, steps).delivered|
    ensures k < |steps| && LegalRun(BLANK, steps[..k])
    ensures var e, st := Run(BLANK, steps).delivered[i], Run(BLANK, steps[..k]);
      match steps[k]
      case Submitted(_, op, result, _) => e.id == st.next && (op == CONNECT ==> Connected(e) == -result)
      case Reported(r) =>
        && ArmedAt(st, r.sock) && e.id == st.slots[r.sock].ev.id
        && (st.slots[r.sock].kind == CONNECT && (r.err ==> r.sockErr != 0) ==>
              (Connected(e) == 0 <==> r.output && !r.err && !r.hup))
      case _ => false
  {
    k := DeliveredYieldsResult(steps, i);
    RunConserves(BLANK, steps[..k]);
  }

  /** What a nonblocking connect() of a TCP socket reports on Linux. */
  const EINPROGRESS := 115

  /** A connection is waited for exactly if connect() said -EWOULDBLOCK; one that is in progress has
      failed by then. */
  lemma ConnectWaits(st: State, s: nat, result: int, cb: Callback)
    ensures var st' := Submit(st, s, CONNECT, result, cb);
      && (Armed(SlotOf(st', s)) <==> result == -EWOULDBLOCK)
      && (result == -EINPROGRESS ==> st'.queue == st.queue + [Event(st.next, ERR, EINPROGRESS, 0, cb)])
  {
  }
}
