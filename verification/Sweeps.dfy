/** The sweep, callbacks included, is a run: it ends, delivers in order, and conserves events. */
module Sweeps {
  import opened Engine
  import opened Conservation

  // ------------------------------------------------------------- runs in a row

  lemma {:induction false} RunSplit(st: State, a: seq<Step>, b: seq<Step>)
    requires LegalRun(st, a) && LegalRun(Run(st, a), b)
    ensures LegalRun(st, a + b) && Run(st, a + b) == Run(Run(st, a), b)
    decreases |a|
  {
    if a == [] {
      assert a + b == b;
    } else {
      RunSplit(Apply(st, a[0]), a[1..], b);
      assert (a + b)[1..] == a[1..] + b;
    }
  }

  // ------------------------------------------------------------- one callback

  function StepsOf(actions: seq<Action>): seq<Step> {
    if actions == [] then []
    else
      [match actions[0]
       case Submission(s, op, result, cb) => Submitted(s, op, result, cb)
       case End => Ended] + StepsOf(actions[1..])
  }

  lemma {:induction false} ActsIsRun(st: State, actions: seq<Action>)
    ensures LegalRun(st, StepsOf(actions)) && Run(st, StepsOf(actions)) == Acts(st, actions)
    decreases |actions|
  {
    if actions == [] {
    } else {
      ActsIsRun(Act(st, actions[0]), actions[1..]);
      assert StepsOf(actions)[1..] == StepsOf(actions[1..]);
    }
  }

  /** What a callback does never depends on the list, so the event may as well be erased first. */
  lemma {:induction false} ActsDespite(st: State, actions: seq<Action>)
    requires st.queue != []
    ensures Acts(Deliver(st), actions) == Deliver(Acts(st, actions))
    decreases |actions|
  {
    if actions == [] {
    } else {
      var st' := Act(st, actions[0]);
      assert Act(Deliver(st), actions[0]) == Deliver(st') by {
        assert st.queue <= st'.queue;
        assert st'.queue[1..] == st.queue[1..] + st'.queue[|st.queue|..];
      }
      ActsDespite(st', actions[1..]);
    }
  }

  lemma FireIsRun(st: State)
    requires st.queue != []
    ensures LegalRun(st, [Delivered] + StepsOf(st.queue[0].cb.actions))
    ensures Run(st, [Delivered] + StepsOf(st.queue[0].cb.actions)) == Fire(st)
  {
    var actions := st.queue[0].cb.actions;
    ActsDespite(st, actions);
    ActsIsRun(Deliver(st), actions);
    assert ([Delivered] + StepsOf(actions))[1..] == StepsOf(actions);
    assert Acts(st, actions).queue[0] == st.queue[0];
  }

  // ------------------------------------------------------------- the sweep

  lemma {:induction false} SweepIsRun(st: State) returns (steps: seq<Step>)
    ensures LegalRun(st, steps) && Run(st, steps) == Sweep(st)
    decreases QueueSize(st.queue)
  {
    if st.queue == [] {
      steps := [];
    } else {
      FireShrinks(st);
      FireIsRun(st);
      var first := [Delivered] + StepsOf(st.queue[0].cb.actions);
      var rest := SweepIsRun(Fire(st));
      RunSplit(st, first, rest);
      steps := first + rest;
    }
  }

  /** A sweep conserves events, ends with nothing waiting, and delivers everything that finished,
      before it or in it, in the order of finishing. */
  lemma SweepDeliversAll(st: State)
    requires Conserved(st)
    ensures Conserved(Sweep(st)) && Sweep(st).queue == []
    ensures Finished(st) <= Sweep(st).delivered
  {
    var steps := SweepIsRun(st);
    RunConserves(st, steps);
    FirstFinishedFirst(st, steps);
    assert Finished(Sweep(st)) == Sweep(st).delivered;
  }

  /** The first `n` deliveries of a sweep. */
  ghost function Fires(st: State, n: nat): State
    requires n <= |st.queue|
    decreases n
  {
    if n == 0 then st
    else
      assert |Fire(st).queue| >= |st.queue| - 1;
      Fires(Fire(st), n - 1)
  }

  /** What the callbacks of these events do, in order. */
  function ActionsOf(events: seq<Event>): seq<Action> {
    if events == [] then [] else events[0].cb.actions + ActionsOf(events[1..])
  }

  lemma {:induction false} ActsSplit(st: State, a: seq<Action>, b: seq<Action>)
    ensures Acts(st, a + b) == Acts(Acts(st, a), b)
    decreases |a|
  {
    if a == [] {
      assert a + b == b;
    } else {
      ActsSplit(Act(st, a[0]), a[1..], b);
      assert (a + b)[1..] == a[1..] + b;
    }
  }

  /** The state after all actions of the first `n` waiting events, with those events delivered. */
  function Round(st: State, n: nat): State
    requires n <= |st.queue|
  {
    var all := Acts(st, ActionsOf(st.queue[..n]));
    all.(queue := all.queue[n..], delivered := st.delivered + st.queue[..n])
  }

  /** The first delivery of a round, and the rest of it. */
  lemma RoundStep(st: State, n: nat)
    requires 0 < n <= |st.queue|
    ensures |Fire(st).queue| >= n - 1 && Round(Fire(st), n - 1) == Round(st, n)
  {
    var first, events := st.queue[0].cb.actions, st.queue[..n];
    var st1 := Acts(st, first);
    var rest := ActionsOf(events[1..]);
    assert Fire(st) == Deliver(st1);
    assert st1.queue[1..][..n - 1] == events[1..];
    ActsSplit(st, first, rest);
    ActsDespite(st1, rest);
    var all := Acts(st, ActionsOf(events));
    assert all == Acts(st1, rest);
    assert all.queue[1..][n - 1..] == all.queue[n..];
    assert st.delivered + [st.queue[0]] + events[1..] == st.delivered + events;
  }

  /** Breadth first: a round delivers exactly the events that were waiting, and what waits after it is
      what was waiting behind them and then what their callbacks made finish, in order; the sweep goes on
      from there. */
  lemma {:induction false} Rounds(st: State, n: nat)
    requires n <= |st.queue|
    ensures Fires(st, n) == Round(st, n) && st.queue[n..] <= Round(st, n).queue
    ensures Sweep(Fires(st, n)) == Sweep(st)
    decreases n
  {
    assert st.queue <= Acts(st, ActionsOf(st.queue[..n])).queue;
    if n == 0 {
      assert st.queue[..0] == [] && st.queue[0..] == st.queue && st.delivered + [] == st.delivered;
    } else {
      RoundStep(st, n);
      Rounds(Fire(st), n - 1);
    }
  }

  // ------------------------------------------------------------- the loop

  /** Every report is for a slot that was set, and an error for one that is armed. */
  predicate LegalReports(st: State, rs: seq<Report>)
    decreases |rs|
  {
    rs == [] || (Legal(st, Reported(rs[0])) && LegalReports(OnReport(st, rs[0]), rs[1..]))
  }

  predicate LegalScript(st: State, script: seq<seq<Report>>)
    decreases |script|
  {
    !st.running || script == []
    || (LegalReports(Sweep(st), script[0]) && LegalScript(Wait(Sweep(st), script[0]), script[1..]))
  }

  lemma {:induction false} WaitConserves(st: State, rs: seq<Report>)
    requires Conserved(st) && LegalReports(st, rs)
    ensures Conserved(Wait(st, rs)) && Finished(st) <= Finished(Wait(st, rs)) && Wait(st, rs).delivered == st.delivered
    decreases |rs|
  {
    if rs == [] {
    } else {
      StepConserves(st, Reported(rs[0]));
      StepAppends(st, Reported(rs[0]));
      WaitConserves(OnReport(st, rs[0]), rs[1..]);
    }
  }

  /** The whole loop conserves events, whatever the callbacks submit and the system reports. */
  lemma {:induction false} LoopConserves(st: State, script: seq<seq<Report>>)
    requires Conserved(st) && LegalScript(st, script)
    ensures Conserved(RunLoop(st, script))
    decreases |script|
  {
    if !st.running {
    } else {
      SweepDeliversAll(st);
      if script != [] {
        WaitConserves(Sweep(st), script[0]);
        LoopConserves(Wait(Sweep(st), script[0]), script[1..]);
      }
    }
  }

  // ------------------------------------------------------------- what the loop can do at all

  /** Every event in the list is finished, so the sweep passes over none. */
  predicate AllFinished(queue: seq<Event>) {
    forall i :: 0 <= i < |queue| ==> queue[i].status != WAITING
  }

  /** Every report is for a slot that was set; errors may come for idle ones. */
  predicate AllReportable(st: State, rs: seq<Report>) {
    forall i :: 0 <= i < |rs| ==> Reportable(st, rs[i])
  }

  predicate ReportableScript(st: State, script: seq<seq<Report>>)
    decreases |script|
  {
    !st.running || script == []
    || (AllReportable(Sweep(st), script[0]) && ReportableScript(Wait(Sweep(st), script[0]), script[1..]))
  }

  lemma ReportKeepsReportable(st: State, r: Report, rs: seq<Report>)
    requires Reportable(st, r)
    ensures AllReportable(OnReport(st, r), rs) <==> AllReportable(st, rs)
  {
    assert forall s :: SlotOf(OnReport(st, r), s).known == SlotOf(st, s).known;
  }

  lemma ReportSlotFinishes(slot: Slot, r: Report)
    ensures AllFinished(ReportSlot(slot, r).1)
  {
    var input := if r.input then InputOn(slot, r.inResult) else (slot, []);
    var output := if r.output then OutputOn(input.0, r.outResult) else (input.0, []);
    assert AllFinished(input.1) && AllFinished(output.1);
  }

  lemma ReportFinishes(st: State, r: Report)
    requires AllFinished(st.queue)
    ensures AllFinished(OnReport(st, r).queue)
  {
    ReportSlotFinishes(SlotOf(st, r.sock), r);
  }

  lemma {:induction false} WaitFinishes(st: State, rs: seq<Report>)
    requires AllFinished(st.queue)
    ensures var st' := Wait(st, rs);
      && AllFinished(st'.queue) && st'.running == st.running && st'.delivered == st.delivered
      && st'.next == st.next && st'.lost == st.lost
    decreases |rs|
  {
    if rs == [] {
    } else {
      ReportFinishes(st, rs[0]);
      WaitFinishes(OnReport(st, rs[0]), rs[1..]);
    }
  }

  lemma ActFinishes(st: State, a: Action)
    requires AllFinished(st.queue)
    ensures AllFinished(Act(st, a).queue)
  {
    match a
    case Submission(s, op, result, cb) =>
      assert AllFinished(SubmitSlot(SlotOf(st, s), op, Event(st.next, WAITING, 0, 0, cb), result).1);
    case End =>
  }

  lemma {:induction false} ActsFinish(st: State, actions: seq<Action>)
    requires AllFinished(st.queue)
    ensures AllFinished(Acts(st, actions).queue)
    decreases |actions|
  {
    if actions == [] {
    } else {
      ActFinishes(st, actions[0]);
      ActsFinish(Act(st, actions[0]), actions[1..]);
    }
  }

  // ------------------------------------------------------------- what the loop leaves behind

  /** The state after the last sweep. */
  function LastSwept(st: State, script: seq<seq<Report>>): State
    decreases |script|
  {
    if !st.running then st
    else if script == [] then Sweep(st)
    else
      var waited := Wait(Sweep(st), script[0]);
      if waited.running then LastSwept(waited, script[1..]) else Sweep(st)
  }

  /** What a wait finishes is what it disarms. */
  lemma WaitMoves(st: State, rs: seq<Report>)
    requires Conserved(st) && LegalReports(st, rs) && st.queue == []
    ensures forall id: nat :: Among(Wait(st, rs).queue, id) <==> InSlot(st, id) && !InSlot(Wait(st, rs), id)
  {
    var st' := Wait(st, rs);
    WaitConserves(st, rs);
    WaitFinishes(st, rs);
    forall id: nat
      ensures Among(st'.queue, id) <==> InSlot(st, id) && !InSlot(st', id)
    {
      if id < st.next {
        ExactlyOnePlace(st, id);
        ExactlyOnePlace(st', id);
      } else {
        AmongSplit(st'.delivered, st'.queue, id);
      }
    }
  }

  /** Once a callback has ended the context, its sweep goes on to the end and the system is asked once
      more; what is finished then stays in the list, undelivered. It is exactly what was armed before
      that last wait and is not armed any more. */
  lemma {:induction false} LoopLeaves(st: State, script: seq<seq<Report>>) returns (last: seq<Report>)
    requires st.running && Conserved(st) && LegalScript(st, script)
    ensures var swept, left := LastSwept(st, script), RunLoop(st, script);
      && swept.queue == [] && left == Wait(swept, last) && left.delivered == swept.delivered
      && (last == [] || (last in script && !left.running))
      && forall id: nat :: Among(left.queue, id) <==> InSlot(swept, id) && !InSlot(left, id)
    decreases |script|
  {
    SweepDeliversAll(st);
    if script == [] {
      last := [];
    } else {
      var waited := Wait(Sweep(st), script[0]);
      WaitConserves(Sweep(st), script[0]);
      if waited.running {
        last := LoopLeaves(waited, script[1..]);
      } else {
        last := script[0];
        WaitMoves(Sweep(st), last);
      }
    }
  }

  /** A callback submits a read and ends the context. */
  const LAST_READ := Callback([Submission(1, READ, 0, NOTHING), End])

  /** The connection that this callback waits for succeeds at once. */
  const CONNECTED := Submit(BLANK, 0, CONNECT, 0, LAST_READ)

  /** Input for the socket the callback reads from. */
  const LAST_REPORTS := [Report(1, false, false, true, false, 1, 0, 0)]

  lemma LastReadSwept()
    ensures CONNECTED.queue != []
    ensures var st := Fire(CONNECTED);
      && st.queue == [] && !st.running && Armed(SlotOf(st, 1)) && SlotOf(st, 1).kind == READ
      && SlotOf(st, 1).ev == Event(1, WAITING, 0, 0, NOTHING) && |st.delivered| == 1 && st.delivered[0].id == 0
  {
    var actions := LAST_READ.actions;
    var st1 := Act(CONNECTED, actions[0]);
    assert actions[1..][0] == End && actions[1..][1..] == [];
    assert Acts(st1, actions[1..]) == st1.(running := false);
  }

  /** The read finishes, and nobody is told. */
  lemma EndLeavesEvent()
    ensures Conserved(CONNECTED) && LegalScript(CONNECTED, [LAST_REPORTS])
    ensures var left := RunLoop(CONNECTED, [LAST_REPORTS]);
      && !left.running && |left.queue| == 1 && left.queue[0].id == 1 && left.queue[0].res == 1
      && |left.delivered| == 1 && left.delivered[0].id == 0
  {
    InitiallyConserved();
    SubmitConserves(BLANK, 0, CONNECT, 0, LAST_READ);
    var swept := Fire(CONNECTED);
    LastReadSwept();
    assert Sweep(CONNECTED) == swept;
    assert LAST_REPORTS[1..] == [];
    var left := OnReport(swept, LAST_REPORTS[0]);
    assert Wait(left, []) == left && LegalReports(left, []);
    assert Wait(swept, LAST_REPORTS) == left && LegalReports(swept, LAST_REPORTS);
    assert [LAST_REPORTS][0] == LAST_REPORTS && [LAST_REPORTS][1..] == [];
  }

  // ------------------------------------------------------------- one report

  /** Input on a slot armed for input finishes exactly its event, and leaves the slot idle; and with or
      without output at the same time no report finishes more than one. */
  lemma InputFinishes(st: State, r: Report)
    requires Reportable(st, r) && !r.err && !r.hup && r.input
    requires var k := SlotOf(st, r.sock).kind; ReadKind(k) || k == TIMETICK || k == SIGNAL
    ensures var slot, st' := SlotOf(st, r.sock), OnReport(st, r);
      && |st'.queue| == |st.queue| + 1 && st'.queue[..|st.queue|] == st.queue
      && st'.queue[|st.queue|].id == slot.ev.id && st'.queue[|st.queue|].cb == slot.ev.cb
      && st'.slots[r.sock].kind == NOOP
  {
  }

  lemma AtMostOneEach(st: State, r: Report)
    requires Legal(st, Reported(r))
    ensures |st.queue| <= |OnReport(st, r).queue| <= |st.queue| + 1
    ensures |OnReport(st, r).queue| > |st.queue| ==>
      Armed(SlotOf(st, r.sock)) && OnReport(st, r).slots[r.sock].kind == NOOP
  {
    ReportFinishesOne(SlotOf(st, r.sock), r);
  }
}
