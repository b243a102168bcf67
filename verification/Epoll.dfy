/** The engine as the objects it is made of, proved against its description on values. */
module Epoll {
  import opened Engine
  import opened Conservation
  import opened Sweeps

  class SockEventData {
    var known: bool  // whether it was ever set
    var kind: Kind
    var ev: Event
    var rp: bool
    var wp: bool

    function View(): Slot
      reads this
    {
      Slot(known, kind, ev, rp, wp)
    }

    constructor ()
      ensures View() == FRESH_SLOT
    {
      known, kind, ev, rp, wp := false, READ, NO_EVENT, false, false;
    }

    method Set(kind: Kind, ev: Event)
      modifies this
      ensures View() == old(View()).(known := true, kind := kind, ev := ev)
    {
      known, this.kind, this.ev := true, kind, ev;
    }

    method Clear()
      modifies this`kind
      ensures View() == old(View()).(kind := NOOP)
    {
      kind := NOOP;
    }
  }

  /** `waitset_` and `can_continue_`. */
  class Context {
    var waitset: seq<Event>
    var canContinue: bool
    ghost var delivered: seq<Event>

    constructor ()
      ensures waitset == [] && canContinue && delivered == []
    {
      waitset, canContinue, delivered := [], true, [];
    }

    method SubmitComplete(event: Event)
      modifies this`waitset
      ensures waitset == old(waitset) + [if event.status == WAITING then event.(status := COMPLETED) else event]
    {
      var e := event;
      if e.status == WAITING {
        e := e.(status := COMPLETED);
      }
      waitset := waitset + [e];
    }

    method End()
      modifies this`canContinue
      ensures !canContinue
    {
      canContinue := false;
    }
  }

  /** Submissions and readiness for one socket's slot. The results of the system calls are parameters. */
  class Poller {
    const ctx: Context

    constructor (ctx: Context)
      ensures this.ctx == ctx
    {
      this.ctx := ctx;
    }

    /** The slot, and what was appended to `waitset_`; the rest of the context is as before. */
    twostate predicate Became(d: SockEventData, after: (Slot, seq<Event>))
      reads d, ctx
    {
      && d.View() == after.0 && ctx.waitset == old(ctx.waitset) + after.1
      && ctx.canContinue == old(ctx.canContinue) && ctx.delivered == old(ctx.delivered)
    }

    /** Hands a finished event to the context and leaves the slot idle. */
    method Complete(d: SockEventData, ev: Event)
      requires ev.status != WAITING
      modifies d, ctx
      ensures Became(d, (old(d.View()).(kind := NOOP), [ev]))
    {
      ctx.SubmitComplete(ev);
      d.Clear();
    }

    // ----------------------------------------------------------- submissions

    method SubmitRead(d: SockEventData, ev: Event, result: int)
      requires Untouched(ev)
      modifies d, ctx
      ensures Became(d, SubmitSlot(old(d.View()), READ, ev, result))
    {
      d.Set(READ, ev);
      if d.rp {
        var len := result;
        if len == -EWOULDBLOCK {
          d.rp := false;
        } else if len < 0 {
          Complete(d, ev.(status := ERR, error := -len));
        } else {
          Complete(d, ev.(status := COMPLETED, res := len));
        }
      }
    }

    method SubmitWrite(d: SockEventData, ev: Event, result: int)
      requires Untouched(ev)
      modifies d, ctx
      ensures Became(d, SubmitSlot(old(d.View()), WRITE, ev, result))
    {
      d.Set(WRITE, ev);
      if d.wp {
        var len := result;
        if len == -EWOULDBLOCK {
          d.wp := false;
        } else if len < 0 {
          Complete(d, ev.(status := ERR, error := -len));
        } else {
          Complete(d, ev.(status := COMPLETED, res := len));
        }
      }
    }

    method SubmitConnect(d: SockEventData, ev: Event, result: int)
      requires Untouched(ev)
      modifies d, ctx
      ensures Became(d, SubmitSlot(old(d.View()), CONNECT, ev, result))
    {
      var err := result;
      if err == 0 {
        Complete(d, ev.(status := COMPLETED));
      } else if err == -EWOULDBLOCK {
        d.Set(CONNECT, ev);
      } else {
        Complete(d, ev.(status := ERR, error := -err));
      }
    }

    method SubmitAccept(d: SockEventData, ev: Event, result: int)
      requires Untouched(ev)
      modifies d, ctx
      ensures Became(d, SubmitSlot(old(d.View()), ACCEPT, ev, result))
    {
      d.Set(ACCEPT, ev);
      if d.rp {
        var err := result;
        if err == 0 {
          Complete(d, ev.(status := COMPLETED));
        } else if err == -EWOULDBLOCK {
          d.rp := false;
        } else {
          Complete(d, ev.(status := ERR, error := -err));
        }
      }
    }

    method SubmitRecvfrom(d: SockEventData, ev: Event, result: int)
      requires Untouched(ev)
      modifies d, ctx
      ensures Became(d, SubmitSlot(old(d.View()), RECVFROM, ev, result))
    {
      d.Set(RECVFROM, ev);
      if d.rp {
        var len := result;
        if len == -EWOULDBLOCK {
          d.rp := false;
        } else if len < 0 {
          Complete(d, ev.(status := ERR, error := -len));
        } else {
          Complete(d, ev.(status := COMPLETED, res := len));
        }
      }
    }

    method SubmitSendto(d: SockEventData, ev: Event, result: int)
      requires Untouched(ev)
      modifies d, ctx
      ensures Became(d, SubmitSlot(old(d.View()), SENDTO, ev, result))
    {
      d.Set(SENDTO, ev);
      if d.wp {
        var len := result;
        if len == -EWOULDBLOCK {
          d.rp := false;  // not wp
        } else if len < 0 {
          Complete(d, ev.(status := ERR, error := -len));
        } else {
          Complete(d, ev.(status := COMPLETED, res := len));
        }
      }
    }

    method SubmitTimer(d: SockEventData, ev: Event)
      modifies d
      ensures Became(d, SubmitSlot(old(d.View()), TIMETICK, ev, 0))
    {
      d.Set(TIMETICK, ev);
    }

    method SubmitSignal(d: SockEventData, ev: Event)
      modifies d
      ensures Became(d, SubmitSlot(old(d.View()), SIGNAL, ev, 0))
    {
      d.Set(SIGNAL, ev);
    }

    // ----------------------------------------------------------- readiness

    /** The slot's own event is filled in, then completed. */
    method CompleteHeld(d: SockEventData, outcome: Outcome)
      modifies d, ctx
      ensures Became(d, FinishIn(old(d.View()), outcome))
    {
      match outcome {
        case Ok =>
          d.ev := d.ev.(status := COMPLETED);
        case Length(res) =>
          d.ev := d.ev.(status := COMPLETED, res := res);
        case Failed(error) =>
          d.ev := d.ev.(status := ERR, error := error);
      }
      Complete(d, d.ev);
    }

    method OnInput(d: SockEventData, result: int)
      modifies d, ctx
      ensures Became(d, InputOn(old(d.View()), result))
    {
      d.rp := true;
      match d.kind {
        case READ | RECVFROM =>
          var len := result;
          if len < 0 {
            CompleteHeld(d, Failed(-len));
          } else {
            CompleteHeld(d, Length(len));
          }
        case ACCEPT =>
          var err := result;
          if err == 0 {
            CompleteHeld(d, Ok);
          } else {
            CompleteHeld(d, Failed(-err));
          }
        case TIMETICK =>
          CompleteHeld(d, Length(0));
          d.rp := false;
        case SIGNAL =>
          CompleteHeld(d, Length(result));
          d.rp := false;
        case NOOP | WRITE | SENDTO | CONNECT =>
      }
    }

    method OnOutput(d: SockEventData, result: int)
      modifies d, ctx
      ensures Became(d, OutputOn(old(d.View()), result))
    {
      d.wp := true;
      match d.kind {
        case WRITE =>
          var len := result;
          if len == -EWOULDBLOCK {
            d.wp := false;
          } else if len < 0 {
            CompleteHeld(d, Failed(-len));
          } else {
            CompleteHeld(d, Length(len));
          }
        case CONNECT =>
          CompleteHeld(d, Ok);
        case SENDTO =>
          var len := result;
          if len == -EWOULDBLOCK {
            d.rp := false;  // not wp
          } else if len < 0 {
            CompleteHeld(d, Failed(-len));
          } else {
            CompleteHeld(d, Length(len));
          }
        case NOOP | READ | ACCEPT | RECVFROM | TIMETICK | SIGNAL =>
      }
    }

    /** The body of the loop over what epoll_wait reports. */
    method OnEvent(d: SockEventData, r: Report)
      requires d.known
      modifies d, ctx
      ensures Became(d, ReportSlot(old(d.View()), r))
    {
      if r.err {
        CompleteHeld(d, Failed(r.sockErr));
      } else if r.hup {
        if d.kind == CONNECT {
          CompleteHeld(d, Failed(HANGUP_ERROR));
        }
      } else {
        if r.input {
          OnInput(d, r.inResult);
        }
        if r.output {
          OnOutput(d, r.outResult);
        }
      }
    }
  }

  lemma SubmitToKnown(st: State, s: nat, op: Op, result: int, cb: Callback)
    ensures Engine.Submit(st.(slots := st.slots[s := SlotOf(st, s)]), s, op, result, cb) ==
      Engine.Submit(st, s, op, result, cb)
  {
    var slot := SlotOf(st, s);
    var after := SubmitSlot(slot, op, Event(st.next, WAITING, 0, 0, cb), result).0;
    assert st.slots[s := slot][s := after] == st.slots[s := after];
  }

  /** What one delivery keeps. */
  lemma FireKeeps(st: State)
    requires AllFinished(st.queue) && st.queue != []
    ensures AllFinished(Fire(st).queue) && QueueSize(Fire(st).queue) < QueueSize(st.queue)
    ensures Engine.Sweep(Fire(st)) == Engine.Sweep(st)
  {
    FireShrinks(st);
    ActsFinish(st, st.queue[0].cb.actions);
  }

  /** The loop started in `first` with the whole script, and is now in `st` with what is left of it. */
  ghost predicate Looping(st: State, left: seq<seq<Report>>, first: State, script: seq<seq<Report>>) {
    AllFinished(st.queue) && ReportableScript(st, left) && RunLoop(st, left) == RunLoop(first, script)
  }

  lemma LoopStep(st: State, left: seq<seq<Report>>, first: State, script: seq<seq<Report>>)
    requires Looping(st, left, first, script) && st.running
    ensures left == [] ==> RunLoop(first, script) == Engine.Sweep(st)
    ensures left != [] ==>
      && AllReportable(Engine.Sweep(st), left[0])
      && Looping(Engine.Wait(Engine.Sweep(st), left[0]), left[1..], first, script)
  {
    if left != [] {
      WaitFinishes(Engine.Sweep(st), left[0]);
    }
  }

  /** A context with its sockets, whose slots are separate objects. */
  class Runtime {
    const ctx: Context
    const handler: Poller
    var socks: map<nat, SockEventData>
    ghost var lost: set<nat>
    var next: nat  // tells submissions apart

    ghost predicate Valid()
      reads this
    {
      && handler.ctx == ctx
      && forall s, t :: s in socks && t in socks && s != t ==> socks[s] != socks[t]
    }

    ghost function Abs(): State
      reads this, ctx, socks.Values
    {
      State(map s | s in socks :: socks[s].View(), ctx.waitset, ctx.canContinue, ctx.delivered, lost, next)
    }

    constructor ()
      ensures Valid() && Abs() == BLANK && fresh(ctx)
    {
      var c := new Context();
      ctx := c;
      handler := new Poller(c);
      socks, lost, next := map[], {}, 0;
    }

    /** A socket not seen before comes with a fresh slot. */
    method Know(s: nat)
      requires Valid()
      modifies this`socks
      ensures Valid() && s in socks && fresh(socks.Values - old(socks.Values))
      ensures Abs() == old(Abs()).(slots := old(Abs()).slots[s := SlotOf(old(Abs()), s)])
    {
      if s !in socks {
        var d := new SockEventData();
        socks := socks[s := d];
      }
      assert Abs().slots == old(Abs()).slots[s := SlotOf(old(Abs()), s)];
    }

    /** What a change of one slot makes of the state before it. */
    lemma OneSlotChanged(was: State, s: nat, after: (Slot, seq<Event>))
      requires s in socks && socks[s].View() == after.0 && ctx.waitset == was.queue + after.1
      requires ctx.canContinue == was.running && ctx.delivered == was.delivered
      requires forall t :: t != s ==> (t in socks <==> t in was.slots)
      requires forall t :: t != s && t in socks ==> socks[t].View() == was.slots[t]
      ensures Abs() == State(was.slots[s := after.0], was.queue + after.1, was.running, was.delivered, lost, next)
    {
      assert Abs().slots == was.slots[s := after.0];
    }

    /** What a submission makes of the state before it. */
    lemma SubmittedTo(was: State, s: nat, op: Op, result: int, cb: Callback)
      requires s in was.slots && s in socks && next == was.next + 1
      requires lost == if Armed(was.slots[s]) then was.lost + {was.slots[s].ev.id} else was.lost
      requires var after := SubmitSlot(was.slots[s], op, Event(was.next, WAITING, 0, 0, cb), result);
        socks[s].View() == after.0 && ctx.waitset == was.queue + after.1
      requires ctx.canContinue == was.running && ctx.delivered == was.delivered
      requires forall t :: t != s ==> (t in socks <==> t in was.slots)
      requires forall t :: t != s && t in socks ==> socks[t].View() == was.slots[t]
      ensures Abs() == Engine.Submit(was, s, op, result, cb)
    {
      OneSlotChanged(was, s, SubmitSlot(was.slots[s], op, Event(was.next, WAITING, 0, 0, cb), result));
    }

    /** Hands a new event to the handler. */
    method Submit(s: nat, op: Op, result: int, cb: Callback)
      requires Valid()
      modifies this, ctx, socks.Values
      ensures Valid() && fresh(socks.Values - old(socks.Values))
      ensures Abs() == Engine.Submit(old(Abs()), s, op, result, cb)
    {
      ghost var was := Abs();
      Know(s);
      SubmitToKnown(was, s, op, result, cb);
      SubmitKnown(s, op, result, cb);
    }

    method SubmitKnown(s: nat, op: Op, result: int, cb: Callback)
      requires Valid() && s in socks
      modifies this`next, this`lost, ctx, socks[s]
      ensures Valid() && Abs() == Engine.Submit(old(Abs()), s, op, result, cb)
    {
      ghost var was := Abs();
      var ev := Event(next, WAITING, 0, 0, cb);
      var d := socks[s];
      ghost var slot := d.View();
      if Armed(slot) {
        lost := lost + {slot.ev.id};
      }
      Dispatch(d, op, ev, result, SubmitSlot(slot, op, ev, result));
      next := next + 1;
      SubmittedTo(was, s, op, result, cb);
    }

    method Dispatch(d: SockEventData, op: Op, ev: Event, result: int, ghost after: (Slot, seq<Event>))
      requires handler.ctx == ctx && Untouched(ev) && after == SubmitSlot(d.View(), op, ev, result)
      modifies d, ctx
      ensures d.View() == after.0 && ctx.waitset == old(ctx.waitset) + after.1
      ensures ctx.canContinue == old(ctx.canContinue) && ctx.delivered == old(ctx.delivered)
    {
      match op {
        case READ => handler.SubmitRead(d, ev, result);
        case WRITE => handler.SubmitWrite(d, ev, result);
        case ACCEPT => handler.SubmitAccept(d, ev, result);
        case CONNECT => handler.SubmitConnect(d, ev, result);
        case RECVFROM => handler.SubmitRecvfrom(d, ev, result);
        case SENDTO => handler.SubmitSendto(d, ev, result);
        case TIMETICK => handler.SubmitTimer(d, ev);
        case SIGNAL => handler.SubmitSignal(d, ev);
      }
    }

    /** The loop over what epoll_wait reports. */
    method Wait(events: seq<Report>)
      requires Valid() && AllReportable(Abs(), events)
      modifies ctx, socks.Values
      ensures Valid() && socks == old(socks) && Abs() == Engine.Wait(old(Abs()), events)
    {
      var i := 0;
      while i < |events|
        invariant 0 <= i <= |events| && Valid() && socks == old(socks)
        invariant AllReportable(Abs(), events[i..])
        invariant Engine.Wait(Abs(), events[i..]) == Engine.Wait(old(Abs()), events)
      {
        assert events[i..][0] == events[i] && events[i..][1..] == events[i + 1..];
        ReportKeepsReportable(Abs(), events[i], events[i + 1..]);
        OnReport(events[i]);
        i := i + 1;
      }
    }

    method OnReport(r: Report)
      requires Valid() && Reportable(Abs(), r)
      modifies ctx, socks.Values
      ensures Valid() && socks == old(socks) && Abs() == Engine.OnReport(old(Abs()), r)
    {
      ghost var was := Abs();
      var d := socks[r.sock];
      ghost var slot := d.View();
      handler.OnEvent(d, r);
      OneSlotChanged(was, r.sock, ReportSlot(slot, r));
    }

    /** A callback at work. */
    method Perform(actions: seq<Action>)
      requires Valid()
      modifies this, ctx, socks.Values
      ensures Valid() && fresh(socks.Values - old(socks.Values))
      ensures Abs() == Acts(old(Abs()), actions)
    {
      var i := 0;
      while i < |actions|
        invariant 0 <= i <= |actions| && Valid() && fresh(socks.Values - old(socks.Values))
        invariant Acts(Abs(), actions[i..]) == Acts(old(Abs()), actions)
      {
        match actions[i] {
          case Submission(s, op, result, cb) => Submit(s, op, result, cb);
          case End => EndContext();
        }
        assert actions[i..][1..] == actions[i + 1..];
        i := i + 1;
      }
    }

    method EndContext()
      requires Valid()
      modifies ctx`canContinue
      ensures Valid() && Abs() == old(Abs()).(running := false)
    {
      ctx.End();
      assert Abs().slots == old(Abs()).slots;
    }

    /** Runs the callback of an event in the list, and only then erases it. */
    method CompleteAndErase(i: nat)
      requires Valid() && i == 0 < |ctx.waitset|
      modifies this, ctx, socks.Values
      ensures Valid() && fresh(socks.Values - old(socks.Values))
      ensures Abs() == Fire(old(Abs()))
    {
      var event := ctx.waitset[i];
      Perform(event.cb.actions);
      ghost var st := Abs();
      ctx.waitset := ctx.waitset[..i] + ctx.waitset[i + 1..];
      ctx.delivered := ctx.delivered + [event];
      assert Abs().slots == st.slots;
    }

    /** The pass over `waitset_`. It looks at the status of each event, but all of them are finished. */
    method Sweep()
      requires Valid() && AllFinished(ctx.waitset)
      modifies this, ctx, socks.Values
      ensures Valid() && fresh(socks.Values - old(socks.Values))
      ensures Abs() == Engine.Sweep(old(Abs()))
    {
      var i := 0;
      while i < |ctx.waitset|
        invariant i == 0 && Valid() && fresh(socks.Values - old(socks.Values))
        invariant AllFinished(ctx.waitset) && Engine.Sweep(Abs()) == Engine.Sweep(old(Abs()))
        decreases QueueSize(ctx.waitset)
      {
        FireKeeps(Abs());
        if ctx.waitset[i].status == COMPLETED || ctx.waitset[i].status == ERR {
          CompleteAndErase(i);
        } else {
          i := i + 1;
        }
      }
    }

    /** The loop of Run. `script` is what the system reports each time; when there is nothing more to
        come, Run stays blocked in Wait. */
    method Run(script: seq<seq<Report>>)
      requires Valid() && AllFinished(ctx.waitset) && ReportableScript(Abs(), script)
      modifies this, ctx, socks.Values
      ensures Valid() && Abs() == RunLoop(old(Abs()), script)
      ensures Conserved(old(Abs())) && LegalScript(old(Abs()), script) ==> Conserved(Abs())
    {
      ghost var st := Abs();
      var n := 0;
      if Conserved(st) && LegalScript(st, script) {
        LoopConserves(st, script);
      }
      while ctx.canContinue
        invariant 0 <= n <= |script| && Valid() && fresh(socks.Values - old(socks.Values))
        invariant Looping(Abs(), script[n..], st, script)
        decreases |script| - n
      {
        LoopStep(Abs(), script[n..], st, script);
        Sweep();
        if n == |script| {
          return;
        }
        assert script[n..][0] == script[n] && script[n..][1..] == script[n + 1..];
        Wait(script[n]);
        n := n + 1;
      }
    }
  }
}
