/** What each submission and each report does to a slot and to the list, field by field and in numbers. */
module Outcomes {
  import opened Engine
  import opened Conservation
  import opened Await

  // ------------------------------------------------------------- the flags decide about an attempt

  /** The flag an operation looks at is down, or it looks at none. */
  predicate Down(slot: Slot, op: Op) {
    match op
    case READ => !slot.rp
    case ACCEPT => !slot.rp
    case RECVFROM => !slot.rp
    case WRITE => !slot.wp
    case SENDTO => !slot.wp
    case CONNECT => false
    case TIMETICK => true
    case SIGNAL => true
  }

  /** With its flag down a submission is not attempted: whatever a call would return, the list stays as it
      was, and the submission waits in its slot. */
  lemma DownWaits(st: State, s: nat, op: Op, result: int, cb: Callback)
    requires Down(SlotOf(st, s), op)
    ensures var st', slot := Submit(st, s, op, result, cb), SlotOf(st, s);
      && st'.queue == st.queue && st'.running == st.running && st'.delivered == st.delivered && st'.next == st.next + 1
      && st'.slots == st.slots[s := Slot(true, op, Event(st.next, WAITING, 0, 0, cb), slot.rp, slot.wp)]
  {
  }

  /** On a socket that is new both flags are down, so everything but a connection waits. */
  lemma FreshWaits(st: State, s: nat, op: Op, result: int, cb: Callback)
    requires s !in st.slots && op != CONNECT
    ensures var st' := Submit(st, s, op, result, cb);
      && st'.queue == st.queue
      && st'.slots == st.slots[s := Slot(true, op, Event(st.next, WAITING, 0, 0, cb), false, false)]
  {
  }

  /** What the callback of a finished submission is told: 0 or the errno for ACCEPT and CONNECT, a length
      or the errno for the others. */
  predicate Answered(e: Event, id: nat, cb: Callback, op: Op, result: int) {
    && e.id == id && e.cb == cb
    && if op == ACCEPT || op == CONNECT
       then e.status == (if result == 0 then COMPLETED else ERR) && e.error == -result && e.res == 0
       else if result < 0 then e.status == ERR && e.error == -result && e.res == 0
       else e.status == COMPLETED && e.error == 0 && e.res == result
  }

  /** With its flag up, and for a connection always, a submission is attempted: it finishes exactly if the
      result is not -11, and else waits with the flag down; SENDTO takes down the wrong one. */
  lemma UpAttempts(st: State, s: nat, op: Op, result: int, cb: Callback)
    requires !Down(SlotOf(st, s), op)
    ensures var st', slot := Submit(st, s, op, result, cb), SlotOf(st, s);
      var slot' := SlotOf(st', s);
      && st'.slots == st.slots[s := slot'] && st'.running == st.running && st'.delivered == st.delivered
      && st'.next == st.next + 1
      && if result == -11 then
           && st'.queue == st.queue && slot'.known && slot'.kind == op
           && slot'.ev == Event(st.next, WAITING, 0, 0, cb)
           && slot'.rp == (slot.rp && (op == WRITE || op == CONNECT))
           && slot'.wp == (slot.wp && op != WRITE)
         else
           && |st'.queue| == |st.queue| + 1 && st'.queue[..|st.queue|] == st.queue
           && Answered(st'.queue[|st.queue|], st.next, cb, op, result)
           && slot'.kind == NOOP && slot'.rp == slot.rp && slot'.wp == slot.wp
  {
  }

  // ------------------------------------------------------------- reports

  /** What a report appends to the list, at most one event. */
  predicate Appends(st: State, st': State, finished: bool) {
    && |st'.queue| == |st.queue| + (if finished then 1 else 0) && st'.queue[..|st.queue|] == st.queue
    && st'.running == st.running && st'.delivered == st.delivered && st'.next == st.next
  }

  /** The event that a report finished in a slot: the one armed there, with its callback. */
  predicate FinishedThere(e: Event, slot: Slot, status: Status, error: int) {
    e.id == slot.ev.id && e.cb == slot.ev.cb && e.status == status && e.error == error
  }

  /** An error goes before everything else, and is told to whatever the slot holds. */
  lemma ErrorTold(st: State, r: Report)
    requires r.err && Reportable(st, r)
    ensures var st', slot := OnReport(st, r), SlotOf(st, r.sock); var slot' := SlotOf(st', r.sock);
      && Appends(st, st', true) && FinishedThere(st'.queue[|st.queue|], slot, ERR, r.sockErr)
      && st'.slots == st.slots[r.sock := slot'] && slot'.kind == NOOP && slot'.rp == slot.rp && slot'.wp == slot.wp
  {
  }

  /** A hang-up without an error fails a connection that waits, with error 144, and does nothing else. */
  lemma HangupTold(st: State, r: Report)
    requires r.hup && !r.err && Reportable(st, r)
    ensures var st', slot := OnReport(st, r), SlotOf(st, r.sock); var slot' := SlotOf(st', r.sock);
      && st'.slots == st.slots[r.sock := slot'] && slot'.rp == slot.rp && slot'.wp == slot.wp
      && Appends(st, st', slot.kind == CONNECT)
      && (slot.kind == CONNECT ==> FinishedThere(st'.queue[|st.queue|], slot, ERR, 144) && slot'.kind == NOOP)
      && (slot.kind != CONNECT ==> slot' == slot)
  {
  }

  /** Input raises `rp`; it finishes a read with its call's result, an accept with its errno, and a tick or
      a signal without looking at `rp`, which these lower. */
  lemma InputTold(st: State, r: Report)
    requires r.input && !r.output && !r.err && !r.hup && Reportable(st, r)
    ensures var st', slot := OnReport(st, r), SlotOf(st, r.sock); var slot' := SlotOf(st', r.sock);
      var waits := slot.kind in {READ, ACCEPT, RECVFROM, TIMETICK, SIGNAL};
      && st'.slots == st.slots[r.sock := slot'] && Appends(st, st', waits) && slot'.wp == slot.wp
      && slot'.rp == (slot.kind != TIMETICK && slot.kind != SIGNAL)
      && slot'.kind == (if waits then NOOP else slot.kind) && (!waits ==> slot'.ev == slot.ev)
      && (slot.kind == SIGNAL && Untouched(slot.ev) ==>
            st'.queue[|st.queue|] == Event(slot.ev.id, COMPLETED, 0, r.inResult, slot.ev.cb))
      && (waits && slot.kind != SIGNAL && Untouched(slot.ev) ==>
            var result := if slot.kind == TIMETICK then 0 else r.inResult;
            Answered(st'.queue[|st.queue|], slot.ev.id, slot.ev.cb, slot.kind, result))
  {
  }

  /** Output raises `wp`; it finishes a write unless its call would block, which lowers `wp` again, or
      for SENDTO `rp`; and a connection, with success. */
  lemma OutputTold(st: State, r: Report)
    requires r.output && !r.input && !r.err && !r.hup && Reportable(st, r)
    ensures var st', slot := OnReport(st, r), SlotOf(st, r.sock); var slot' := SlotOf(st', r.sock);
      var blocks := slot.kind in {WRITE, SENDTO} && r.outResult == -11;
      var finishes := slot.kind == CONNECT || (slot.kind in {WRITE, SENDTO} && !blocks);
      && st'.slots == st.slots[r.sock := slot'] && Appends(st, st', finishes)
      && slot'.rp == (slot.rp && !(blocks && slot.kind == SENDTO)) && slot'.wp == !(blocks && slot.kind == WRITE)
      && slot'.kind == (if finishes then NOOP else slot.kind) && (!finishes ==> slot'.ev == slot.ev)
      && (finishes && Untouched(slot.ev) ==>
            var result := if slot.kind == CONNECT then 0 else r.outResult;
            Answered(st'.queue[|st.queue|], slot.ev.id, slot.ev.cb, slot.kind, result))
  {
  }

  /** Input and output together are input and then output. */
  lemma InputBeforeOutput(st: State, r: Report)
    requires r.input && r.output && !r.err && !r.hup
    ensures OnReport(st, r) == OnReport(OnReport(st, r.(output := false)), r.(input := false))
  {
    var st1 := OnReport(st, r.(output := false));
    var st2 := OnReport(st1, r.(input := false));
    var slot := SlotOf(st, r.sock);
    assert st1.slots[r.sock := SlotOf(st2, r.sock)] == st.slots[r.sock := SlotOf(st2, r.sock)];
  }

  /** Reports are taken one after the other, in their order. */
  lemma {:induction false} WaitInOrder(st: State, a: seq<Report>, b: seq<Report>)
    ensures Wait(st, a + b) == Wait(Wait(st, a), b)
    ensures |a| == 1 ==> Wait(st, a) == OnReport(st, a[0])
    decreases |a|
  {
    if a == [] {
      assert a + b == b;
    } else {
      assert (a + b)[0] == a[0] && (a + b)[1..] == a[1..] + b;
      WaitInOrder(OnReport(st, a[0]), a[1..], b);
    }
  }

  /** A callback's actions are submissions with their own socket, operation, result and callback, and the
      end of the loop. */
  lemma ActionsAreSubmissions(st: State, s: nat, op: Op, result: int, cb: Callback)
    ensures Acts(st, [Submission(s, op, result, cb)]) == Submit(st, s, op, result, cb)
    ensures Acts(st, [End]) == st.(running := false) && Acts(st, []) == st
  {
    assert [Submission(s, op, result, cb)][1..] == [] && [End][1..] == [];
  }

  /** One turn of the loop is a sweep and then a wait, unless the end has been asked for; with nothing more
      to come the loop stays blocked after its sweep. */
  lemma LoopTurn(st: State, script: seq<seq<Report>>)
    ensures !st.running ==> RunLoop(st, script) == st
    ensures st.running && script == [] ==> RunLoop(st, script) == Sweep(st)
    ensures st.running && script != [] ==> RunLoop(st, script) == RunLoop(Wait(Sweep(st), script[0]), script[1..])
  {
  }

  // ------------------------------------------------------------- over runs

  /** Whatever waits for reading waits with `rp` down, and a WRITE with `wp` down. */
  predicate WaitsDown(slot: Slot) {
    && (Armed(slot) && slot.kind in {READ, ACCEPT, RECVFROM} ==> !slot.rp)
    && (Armed(slot) && slot.kind == WRITE ==> !slot.wp)
  }

  ghost predicate AllWaitDown(st: State) {
    forall s :: s in st.slots ==> WaitsDown(st.slots[s])
  }

  lemma ReportWaitsDown(slot: Slot, r: Report)
    requires WaitsDown(slot)
    ensures WaitsDown(ReportSlot(slot, r).0)
  {
  }

  lemma StepWaitsDown(st: State, step: Step)
    requires AllWaitDown(st) && Legal(st, step)
    ensures AllWaitDown(Apply(st, step))
  {
    match step
    case Submitted(s, op, result, cb) =>
      var slot' := SubmitSlot(SlotOf(st, s), op, Event(st.next, WAITING, 0, 0, cb), result).0;
      assert WaitsDown(slot');
    case Reported(r) =>
      ReportWaitsDown(SlotOf(st, r.sock), r);
    case _ =>
  }

  /** So it is over every run: nothing waits that could have been attempted, except SENDTO. */
  lemma {:induction false} RunWaitsDown(st: State, steps: seq<Step>)
    requires AllWaitDown(st) && LegalRun(st, steps)
    ensures AllWaitDown(Run(st, steps))
    decreases |steps|
  {
    if steps == [] {
    } else {
      StepWaitsDown(st, steps[0]);
      RunWaitsDown(Apply(st, steps[0]), steps[1..]);
    }
  }

  // ------------------------------------------------------------- what a coroutine learns

  /** A read or write learns its length or the negative errno, for every int but the least. */
  lemma LengthLearnt(e: Event, id: nat, cb: Callback, op: Op, result: int)
    requires op != ACCEPT && op != CONNECT && Answered(e, id, cb, op, result) && -0x8000_0000 < result < 0x8000_0000
    ensures Awaited(e) == result
    ensures Wrapped(e.res, e.error) == if result < 0 then (0xFFFF_FFFF_FFFF_FFFF, -result) else (result, 0)
  {
  }

  /** A connection learns the errno: 0 exactly if connect() succeeded, or waited and output was then
      reported without error and hang-up. */
  lemma ConnectLearns(st: State, s: nat, result: int, cb: Callback, r: Report)
    requires r.sock == s && (r.err ==> r.sockErr != 0)
    ensures var st' := Submit(st, s, CONNECT, result, cb);
      if result == -11 then
        var st'' := OnReport(st', r);
        && st'.queue == st.queue
        && (r.err || r.hup || r.output ==>
              && |st''.queue| == |st.queue| + 1 && st''.queue[|st.queue|].id == st.next
              && (Connected(st''.queue[|st.queue|]) == 0 <==> !r.err && !r.hup))
        && (!r.err && !r.hup && !r.output ==> st''.queue == st.queue)
      else
        && |st'.queue| == |st.queue| + 1 && st'.queue[|st.queue|].id == st.next
        && Connected(st'.queue[|st.queue|]) == -result
  {
  }
}
