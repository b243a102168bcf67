/** The completion engine as values: what each submission, readiness report and sweep does. */
module Engine {

  const EWOULDBLOCK := 11

  datatype Kind = READ | WRITE | ACCEPT | CONNECT | RECVFROM | SENDTO | TIMETICK | SIGNAL | NOOP

  /** The operations that can be submitted. */
  type Op = k: Kind | k != NOOP witness READ

  datatype Status = WAITING | COMPLETED | ERR

  /** What a callback does when it fires: further submissions, each with the result its first attempt
      would get from the system, and perhaps the end of the context. */
  datatype Callback = Callback(actions: seq<Action>)
  datatype Action = Submission(sock: nat, op: Op, result: int, cb: Callback) | End

  /** `id` tells submissions apart. */
  datatype Event = Event(id: nat, status: Status, error: int, res: int, cb: Callback)

  /** SockEventData; `known` is false as long as `sock` is null. */
  datatype Slot = Slot(known: bool, kind: Kind, ev: Event, rp: bool, wp: bool)

  /** A callback that submits nothing. */
  const NOTHING := Callback([])

  const NO_EVENT := Event(0, WAITING, 0, 0, NOTHING)

  /** A fresh slot is zeroed, so its type reads as READ. */
  const FRESH_SLOT := Slot(false, READ, NO_EVENT, false, false)

  predicate Armed(slot: Slot) { slot.known && slot.kind != NOOP }

  /** One element of what epoll_wait reports, with the results of the calls made because of it. */
  datatype Report = Report(sock: nat, err: bool, hup: bool, input: bool, output: bool,
                           inResult: int, outResult: int, sockErr: int)

  /** The slots, `waitset_`, and `can_continue_`; and for the proofs the events delivered, the events
      whose slot was taken over before they finished, and the identity of the next submission. */
  datatype State = State(slots: map<nat, Slot>, queue: seq<Event>, running: bool,
                         delivered: seq<Event>, lost: set<nat>, next: nat)

  /** A new context. */
  const BLANK := State(map[], [], true, [], {}, 0)

  function SlotOf(st: State, s: nat): Slot {
    if s in st.slots then st.slots[s] else FRESH_SLOT
  }

  // ------------------------------------------------------------- results

  datatype Outcome = Ok | Length(res: int) | Failed(error: int)
  datatype Attempt = WouldBlock | Decided(outcome: Outcome)

  /** ACCEPT and CONNECT return 0 or a negative errno, the others a length or a negative errno. */
  predicate ReturnsLength(op: Kind) { op != ACCEPT && op != CONNECT }

  /** What the last attempt makes of a result, -EWOULDBLOCK included. */
  function Forced(op: Kind, result: int): Outcome {
    if ReturnsLength(op) then if result < 0 then Failed(-result) else Length(result)
    else if result == 0 then Ok else Failed(-result)
  }

  /** What an attempt that may be repeated makes of a result. */
  function Attempted(op: Kind, result: int): Attempt {
    if result == -EWOULDBLOCK then WouldBlock else Decided(Forced(op, result))
  }

  function Finish(ev: Event, outcome: Outcome): Event {
    match outcome
    case Ok => ev.(status := COMPLETED)
    case Length(res) => ev.(status := COMPLETED, res := res)
    case Failed(error) => ev.(status := ERR, error := error)
  }

  // ------------------------------------------------------------- submissions

  predicate ReadKind(k: Kind) { k == READ || k == ACCEPT || k == RECVFROM }

  predicate WriteKind(k: Kind) { k == WRITE || k == SENDTO }

  /** Whether a submission is attempted at once. */
  predicate TriesNow(slot: Slot, op: Kind) {
    op == CONNECT || (ReadKind(op) && slot.rp) || (WriteKind(op) && slot.wp)
  }

  /** The slot and, if the submission finished at once, the finished event. */
  function SubmitSlot(slot: Slot, op: Op, ev: Event, result: int): (Slot, seq<Event>) {
    var taken := slot.(known := true, kind := op, ev := ev);
    if !TriesNow(slot, op) then (taken, [])
    else
      match Attempted(op, result)
      case WouldBlock =>
        if op == CONNECT then (taken, [])
        else if op == WRITE then (taken.(wp := false), [])
        else (taken.(rp := false), [])  // SENDTO as well
      case Decided(outcome) =>
        if op == CONNECT then (slot.(kind := NOOP), [Finish(ev, outcome)])
        else (taken.(kind := NOOP), [Finish(ev, outcome)])
  }

  function Submit(st: State, s: nat, op: Op, result: int, cb: Callback): State {
    var slot := SlotOf(st, s);
    var (slot', done) := SubmitSlot(slot, op, Event(st.next, WAITING, 0, 0, cb), result);
    st.(slots := st.slots[s := slot'], queue := st.queue + done, next := st.next + 1,
        lost := if Armed(slot) then st.lost + {slot.ev.id} else st.lost)
  }

  // ------------------------------------------------------------- readiness

  /** The event armed in a slot finishes; the cleared slot goes on holding it. */
  function FinishIn(slot: Slot, outcome: Outcome): (Slot, seq<Event>) {
    var ev := Finish(slot.ev, outcome);
    (slot.(kind := NOOP, ev := ev), [ev])
  }

  function InputOn(slot: Slot, result: int): (Slot, seq<Event>) {
    var ready := slot.(rp := true);
    if ReadKind(slot.kind) then FinishIn(ready, Forced(slot.kind, result))
    else if slot.kind == TIMETICK then FinishIn(ready.(rp := false), Length(0))
    else if slot.kind == SIGNAL then FinishIn(ready.(rp := false), Length(result))
    else (ready, [])
  }

  function OutputOn(slot: Slot, result: int): (Slot, seq<Event>) {
    var ready := slot.(wp := true);
    if slot.kind == CONNECT then FinishIn(ready, Ok)
    else if WriteKind(slot.kind) then
      match Attempted(slot.kind, result)
      case WouldBlock => (if slot.kind == WRITE then ready.(wp := false) else ready.(rp := false), [])
      case Decided(outcome) => FinishIn(ready, outcome)
    else (ready, [])
  }

  const HANGUP_ERROR := 144

  function ReportSlot(slot: Slot, r: Report): (Slot, seq<Event>) {
    if r.err then FinishIn(slot, Failed(r.sockErr))
    else if r.hup then
      if slot.kind == CONNECT then FinishIn(slot, Failed(HANGUP_ERROR)) else (slot, [])
    else
      var (slot1, done1) := if r.input then InputOn(slot, r.inResult) else (slot, []);
      var (slot2, done2) := if r.output then OutputOn(slot1, r.outResult) else (slot1, []);
      (slot2, done1 + done2)
  }

  /** The pointer to the socket is followed, so only a slot that was set can be reported. */
  predicate Reportable(st: State, r: Report) { SlotOf(st, r.sock).known }

  function OnReport(st: State, r: Report): State {
    var (slot', done) := ReportSlot(SlotOf(st, r.sock), r);
    st.(slots := st.slots[r.sock := slot'], queue := st.queue + done)
  }

  function Wait(st: State, rs: seq<Report>): State
    decreases |rs|
  {
    if rs == [] then st else Wait(OnReport(st, rs[0]), rs[1..])
  }

  // ------------------------------------------------------------- the sweep

  function Act(st: State, a: Action): State {
    match a
    case Submission(s, op, result, cb) => Submit(st, s, op, result, cb)
    case End => st.(running := false)
  }

  function Acts(st: State, actions: seq<Action>): (st': State)
    ensures st.queue <= st'.queue && st'.delivered == st.delivered
    decreases |actions|
  {
    if actions == [] then st else Acts(Act(st, actions[0]), actions[1..])
  }

  /** The first event's callback runs while the event is still in the list; then it is erased. */
  function Fire(st: State): State
    requires st.queue != []
  {
    var st' := Acts(st, st.queue[0].cb.actions);
    st'.(queue := st'.queue[1..], delivered := st'.delivered + [st.queue[0]])
  }

  function SizeOf(actions: seq<Action>): nat
    decreases actions
  {
    if actions == [] then 0
    else SizeOfAction(actions[0]) + SizeOf(actions[1..])
  }

  /** All submissions a callback leads to. */
  function Size(cb: Callback): (n: nat)
    decreases cb, 0
  {
    1 + SizeOf(cb.actions)
  }

  function SizeOfAction(a: Action): nat
    decreases a
  {
    match a
    case Submission(_, _, _, cb) => Size(cb)
    case End => 0
  }

  function QueueSize(queue: seq<Event>): nat {
    if queue == [] then 0 else Size(queue[0].cb) + QueueSize(queue[1..])
  }

  lemma {:induction false} QueueSizeSplit(a: seq<Event>, b: seq<Event>)
    ensures QueueSize(a + b) == QueueSize(a) + QueueSize(b)
  {
    if a == [] {
      assert a + b == b;
    } else {
      QueueSizeSplit(a[1..], b);
      assert (a + b)[1..] == a[1..] + b;
    }
  }

  lemma ActBounded(st: State, a: Action)
    ensures QueueSize(Act(st, a).queue) <= QueueSize(st.queue) + SizeOfAction(a)
  {
    if a.Submission? {
      var st' := Act(st, a);
      var done := st'.queue[|st.queue|..];
      assert st'.queue == st.queue + done;
      QueueSizeSplit(st.queue, done);
      assert done == [] || (|done| == 1 && done[0].cb == a.cb);
    }
  }

  lemma {:induction false} ActsBounded(st: State, actions: seq<Action>)
    ensures QueueSize(Acts(st, actions).queue) <= QueueSize(st.queue) + SizeOf(actions)
    decreases |actions|
  {
    if actions == [] {
    } else {
      ActBounded(st, actions[0]);
      ActsBounded(Act(st, actions[0]), actions[1..]);
    }
  }

  /** Each delivery uses up more than its callback adds. */
  lemma FireShrinks(st: State)
    requires st.queue != []
    ensures QueueSize(Fire(st).queue) < QueueSize(st.queue)
  {
    ActsBounded(st, st.queue[0].cb.actions);
    var q := Acts(st, st.queue[0].cb.actions).queue;
    assert q[0] == st.queue[0];
  }

  /** One pass over `waitset_`, callbacks included; events they append are visited too. */
  function Sweep(st: State): (st': State)
    ensures st'.queue == []
    decreases QueueSize(st.queue)
  {
    if st.queue == [] then st else FireShrinks(st); Sweep(Fire(st))
  }

  /** The loop of Run, over what the system reports each time; after the last report it stays blocked. */
  function RunLoop(st: State, script: seq<seq<Report>>): State
    decreases |script|
  {
    if !st.running then st
    else if script == [] then Sweep(st)
    else RunLoop(Wait(Sweep(st), script[0]), script[1..])
  }
}
