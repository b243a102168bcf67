/** Edge-triggered readiness: no armed read or write is left behind on a ready socket. */
module Wakeups {
  import opened Engine
  import opened Conservation

  /** What the kernel knows of a socket: whether reading and writing would succeed, and whether a
      change to that has not been reported yet. */
  datatype Kernel = Kernel(readable: bool, writable: bool, inEdge: bool, outEdge: bool)

  const QUIET := Kernel(false, false, false, false)

  datatype World = World(eng: State, kernel: map<nat, Kernel>)

  const START := World(BLANK, map[])

  function KernelOf(w: World, s: nat): Kernel {
    if s in w.kernel then w.kernel[s] else QUIET
  }

  datatype Move =
    | Arrival(s: nat)  // something to read, or to accept
    | Drain(s: nat)    // nothing left to read
    | Space(s: nat)    // room to write
    | Fill(s: nat)     // no room left
    | Request(s: nat, op: Op, result: int, cb: Callback)
    | Notice(r: Report)
    | Delivery
    | Stop

  /** What a notice leaves of the edges. */
  function Noticed(k: Kernel): Kernel { k.(inEdge := false, outEdge := false) }

  function Moved(w: World, m: Move): World {
    match m
    case Arrival(s) => w.(kernel := w.kernel[s := KernelOf(w, s).(readable := true, inEdge := true)])
    case Drain(s) => w.(kernel := w.kernel[s := KernelOf(w, s).(readable := false)])
    case Space(s) => w.(kernel := w.kernel[s := KernelOf(w, s).(writable := true, outEdge := true)])
    case Fill(s) => w.(kernel := w.kernel[s := KernelOf(w, s).(writable := false)])
    case Request(s, op, result, cb) => w.(eng := Submit(w.eng, s, op, result, cb))
    case Notice(r) => World(OnReport(w.eng, r), w.kernel[r.sock := Noticed(KernelOf(w, r.sock))])
    case Delivery => if w.eng.queue == [] then w else w.(eng := Deliver(w.eng))
    case Stop => w.(eng := w.eng.(running := false))
  }

  function After(w: World, moves: seq<Move>): World
    decreases |moves|
  {
    if moves == [] then w else After(Moved(w, moves[0]), moves[1..])
  }

  // ------------------------------------------------------------- what is asked of the moves on one socket

  /** The operations that wait for input. */
  predicate Inward(op: Kind) { ReadKind(op) || op == TIMETICK || op == SIGNAL }

  /** The operations that wait for output. */
  predicate Outward(op: Kind) { WriteKind(op) || op == CONNECT }

  /** An attempt says it would block only if it would. */
  predicate Honest(slot: Slot, k: Kernel, op: Kind, result: int) {
    TriesNow(slot, op) && result == -EWOULDBLOCK ==>
      (ReadKind(op) ==> !k.readable) && (Outward(op) ==> !k.writable)
  }

  /** A notice carries everything the socket is ready for, and perhaps more. */
  predicate FullNotice(slot: Slot, k: Kernel, r: Report) {
    && slot.known && (k.readable ==> r.input) && (k.writable ==> r.output)
    && (r.output && WriteKind(slot.kind) && r.outResult == -EWOULDBLOCK ==> !k.writable)
  }

  /** The kernel is honest about socket s, and tells of no error and no hang-up there. What happens on
      the other sockets is arbitrary. */
  predicate PossibleAt(w: World, m: Move, s: nat) {
    match m
    case Request(t, op, result, _) => t == s ==> Honest(SlotOf(w.eng, s), KernelOf(w, s), op, result)
    case Notice(r) => r.sock == s ==> !r.err && !r.hup && FullNotice(SlotOf(w.eng, s), KernelOf(w, s), r)
    case _ => true
  }

  predicate RunAt(w: World, moves: seq<Move>, s: nat)
    decreases |moves|
  {
    moves == [] || (PossibleAt(w, moves[0], s) && RunAt(Moved(w, moves[0]), moves[1..], s))
  }

  /** Nothing submitted on socket s, and every readiness still to be reported. */
  predicate StartingAt(w: World, s: nat) {
    var k := KernelOf(w, s);
    s !in w.eng.slots && (k.readable ==> k.inEdge) && (k.writable ==> k.outEdge)
  }

  // ------------------------------------------------------------- the invariants, one for each side

  /** `rp` is down only if nothing is readable, or an edge is still to come; and whatever waits for
      input on a readable socket has an edge to come. */
  predicate InSide(slot: Slot, k: Kernel) {
    && (k.readable && !k.inEdge ==> slot.rp)
    && (Armed(slot) && Inward(slot.kind) && k.readable ==> k.inEdge)
  }

  /** `wp` is down only if there is no room, or an edge is still to come; and whatever waits for output on
      a writable socket has an edge to come. */
  predicate OutSide(slot: Slot, k: Kernel) {
    && (k.writable && !k.outEdge ==> slot.wp)
    && (Armed(slot) && Outward(slot.kind) && k.writable ==> k.outEdge)
  }

  predicate InAwake(w: World, s: nat) { InSide(SlotOf(w.eng, s), KernelOf(w, s)) }

  predicate OutAwake(w: World, s: nat) { OutSide(SlotOf(w.eng, s), KernelOf(w, s)) }

  /** Whether a submission leaves the input side in order: a SENDTO that would block lowers `rp`, and
      TIMETICK and SIGNAL wait without looking. */
  predicate RequestKeepsIn(slot: Slot, k: Kernel, op: Kind, result: int) {
    && (op == SENDTO ==> !slot.wp || result != -EWOULDBLOCK || !k.readable || k.inEdge)
    && (op == TIMETICK || op == SIGNAL ==> !k.readable || k.inEdge)
  }

  /** Whether a notice does: a SENDTO that would block lowers `rp` again, and TIMETICK and SIGNAL lower
      it when they finish. */
  predicate NoticeKeepsIn(slot: Slot, k: Kernel, r: Report) {
    && (slot.kind == SENDTO ==> !r.output || r.outResult != -EWOULDBLOCK || !k.readable)
    && ((slot.kind == TIMETICK || slot.kind == SIGNAL) && r.input ==> !k.readable)
  }

  /** Whether a move leaves the input side of socket s in order. */
  predicate KeptIn(w: World, m: Move, s: nat) {
    match m
    case Request(t, op, result, _) => t == s ==> RequestKeepsIn(SlotOf(w.eng, s), KernelOf(w, s), op, result)
    case Notice(r) => r.sock == s ==> NoticeKeepsIn(SlotOf(w.eng, s), KernelOf(w, s), r)
    case _ => true
  }

  predicate RunKeptIn(w: World, moves: seq<Move>, s: nat)
    decreases |moves|
  {
    moves == [] || (KeptIn(w, moves[0], s) && RunKeptIn(Moved(w, moves[0]), moves[1..], s))
  }

  lemma RequestAndSides(slot: Slot, k: Kernel, op: Op, ev: Event, result: int)
    requires Honest(slot, k, op, result)
    ensures OutSide(slot, k) ==> OutSide(SubmitSlot(slot, op, ev, result).0, k)
    ensures InSide(slot, k) ==> (InSide(SubmitSlot(slot, op, ev, result).0, k) <==> RequestKeepsIn(slot, k, op, result))
  {
  }

  lemma NoticeAndSides(slot: Slot, k: Kernel, r: Report)
    requires !r.err && !r.hup && FullNotice(slot, k, r)
    ensures OutSide(slot, k) ==> OutSide(ReportSlot(slot, r).0, Noticed(k))
    ensures InSide(slot, k) ==> (InSide(ReportSlot(slot, r).0, Noticed(k)) <==> NoticeKeepsIn(slot, k, r))
  {
  }

  /** Moves on other sockets do not touch socket s. */
  predicate OnOther(m: Move, s: nat) {
    match m
    case Request(t, _, _, _) => t != s
    case Notice(r) => r.sock != s
    case Delivery => true
    case Stop => true
    case _ => m.s != s
  }

  lemma MovedOnOther(w: World, m: Move, s: nat)
    requires OnOther(m, s)
    ensures SlotOf(Moved(w, m).eng, s) == SlotOf(w.eng, s) && KernelOf(Moved(w, m), s) == KernelOf(w, s)
  {
  }

  /** Every move keeps the output side in order, and the input side exactly under its condition. */
  lemma MoveAndSides(w: World, m: Move, s: nat)
    requires PossibleAt(w, m, s)
    ensures OutAwake(w, s) ==> OutAwake(Moved(w, m), s)
    ensures InAwake(w, s) ==> (InAwake(Moved(w, m), s) <==> KeptIn(w, m, s))
  {
    var slot, k := SlotOf(w.eng, s), KernelOf(w, s);
    if OnOther(m, s) {
      MovedOnOther(w, m, s);
    } else {
      match m
      case Request(_, op, result, cb) => RequestAndSides(slot, k, op, Event(w.eng.next, WAITING, 0, 0, cb), result);
      case Notice(r) => NoticeAndSides(slot, k, r);
      case _ =>
    }
  }

  lemma {:induction false} RunStaysAwake(w: World, moves: seq<Move>, s: nat)
    requires RunAt(w, moves, s)
    ensures OutAwake(w, s) ==> OutAwake(After(w, moves), s)
    ensures InAwake(w, s) && RunKeptIn(w, moves, s) ==> InAwake(After(w, moves), s)
    decreases |moves|
  {
    if moves == [] {
    } else {
      MoveAndSides(w, moves[0], s);
      RunStaysAwake(Moved(w, moves[0]), moves[1..], s);
    }
  }

  /** Over a run the input side is in order all the time exactly if every move keeps it. */
  lemma {:induction false} AlwaysAwake(w: World, moves: seq<Move>, s: nat)
    requires RunAt(w, moves, s) && InAwake(w, s)
    ensures RunKeptIn(w, moves, s) <==> forall n :: 0 <= n <= |moves| ==> InAwake(After(w, moves[..n]), s)
    decreases |moves|
  {
    if moves == [] {
    } else {
      var w', rest := Moved(w, moves[0]), moves[1..];
      MoveAndSides(w, moves[0], s);
      forall n | 0 < n <= |moves|
        ensures After(w, moves[..n]) == After(w', rest[..n - 1])
      {
        assert moves[..n][1..] == rest[..n - 1];
      }
      assert After(w', rest[..0]) == w' && After(w, moves[..0]) == w;
      if InAwake(w', s) {
        AlwaysAwake(w', rest, s);
        forall n | 0 <= n <= |rest|
          ensures After(w', rest[..n]) == After(w, moves[..n + 1])
        {
        }
      } else {
        assert After(w, moves[..1]) == w';
      }
    }
  }

  /** In every state a run can reach, an armed WRITE, SENDTO or CONNECT on a writable socket has an edge
      pending; and so has whatever is armed for input on a readable one, if every move kept the input side
      in order. The other sockets may do anything. */
  lemma NoLostWakeup(w: World, moves: seq<Move>, s: nat)
    requires StartingAt(w, s) && RunAt(w, moves, s)
    ensures var w' := After(w, moves); var slot, k := SlotOf(w'.eng, s), KernelOf(w', s);
      && (Armed(slot) && Outward(slot.kind) && k.writable ==> k.outEdge)
      && (RunKeptIn(w, moves, s) && Armed(slot) && Inward(slot.kind) && k.readable ==> k.inEdge)
  {
    assert InAwake(w, s) && OutAwake(w, s);
    RunStaysAwake(w, moves, s);
  }

  /** The notice of a pending edge finishes the operation, and only it, with its attempt's result. */
  lemma EdgeFinishes(w: World, s: nat, r: Report)
    requires r.sock == s && PossibleAt(w, Notice(r), s) && Armed(SlotOf(w.eng, s))
    ensures var slot, k := SlotOf(w.eng, s), KernelOf(w, s);
      (Inward(slot.kind) && k.readable) || (Outward(slot.kind) && k.writable) ==>
        OnReport(w.eng, r).queue == w.eng.queue + [Finish(slot.ev, Told(slot.kind, r))]
  {
    ReportTells(SlotOf(w.eng, s), r);
  }

  // ------------------------------------------------------------- sockets that never lower `rp` wrongly

  predicate Plain(op: Kind) { op != SENDTO && op != TIMETICK && op != SIGNAL }

  /** Neither SENDTO nor TIMETICK nor SIGNAL is submitted on socket s. */
  predicate OnlyPlain(moves: seq<Move>, s: nat) {
    forall i :: 0 <= i < |moves| && moves[i].Request? && moves[i].s == s ==> Plain(moves[i].op)
  }

  lemma PlainMove(w: World, m: Move, s: nat)
    requires (m.Request? && m.s == s ==> Plain(m.op)) && PossibleAt(w, m, s)
    requires Armed(SlotOf(w.eng, s)) ==> Plain(SlotOf(w.eng, s).kind)
    ensures KeptIn(w, m, s) && (Armed(SlotOf(Moved(w, m).eng, s)) ==> Plain(SlotOf(Moved(w, m).eng, s).kind))
  {
    if OnOther(m, s) {
      MovedOnOther(w, m, s);
    }
  }

  /** On such a socket every move keeps the input side. */
  lemma {:induction false} PlainIsKept(w: World, moves: seq<Move>, s: nat)
    requires OnlyPlain(moves, s) && (Armed(SlotOf(w.eng, s)) ==> Plain(SlotOf(w.eng, s).kind)) && RunAt(w, moves, s)
    ensures RunKeptIn(w, moves, s)
    decreases |moves|
  {
    if moves == [] {
    } else {
      var w', m := Moved(w, moves[0]), moves[0];
      PlainMove(w, m, s);
      PlainIsKept(w', moves[1..], s);
    }
  }

  // ------------------------------------------------------------- where the guarantee ends

  /** A flag is down only if the socket is not ready, or an edge is still to come. */
  predicate FlagsTell(slot: Slot, k: Kernel) {
    (k.readable && !k.inEdge ==> slot.rp) && (k.writable && !k.outEdge ==> slot.wp)
  }

  /** A SENDTO that would block clears `rp` and leaves `wp`: the flags still tell the truth exactly if
      it was not attempted, or did not block, or there was nothing to read without an edge pending. */
  lemma SendtoKeepsFlags(slot: Slot, k: Kernel, ev: Event, result: int)
    requires FlagsTell(slot, k) && Honest(slot, k, SENDTO, result)
    ensures FlagsTell(SubmitSlot(slot, SENDTO, ev, result).0, k) <==>
      !slot.wp || result != -EWOULDBLOCK || !k.readable || k.inEdge
  {
  }

  /** A waiting SENDTO that would block again clears the same flag. */
  lemma SendtoNoticeKeepsFlags(slot: Slot, k: Kernel, r: Report)
    requires slot.kind == SENDTO && FullNotice(slot, k, r) && !r.err && !r.hup
    ensures FlagsTell(ReportSlot(slot, r).0, Noticed(k)) <==>
      !r.output || r.outResult != -EWOULDBLOCK || !k.readable
  {
  }

  /** A tick or a signal is completed and lowers `rp`, the tick without reading the timer at all: the
      flags tell the truth exactly if nothing is left to read. */
  lemma TickKeepsFlags(slot: Slot, k: Kernel, r: Report)
    requires (slot.kind == TIMETICK || slot.kind == SIGNAL) && FullNotice(slot, k, r) && r.input && !r.err && !r.hup
    ensures FlagsTell(ReportSlot(slot, r).0, Noticed(k)) <==> !k.readable
  {
  }

  /** A notice that includes a hang-up, unless an error goes before it, is all a waiting read is told:
      exactly then the read goes on waiting, and the edge is gone. */
  lemma HangupStrandsRead(slot: Slot, k: Kernel, r: Report)
    requires Armed(slot) && ReadKind(slot.kind) && FullNotice(slot, k, r) && k.readable
    ensures Armed(ReportSlot(slot, r).0) <==> r.hup && !r.err
    ensures Armed(ReportSlot(slot, r).0) ==> ReportSlot(slot, r) == (slot, [])
  {
  }

  /** A hang-up or an error leaves both flags as they are, so they tell the truth exactly if they were
      up already for whatever the socket is ready for. */
  lemma HangupKeepsFlags(slot: Slot, k: Kernel, r: Report)
    requires r.hup || r.err
    ensures FlagsTell(ReportSlot(slot, r).0, Noticed(k)) <==> (k.readable ==> slot.rp) && (k.writable ==> slot.wp)
  {
  }

  // ------------------------------------------------------------- runs that end there

  /** Something waits for input on a readable socket, and no edge is to come. */
  predicate Stranded(w: World, s: nat) {
    var slot, k := SlotOf(w.eng, s), KernelOf(w, s);
    Armed(slot) && Inward(slot.kind) && k.readable && !k.inEdge
  }

  lemma OneMove(w: World, moves: seq<Move>, m: Move, rest: seq<Move>, s: nat)
    requires moves == [m] + rest && PossibleAt(w, m, s) && RunAt(Moved(w, m), rest, s)
    ensures RunAt(w, moves, s) && After(w, moves) == After(Moved(w, m), rest)
  {
    assert moves[1..] == rest;
  }

  lemma {:induction false} MovesSplit(w: World, a: seq<Move>, b: seq<Move>, s: nat)
    requires RunAt(w, a, s) && RunAt(After(w, a), b, s)
    ensures RunAt(w, a + b, s) && After(w, a + b) == After(After(w, a), b)
    decreases |a|
  {
    if a == [] {
      assert a + b == b;
    } else {
      MovesSplit(Moved(w, a[0]), a[1..], b, s);
      OneMove(w, a + b, a[0], a[1..] + b, s);
    }
  }

  /** A read finishes and leaves more to read. */
  const READ_ONCE: seq<Move> := [
    Request(0, READ, 0, NOTHING), Arrival(0), Space(0), Notice(Report(0, false, false, true, true, 1, 0, 0))]

  /** The socket fills up, a SENDTO blocks, and another read takes its slot. */
  const BLOCKED_SENDTO: seq<Move> := [
    Fill(0), Request(0, SENDTO, -EWOULDBLOCK, NOTHING), Request(0, READ, 0, NOTHING)]

  lemma AfterReadOnce()
    ensures RunAt(START, READ_ONCE, 0)
    ensures var w := After(START, READ_ONCE); var slot := SlotOf(w.eng, 0);
      slot.known && slot.rp && slot.wp && KernelOf(w, 0) == Kernel(true, true, false, false)
  {
    var m := READ_ONCE;
    var w1 := Moved(START, m[0]);
    var w2 := Moved(w1, m[1]);
    var w3 := Moved(w2, m[2]);
    OneMove(w3, m[3..], m[3], [], 0);
    OneMove(w2, m[2..], m[2], m[3..], 0);
    OneMove(w1, m[1..], m[1], m[2..], 0);
    OneMove(START, m, m[0], m[1..], 0);
  }

  lemma AfterBlockedSendto(w: World)
    requires var slot := SlotOf(w.eng, 0); slot.rp && slot.wp && KernelOf(w, 0) == Kernel(true, true, false, false)
    ensures RunAt(w, BLOCKED_SENDTO, 0) && Stranded(After(w, BLOCKED_SENDTO), 0)
  {
    var m := BLOCKED_SENDTO;
    var w1 := Moved(w, m[0]);
    var w2 := Moved(w1, m[1]);
    OneMove(w2, m[2..], m[2], [], 0);
    OneMove(w1, m[1..], m[1], m[2..], 0);
    OneMove(w, m, m[0], m[1..], 0);
  }

  /** A blocked SENDTO can strand a read. */
  lemma SendtoLosesWakeup()
    ensures var moves := READ_ONCE + BLOCKED_SENDTO;
      StartingAt(START, 0) && RunAt(START, moves, 0) && Stranded(After(START, moves), 0)
  {
    AfterReadOnce();
    AfterBlockedSendto(After(START, READ_ONCE));
    MovesSplit(START, READ_ONCE, BLOCKED_SENDTO, 0);
  }

  /** The peer sends something and hangs up while a read waits. */
  const HANGUP: seq<Move> := [Request(0, READ, 0, NOTHING), Arrival(0)]

  const HANGUP_NOTICE := Report(0, false, true, true, false, 1, 0, 0)

  /** A hang-up can strand a read, in a state that is reached without one. */
  lemma HangupLosesWakeup()
    ensures StartingAt(START, 0) && RunAt(START, HANGUP, 0)
    ensures var w := After(START, HANGUP);
      FullNotice(SlotOf(w.eng, 0), KernelOf(w, 0), HANGUP_NOTICE) && Stranded(Moved(w, Notice(HANGUP_NOTICE)), 0)
  {
    var w1 := Moved(START, HANGUP[0]);
    OneMove(w1, HANGUP[1..], HANGUP[1], [], 0);
    OneMove(START, HANGUP, HANGUP[0], HANGUP[1..], 0);
  }
  /** A timer expires and nobody reads it; another tick is waited for. */
  const TWO_TICKS: seq<Move> := [
    Request(0, TIMETICK, 0, NOTHING), Arrival(0), Notice(Report(0, false, false, true, false, 0, 0, 0)),
    Request(0, TIMETICK, 0, NOTHING)]

  /** A tick leaves `rp` down on a readable timer, and the next one waits without an edge to come. */
  lemma TickLosesWakeup()
    ensures StartingAt(START, 0) && RunAt(START, TWO_TICKS, 0)
    ensures var w := After(START, TWO_TICKS); !SlotOf(w.eng, 0).rp && Stranded(w, 0)
  {
    var m := TWO_TICKS;
    var w1 := Moved(START, m[0]);
    var w2 := Moved(w1, m[1]);
    var w3 := Moved(w2, m[2]);
    OneMove(w3, m[3..], m[3], [], 0);
    OneMove(w2, m[2..], m[2], m[3..], 0);
    OneMove(w1, m[1..], m[1], m[2..], 0);
    OneMove(START, m, m[0], m[1..], 0);
  }
}
