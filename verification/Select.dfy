/** The engine over select(): one slot for input and one for output for each socket. */
module Select {
  import opened Engine
  import opened Conservation

  const WSAEWOULDBLOCK := 10035
  const WSAEISCONN := 10056

  /** SockEventData; a type never assigned is NOOP. */
  datatype Data = Data(kind: Kind, event: Event, processing: bool)

  /** SockEvent */
  datatype Pair = Pair(rdata: Data, wdata: Data, ractivated: bool, wactivated: bool)

  const FRESH_DATA := Data(NOOP, NO_EVENT, false)
  const FRESH_PAIR := Pair(FRESH_DATA, FRESH_DATA, false, false)

  datatype Selector = Selector(socks: map<nat, Pair>, queue: seq<Event>,
                               delivered: seq<Event>, lost: set<nat>, next: nat)

  /** The outcome of a system call: how much it moved, or the error GetSockErr then tells. */
  datatype Call = Moved(n: nat) | Refused(err: int)

  predicate OutKind(k: Kind) { k == WRITE || k == SENDTO || k == CONNECT }

  function PairOf(st: Selector, s: nat): Pair {
    if s in st.socks then st.socks[s] else FRESH_PAIR
  }

  // ------------------------------------------------------------- attempts

  /** TryRead, TryWrite, TryRecvfrom, TrySendto: a call that would block counts as 0. */
  function Try(d: Data, call: Call): (Data, int) {
    match call
    case Moved(n) => (d, n)
    case Refused(err) => if err == WSAEWOULDBLOCK then (d.(processing := false), 0) else (d, -err)
  }

  /** TryAccept: 0, or -1 if it would block, or the error itself. */
  function TryAccept(d: Data, call: Call): (Data, int) {
    match call
    case Moved(_) => (d, 0)
    case Refused(err) => if err == WSAEWOULDBLOCK then (d.(processing := false), -1) else (d, err)
  }

  /** Connect and TryConnect */
  function ConnectResult(call: Call): int {
    match call
    case Moved(_) => 0
    case Refused(err) => err
  }

  // ------------------------------------------------------------- submissions

  function AddEvent(p: Pair, kind: Kind, ev: Event): Pair {
    if ReadKind(kind) then p.(rdata := p.rdata.(kind := kind, event := ev), ractivated := true)
    else p.(wdata := p.wdata.(kind := kind, event := ev), wactivated := true)
  }

  /** What a submission's own attempt makes of a length: nothing happens for 0. */
  function Settled(ev: Event, len: int): seq<Event> {
    if len < 0 then [ev.(status := ERR, error := -len)]
    else if len != 0 then [ev.(status := COMPLETED, res := len)]
    else []
  }

  function SubmitIn(p: Pair, kind: Kind, ev: Event, call: Call): (Pair, seq<Event>)
    requires kind == READ || kind == RECVFROM
  {
    var q := AddEvent(p, kind, ev);
    if !q.rdata.processing then (q, [])
    else
      var (d, len) := Try(q.rdata, call);
      (q.(rdata := d, ractivated := len == 0), Settled(ev, len))
  }

  function SubmitOut(p: Pair, kind: Kind, ev: Event, call: Call): (Pair, seq<Event>)
    requires kind == WRITE || kind == SENDTO
  {
    var q := AddEvent(p, kind, ev);
    if !q.wdata.processing then (q, [])
    else
      var (d, len) := Try(q.wdata, call);
      (q.(wdata := d, wactivated := len == 0), Settled(ev, len))
  }

  /** Only a connection that is under way touches the socket's entry. */
  function SubmitConnect(p: Pair, ev: Event, call: Call): (Pair, seq<Event>) {
    var err := ConnectResult(call);
    if err == 0 then (p, [ev.(status := COMPLETED)])
    else if err == WSAEWOULDBLOCK then (AddEvent(p, CONNECT, ev), [])
    else (p, [ev.(status := ERR, error := err)])
  }

  /** The immediate path switches off `wactivated`, and completes what would block. */
  function SubmitAccept(p: Pair, ev: Event, call: Call): (Pair, seq<Event>) {
    var q := AddEvent(p, ACCEPT, ev);
    if !q.rdata.processing then (q, [])
    else
      var (d, len) := TryAccept(q.rdata, call);
      if len > 0 then (q.(rdata := d, wactivated := false), [ev.(status := ERR, error := -len)])
      else if len != 0 then (q.(rdata := d, wactivated := false), [ev.(status := COMPLETED, res := len)])
      else (q.(rdata := d), [])
  }

  type SelectOp = k: Kind | ReadKind(k) || OutKind(k) witness READ

  function SubmitPair(p: Pair, op: SelectOp, ev: Event, call: Call): (Pair, seq<Event>) {
    if op == ACCEPT then SubmitAccept(p, ev, call)
    else if op == CONNECT then SubmitConnect(p, ev, call)
    else if ReadKind(op) then SubmitIn(p, op, ev, call)
    else SubmitOut(p, op, ev, call)
  }

  predicate ActivatedFor(p: Pair, op: Kind) { if ReadKind(op) then p.ractivated else p.wactivated }

  function EventFor(p: Pair, op: Kind): Event { if ReadKind(op) then p.rdata.event else p.wdata.event }

  function SubmitTo(st: Selector, s: nat, op: SelectOp, call: Call, cb: Callback): Selector {
    var p := PairOf(st, s);
    var (p', done) := SubmitPair(p, op, Event(st.next, WAITING, 0, 0, cb), call);
    var untouched := op == CONNECT && done != [];
    Selector(if untouched then st.socks else st.socks[s := p'], st.queue + done, st.delivered,
             if ActivatedFor(p, op) && !untouched then st.lost + {EventFor(p, op).id} else st.lost, st.next + 1)
  }

  // ------------------------------------------------------------- readiness

  function WithLength(ev: Event, len: int): Event {
    if len < 0 then ev.(status := ERR, error := -len) else ev.(status := COMPLETED, res := len)
  }

  function ReadyIn(p: Pair, call: Call): (Pair, seq<Event>) {
    var begun := p.rdata.(processing := true);
    if p.rdata.kind == ACCEPT then
      var (d, res) := TryAccept(begun, call);
      var ev := if res > 0 then d.event.(status := ERR, error := res) else d.event.(status := COMPLETED);
      (p.(rdata := d.(event := ev), ractivated := false), [ev])
    else if ReadKind(p.rdata.kind) then
      var (d, len) := Try(begun, call);
      var ev := WithLength(d.event, len);
      (p.(rdata := d.(event := ev), ractivated := false), [ev])
    else (p, [])
  }

  function ReadyOut(p: Pair, call: Call): (Pair, seq<Event>) {
    if p.wdata.kind == CONNECT then
      var res := ConnectResult(call);
      var ev :=
        if res == WSAEISCONN then p.wdata.event.(status := COMPLETED)
        else p.wdata.event.(status := ERR, error := res);
      (p.(wdata := p.wdata.(event := ev), wactivated := false), [ev])
    else if WriteKind(p.wdata.kind) && p.wactivated then
      var (d, len) := Try(p.wdata.(processing := true), call);
      var ev := WithLength(d.event, len);
      (p.(wdata := d.(event := ev), wactivated := false), [ev])
    else (p, [])
  }

  /** What select() left in the two sets, and how the calls made because of it turn out. */
  datatype Selected = Selected(ins: set<nat>, outs: set<nat>, inCalls: map<nat, Call>, outCalls: map<nat, Call>)

  function CallFor(calls: map<nat, Call>, s: nat): Call { if s in calls then calls[s] else Moved(0) }

  /** A socket ready for input that does not wait for it is skipped, ready for output or not. */
  function ReadyPair(p: Pair, s: nat, sel: Selected): (Pair, seq<Event>) {
    if s in sel.ins && !p.ractivated then (p, [])
    else
      var (p1, done1) := if s in sel.ins then ReadyIn(p, CallFor(sel.inCalls, s)) else (p, []);
      var (p2, done2) := if s in sel.outs then ReadyOut(p1, CallFor(sel.outCalls, s)) else (p1, []);
      (p2, done1 + done2)
  }

  function OnSock(st: Selector, s: nat, sel: Selected): Selector
    requires s in st.socks
  {
    var (p', done) := ReadyPair(st.socks[s], s, sel);
    st.(socks := st.socks[s := p'], queue := st.queue + done)
  }

  /** The loop over the map, by ascending sockets from `k` on. */
  function WaitFrom(st: Selector, k: nat, bound: nat, sel: Selected): Selector
    decreases bound - k
  {
    if k >= bound then st
    else WaitFrom(if k in st.socks then OnSock(st, k, sel) else st, k + 1, bound, sel)
  }

  // ------------------------------------------------------------- as one slot for each direction

  function Places(socks: set<nat>): set<nat> {
    (set s | s in socks :: 2 * s) + (set s | s in socks :: 2 * s + 1)
  }

  function Half(d: Data, activated: bool): Slot {
    Slot(d.kind != NOOP, if activated then d.kind else NOOP, d.event, false, false)
  }

  function SlotAt(socks: map<nat, Pair>, p: nat): Slot
    requires p / 2 in socks
  {
    if p % 2 == 0 then Half(socks[p / 2].rdata, socks[p / 2].ractivated)
    else Half(socks[p / 2].wdata, socks[p / 2].wactivated)
  }

  lemma PlacesOf(socks: set<nat>, p: nat)
    ensures p in Places(socks) <==> p / 2 in socks
  {
    assert p == if p % 2 == 0 then 2 * (p / 2) else 2 * (p / 2) + 1;
  }

  /** The two slots of socket s stand at 2s and 2s + 1. */
  ghost function Flat(st: Selector): State {
    State(map p | p in Places(st.socks.Keys) :: PlacesOf(st.socks.Keys, p); SlotAt(st.socks, p),
          st.queue, true, st.delivered, st.lost, st.next)
  }

  /** What is activated has a type of its direction. */
  predicate Typed(p: Pair) {
    (p.ractivated ==> ReadKind(p.rdata.kind)) && (p.wactivated ==> OutKind(p.wdata.kind))
  }

  ghost predicate AllTyped(st: Selector) {
    forall s :: s in st.socks ==> Typed(st.socks[s])
  }

  /** Each direction of each socket conserves its events. */
  ghost predicate Sound(st: Selector) {
    AllTyped(st) && Conserved(Flat(st))
  }

  lemma FlatSlots(st: Selector, p: nat)
    ensures p in Flat(st).slots <==> p / 2 in st.socks
    ensures p / 2 in st.socks ==> Flat(st).slots[p] == SlotAt(st.socks, p)
  {
    PlacesOf(st.socks.Keys, p);
  }

  /** A socket's entry is created fresh. */
  lemma Entering(st: Selector, s: nat)
    requires Sound(st) && s !in st.socks
    ensures Sound(st.(socks := st.socks[s := FRESH_PAIR]))
  {
    var st' := st.(socks := st.socks[s := FRESH_PAIR]);
    var f, f' := Flat(st), Flat(st');
    forall p
      ensures ArmedAt(f', p) <==> ArmedAt(f, p)
      ensures ArmedAt(f, p) ==> f'.slots[p].ev == f.slots[p].ev
      ensures p in f'.slots && f'.slots[p].known ==> p in f.slots && f.slots[p].known && f'.slots[p].ev == f.slots[p].ev
    {
      FlatSlots(st, p);
      FlatSlots(st', p);
    }
    assert Finished(f') == Finished(f);
    Unmoved(f, f');
  }

  lemma OneUpdated(m: map<nat, Slot>, m': map<nat, Slot>, place: nat, slot: Slot)
    requires forall p :: p in m' <==> p in m || p == place
    requires forall p :: p in m' ==> m'[p] == if p == place then slot else m[p]
    ensures m' == m[place := slot]
  {
  }

  lemma OtherPlace(socks: map<nat, Pair>, s: nat, p': Pair, place: nat, p: nat)
    requires s in socks
    requires (place == 2 * s && p'.wdata == socks[s].wdata && p'.wactivated == socks[s].wactivated)
      || (place == 2 * s + 1 && p'.rdata == socks[s].rdata && p'.ractivated == socks[s].ractivated)
    ensures place / 2 == s
    ensures p / 2 in socks && p != place ==> SlotAt(socks[s := p'], p) == SlotAt(socks, p)
  {
    assert p / 2 == s && p != place ==> p % 2 != place % 2;
  }

  /** Changing one direction of a socket changes one place. */
  lemma FlatUpdate(st: Selector, s: nat, p': Pair, place: nat)
    requires s in st.socks
    requires (place == 2 * s && p'.wdata == st.socks[s].wdata && p'.wactivated == st.socks[s].wactivated)
      || (place == 2 * s + 1 && p'.rdata == st.socks[s].rdata && p'.ractivated == st.socks[s].ractivated)
    ensures Flat(st.(socks := st.socks[s := p'])).slots == Flat(st).slots[place := SlotAt(st.socks[s := p'], place)]
  {
    var st' := st.(socks := st.socks[s := p']);
    var m, m' := Flat(st).slots, Flat(st').slots;
    forall p: nat
      ensures p in m' <==> p in m || p == place
      ensures p in m' ==> m'[p] == if p == place then SlotAt(st'.socks, place) else m[p]
    {
      FlatSlots(st, p);
      FlatSlots(st', p);
      OtherPlace(st.socks, s, p', place, p);
    }
    OneUpdated(m, m', place, SlotAt(st'.socks, place));
  }

  // ------------------------------------------------------------- conservation

  ghost function Place(s: nat, op: Kind): nat {
    if ReadKind(op) then 2 * s else 2 * s + 1
  }

  /** What a submission other than ACCEPT makes of its socket's entry. */
  lemma SubmitPairFacts(p: Pair, op: SelectOp, ev: Event, call: Call)
    requires Typed(p) && op != ACCEPT && Untouched(ev)
    ensures var (p', done) := SubmitPair(p, op, ev, call);
      && Typed(p') && |done| <= 1 && (done != [] ==> done[0].id == ev.id && done[0].status != WAITING)
      && (if op == CONNECT && done != [] then p' == p
          else
            && (ActivatedFor(p', op) <==> done == []) && EventFor(p', op) == ev
            && (if ReadKind(op) then p'.wdata == p.wdata && p'.wactivated == p.wactivated && p'.rdata.kind != NOOP
                else p'.rdata == p.rdata && p'.ractivated == p.ractivated && p'.wdata.kind != NOOP))
  {
  }

  ghost predicate TakesPlace(f: State, place: nat, slot': Slot, f': State, done: seq<Event>) {
    && f'.slots == f.slots[place := slot'] && Finished(f') == Finished(f) + done && f'.next == f.next + 1
    && slot'.known && slot'.ev.id == f.next && Untouched(slot'.ev) && (Armed(slot') <==> done == [])
    && |done| <= 1 && (done != [] ==> done[0].id == f.next && done[0].status != WAITING)
    && f'.lost == if Armed(SlotOf(f, place)) then f.lost + {SlotOf(f, place).ev.id} else f.lost
  }

  /** The slots depend on the map of sockets alone. */
  lemma SlotsOnly(st: Selector, st': Selector)
    requires st.socks == st'.socks
    ensures Flat(st).slots == Flat(st').slots
  {
  }

  /** A direction's own place. */
  lemma HalfAt(st: Selector, s: nat, op: SelectOp)
    requires s in st.socks && Typed(st.socks[s])
    ensures Place(s, op) / 2 == s
    ensures var slot := SlotAt(st.socks, Place(s, op));
      && SlotOf(Flat(st), Place(s, op)) == slot && slot.ev == EventFor(st.socks[s], op)
      && (Armed(slot) <==> ActivatedFor(st.socks[s], op))
      && slot.known == ((if ReadKind(op) then st.socks[s].rdata else st.socks[s].wdata).kind != NOOP)
  {
    FlatSlots(st, Place(s, op));
  }

  /** One direction is given to a new submission, which waits or finishes at once. */
  ghost predicate Takes(st: Selector, s: nat, p': Pair, op: SelectOp, done: seq<Event>, st': Selector) {
    && s in st.socks && Typed(st.socks[s]) && Typed(p') && |done| <= 1
    && (done != [] ==> done[0].id == st.next && done[0].status != WAITING)
    && (ActivatedFor(p', op) <==> done == []) && EventFor(p', op).id == st.next && Untouched(EventFor(p', op))
    && (if ReadKind(op)
        then p'.wdata == st.socks[s].wdata && p'.wactivated == st.socks[s].wactivated && p'.rdata.kind != NOOP
        else p'.rdata == st.socks[s].rdata && p'.ractivated == st.socks[s].ractivated && p'.wdata.kind != NOOP)
    && st'.socks == st.socks[s := p'] && st'.queue == st.queue + done
    && st'.delivered == st.delivered && st'.next == st.next + 1
    && st'.lost == if ActivatedFor(st.socks[s], op) then st.lost + {EventFor(st.socks[s], op).id} else st.lost
  }

  lemma TakingFlat(st: Selector, s: nat, p': Pair, op: SelectOp, done: seq<Event>, st': Selector)
    requires Takes(st, s, p', op, done, st')
    ensures Place(s, op) / 2 in st'.socks
    ensures TakesPlace(Flat(st), Place(s, op), SlotAt(st'.socks, Place(s, op)), Flat(st'), done)
  {
    var f, f', place := Flat(st), Flat(st'), Place(s, op);
    HalfAt(st, s, op);
    HalfAt(st', s, op);
    assert f'.slots == f.slots[place := SlotAt(st'.socks, place)] by {
      FlatUpdate(st, s, p', place);
      SlotsOnly(st.(socks := st.socks[s := p']), st');
    }
    assert Finished(f') == Finished(f) + done;
  }

  lemma TakingPlace(f: State, place: nat, slot': Slot, f': State, done: seq<Event>)
    requires Conserved(f) && TakesPlace(f, place, slot', f', done)
    ensures Conserved(f')
  {
    if done == [] {
      Arming(f, place, slot', f');
    } else {
      FinishingNew(f, place, slot', f', done[0]);
    }
  }

  lemma TakingHalf(st: Selector, s: nat, p': Pair, op: SelectOp, done: seq<Event>, st': Selector)
    requires Sound(st) && Takes(st, s, p', op, done, st')
    ensures Sound(st')
  {
    TakingFlat(st, s, p', op, done, st');
    TakingPlace(Flat(st), Place(s, op), SlotAt(st'.socks, Place(s, op)), Flat(st'), done);
  }

  lemma ConnectAside(st: Selector, s: nat, call: Call, cb: Callback)
    requires Sound(st) && ConnectResult(call) != WSAEWOULDBLOCK
    ensures Sound(SubmitTo(st, s, CONNECT, call, cb))
  {
    var st' := SubmitTo(st, s, CONNECT, call, cb);
    var done := SubmitConnect(PairOf(st, s), Event(st.next, WAITING, 0, 0, cb), call).1;
    assert Finished(Flat(st')) == Finished(Flat(st)) + done;
    FinishingAside(Flat(st), Flat(st'), done[0]);
  }

  lemma SubmitSoundKnown(st: Selector, s: nat, op: SelectOp, call: Call, cb: Callback)
    requires Sound(st) && s in st.socks && op != ACCEPT
    ensures Sound(SubmitTo(st, s, op, call, cb))
  {
    if op == CONNECT && ConnectResult(call) != WSAEWOULDBLOCK {
      ConnectAside(st, s, call, cb);
    } else {
      var ev := Event(st.next, WAITING, 0, 0, cb);
      var (p', done) := SubmitPair(st.socks[s], op, ev, call);
      SubmitPairFacts(st.socks[s], op, ev, call);
      TakingHalf(st, s, p', op, done, SubmitTo(st, s, op, call, cb));
    }
  }

  lemma SubmitEntered(st: Selector, s: nat, op: SelectOp, call: Call, cb: Callback)
    requires s !in st.socks
    requires !(op == CONNECT && SubmitPair(FRESH_PAIR, op, Event(st.next, WAITING, 0, 0, cb), call).1 != [])
    ensures SubmitTo(st.(socks := st.socks[s := FRESH_PAIR]), s, op, call, cb) == SubmitTo(st, s, op, call, cb)
  {
    var (p', done) := SubmitPair(FRESH_PAIR, op, Event(st.next, WAITING, 0, 0, cb), call);
    assert st.socks[s := FRESH_PAIR][s := p'] == st.socks[s := p'];
  }

  /** Every submission other than ACCEPT conserves the events of both directions; one on a direction
      that is not activated loses none. */
  lemma SubmitSound(st: Selector, s: nat, op: SelectOp, call: Call, cb: Callback)
    requires Sound(st) && op != ACCEPT
    ensures Sound(SubmitTo(st, s, op, call, cb))
    ensures !ActivatedFor(PairOf(st, s), op) ==> SubmitTo(st, s, op, call, cb).lost == st.lost
  {
    if s in st.socks {
      SubmitSoundKnown(st, s, op, call, cb);
    } else if op == CONNECT && ConnectResult(call) != WSAEWOULDBLOCK {
      ConnectAside(st, s, call, cb);
    } else {
      Entering(st, s);
      SubmitSoundKnown(st.(socks := st.socks[s := FRESH_PAIR]), s, op, call, cb);
      SubmitEntered(st, s, op, call, cb);
    }
  }

  lemma FinishedYetActivated(st: Selector, s: nat, ev: Event, i: nat)
    requires s in st.socks && st.socks[s].ractivated
    requires st.socks[s].rdata.kind == ACCEPT && st.socks[s].rdata.event == ev
    requires i < |st.queue| && st.queue[i].id == ev.id
    ensures !Sound(st)
  {
    var f := Flat(st);
    FlatSlots(st, 2 * s);
    assert ArmedAt(f, 2 * s) && f.slots[2 * s].ev == ev;
    assert Finished(f)[|st.delivered| + i] == st.queue[i];
    assert Among(Finished(f), ev.id);
  }

  lemma AcceptSoundKnown(st: Selector, s: nat, call: Call, cb: Callback)
    requires Sound(st) && s in st.socks
    ensures Sound(SubmitTo(st, s, ACCEPT, call, cb)) <==>
      !st.socks[s].rdata.processing || TryAccept(st.socks[s].rdata, call).1 == 0
  {
    var ev, p, st' := Event(st.next, WAITING, 0, 0, cb), st.socks[s], SubmitTo(st, s, ACCEPT, call, cb);
    var (p', done) := SubmitPair(p, ACCEPT, ev, call);
    assert TryAccept(AddEvent(p, ACCEPT, ev).rdata, call).1 == TryAccept(p.rdata, call).1;
    if !p.rdata.processing || TryAccept(p.rdata, call).1 == 0 {
      assert p'.wdata == p.wdata && p'.wactivated == p.wactivated && p'.rdata.kind == ACCEPT && p'.ractivated;
      TakingHalf(st, s, p', ACCEPT, done, st');
    } else {
      FinishedYetActivated(st', s, ev, |st.queue|);
    }
  }

  /** A submitted ACCEPT that is attempted and does not succeed finishes while it stays activated, so
      it finishes again later. Events are conserved exactly if it is not attempted or succeeds. */
  lemma AcceptSound(st: Selector, s: nat, call: Call, cb: Callback)
    requires Sound(st)
    ensures Sound(SubmitTo(st, s, ACCEPT, call, cb)) <==>
      !PairOf(st, s).rdata.processing || TryAccept(PairOf(st, s).rdata, call).1 == 0
  {
    if s in st.socks {
      AcceptSoundKnown(st, s, call, cb);
    } else {
      Entering(st, s);
      AcceptSoundKnown(st.(socks := st.socks[s := FRESH_PAIR]), s, call, cb);
      SubmitEntered(st, s, ACCEPT, call, cb);
    }
  }

  /** One direction finishes what was activated in it. */
  lemma FinishingHalf(st: Selector, s: nat, p': Pair, op: Kind, e: Event)
    requires Sound(st) && s in st.socks && ActivatedFor(st.socks[s], op) && !ActivatedFor(p', op)
    requires e == EventFor(p', op) && e.id == EventFor(st.socks[s], op).id && e.status != WAITING
    requires if ReadKind(op) then p'.wdata == st.socks[s].wdata && p'.wactivated == st.socks[s].wactivated
      else p'.rdata == st.socks[s].rdata && p'.ractivated == st.socks[s].ractivated
    ensures Sound(st.(socks := st.socks[s := p'], queue := st.queue + [e]))
  {
    var st' := st.(socks := st.socks[s := p'], queue := st.queue + [e]);
    var f, f', place := Flat(st), Flat(st'), Place(s, op);
    assert place / 2 == s;
    FlatUpdate(st, s, p', place);
    FlatSlots(st, place);
    assert f'.slots == f.slots[place := SlotAt(st.socks[s := p'], place)];
    assert Finished(f') == Finished(f) + [e];
    FinishingArmed(f, place, SlotAt(st.socks[s := p'], place), f', e);
  }

  /** What one socket's turn does: each ready direction finishes its event, the other waits on. */
  lemma ReadyPairFacts(p: Pair, s: nat, sel: Selected)
    requires Typed(p) && (s in sel.ins ==> p.ractivated) && (s in sel.outs ==> p.wactivated)
    ensures var (p', done) := ReadyPair(p, s, sel);
      && Typed(p') && |done| == (if s in sel.ins then 1 else 0) + (if s in sel.outs then 1 else 0)
      && p'.ractivated == (p.ractivated && s !in sel.ins) && p'.wactivated == (p.wactivated && s !in sel.outs)
      && (s in sel.ins ==> done[0].id == p.rdata.event.id)
      && (s in sel.outs ==> done[|done| - 1].id == p.wdata.event.id)
  {
  }

  lemma TurnInSound(st: Selector, s: nat, p': Pair, done: seq<Event>, op: Kind, ready: bool)
    requires Sound(st) && s in st.socks
    requires if ready then
        && ActivatedFor(st.socks[s], op) && !ActivatedFor(p', op) && |done| == 1
        && done[0] == EventFor(p', op) && done[0].id == EventFor(st.socks[s], op).id && done[0].status != WAITING
        && (if ReadKind(op) then p'.wdata == st.socks[s].wdata && p'.wactivated == st.socks[s].wactivated
            else p'.rdata == st.socks[s].rdata && p'.ractivated == st.socks[s].ractivated)
      else p' == st.socks[s] && done == []
    ensures Sound(st.(socks := st.socks[s := p'], queue := st.queue + done))
  {
    if ready {
      FinishingHalf(st, s, p', op, done[0]);
      assert done == [done[0]];
    } else {
      assert st.socks[s := p'] == st.socks && st.queue + done == st.queue;
    }
  }

  lemma TwoChanges(st: Selector, s: nat, p1: Pair, p2: Pair, done1: seq<Event>, done2: seq<Event>)
    ensures st.socks[s := p1][s := p2] == st.socks[s := p2]
    ensures st.queue + done1 + done2 == st.queue + (done1 + done2)
  {
  }

  lemma TurnSound(st: Selector, s: nat, sel: Selected)
    requires Sound(st) && s in st.socks
    requires (s in sel.ins ==> st.socks[s].ractivated) && (s in sel.outs ==> st.socks[s].wactivated)
    ensures Sound(OnSock(st, s, sel))
  {
    var p := st.socks[s];
    assert Typed(p);
    var (p1, done1) := if s in sel.ins then ReadyIn(p, CallFor(sel.inCalls, s)) else (p, []);
    var st1 := st.(socks := st.socks[s := p1], queue := st.queue + done1);
    TurnInSound(st, s, p1, done1, READ, s in sel.ins);
    var (p2, done2) := if s in sel.outs then ReadyOut(p1, CallFor(sel.outCalls, s)) else (p1, []);
    TurnInSound(st1, s, p2, done2, WRITE, s in sel.outs);
    TwoChanges(st, s, p1, p2, done1, done2);
  }

  /** What is left of the sets from socket `k` on is waiting in its direction. */
  ghost predicate Waiting(st: Selector, k: nat, sel: Selected) {
    && (forall s :: s >= k && s in sel.ins ==> s in st.socks && st.socks[s].ractivated)
    && (forall s :: s >= k && s in sel.outs ==> s in st.socks && st.socks[s].wactivated)
  }

  /** From socket `k` on, exactly the directions in the sets stopped waiting. */
  ghost predicate Finishes(st: Selector, st': Selector, k: nat, bound: nat, sel: Selected) {
    && st'.socks.Keys == st.socks.Keys && st'.lost == st.lost && st'.delivered == st.delivered
    && forall s :: s in st.socks ==>
         && st'.socks[s].ractivated == (st.socks[s].ractivated && !(k <= s < bound && s in sel.ins))
         && st'.socks[s].wactivated == (st.socks[s].wactivated && !(k <= s < bound && s in sel.outs))
  }

  lemma TurnFinishes(st: Selector, k: nat, sel: Selected)
    requires Sound(st) && Waiting(st, k, sel) && k in st.socks
    ensures Waiting(OnSock(st, k, sel), k + 1, sel) && Finishes(st, OnSock(st, k, sel), k, k + 1, sel)
  {
    ReadyPairFacts(st.socks[k], k, sel);
  }

  lemma FinishesOn(st: Selector, st1: Selector, st2: Selector, k: nat, bound: nat, sel: Selected)
    requires k < bound && Finishes(st, st1, k, k + 1, sel) && Finishes(st1, st2, k + 1, bound, sel)
    ensures Finishes(st, st2, k, bound, sel)
  {
    assert forall s :: s in st.socks ==> s in st1.socks;
  }

  /** The loop over the map conserves events, and finishes exactly what select() reported: a ready
      direction is never skipped, and a direction not reported is left alone. */
  lemma {:induction false} WaitSound(st: Selector, k: nat, bound: nat, sel: Selected)
    requires Sound(st) && Waiting(st, k, sel)
    ensures Sound(WaitFrom(st, k, bound, sel)) && Finishes(st, WaitFrom(st, k, bound, sel), k, bound, sel)
    decreases bound - k
  {
    if k >= bound {
    } else {
      if k in st.socks {
        var st1 := OnSock(st, k, sel);
        TurnSound(st, k, sel);
        TurnFinishes(st, k, sel);
        WaitSound(st1, k + 1, bound, sel);
        FinishesOn(st, st1, WaitFrom(st, k, bound, sel), k, bound, sel);
      } else {
        WaitSound(st, k + 1, bound, sel);
      }
    }
  }

  /** The whole loop, every socket being below `bound`. */
  ghost predicate Looped(st: Selector, bound: nat, sel: Selected, st': Selector) {
    (forall s :: s in st.socks ==> s < bound) && st' == WaitFrom(st, 0, bound, sel)
  }
}
