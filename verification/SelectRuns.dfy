/** Whole runs of the engine over select(): what is conserved, and what callbacks are told. */
module SelectRuns {
  import opened Engine
  import opened Conservation
  import opened Await
  import opened Select

  // ------------------------------------------------------------- runs

  /** A delivery takes the first event off the list; what its callback submits are further steps. */
  datatype Turn = Asked(s: nat, op: SelectOp, call: Call, cb: Callback) | Selecting(bound: nat, sel: Selected) | Handed

  /** An ACCEPT is not attempted on submission, or succeeds; select() leaves subsets of the two sets. */
  ghost predicate Allowed(st: Selector, turn: Turn) {
    match turn
    case Asked(s, op, call, _) =>
      op == ACCEPT ==> !PairOf(st, s).rdata.processing || TryAccept(PairOf(st, s).rdata, call).1 == 0
    case Selecting(bound, sel) => Waiting(st, 0, sel)
    case Handed => st.queue != []
  }

  function Taken(st: Selector, turn: Turn): Selector {
    match turn
    case Asked(s, op, call, cb) => SubmitTo(st, s, op, call, cb)
    case Selecting(bound, sel) => WaitFrom(st, 0, bound, sel)
    case Handed => if st.queue == [] then st else st.(queue := st.queue[1..], delivered := st.delivered + [st.queue[0]])
  }

  function AllTaken(st: Selector, turns: seq<Turn>): Selector
    decreases |turns|
  {
    if turns == [] then st else AllTaken(Taken(st, turns[0]), turns[1..])
  }

  ghost predicate AllAllowed(st: Selector, turns: seq<Turn>)
    decreases |turns|
  {
    turns == [] || (Allowed(st, turns[0]) && AllAllowed(Taken(st, turns[0]), turns[1..]))
  }

  /** Submissions only ever on directions that are not activated. */
  ghost predicate Patiently(st: Selector, turns: seq<Turn>)
    decreases |turns|
  {
    turns == [] ||
    (&& (turns[0].Asked? ==> !ActivatedFor(PairOf(st, turns[0].s), turns[0].op))
     && Patiently(Taken(st, turns[0]), turns[1..]))
  }

  lemma HandedSound(st: Selector)
    requires Sound(st)
    ensures Sound(Taken(st, Handed))
  {
    var f, f' := Flat(st), Flat(Taken(st, Handed));
    assert Finished(f') == Finished(f);
    SlotsOnly(st, Taken(st, Handed));
    Unmoved(f, f');
  }

  lemma TakenSound(st: Selector, turn: Turn)
    requires Sound(st) && Allowed(st, turn)
    ensures Sound(Taken(st, turn))
    ensures (turn.Asked? ==> !ActivatedFor(PairOf(st, turn.s), turn.op)) ==> Taken(st, turn).lost == st.lost
  {
    match turn
    case Asked(s, op, call, cb) =>
      if op == ACCEPT {
        AcceptSound(st, s, call, cb);
      } else {
        SubmitSound(st, s, op, call, cb);
      }
    case Selecting(bound, sel) => WaitSound(st, 0, bound, sel);
    case Handed => HandedSound(st);
  }

  /** Over every run the events of both directions are conserved, and with submissions only on
      directions that are not activated none is lost. */
  lemma {:induction false} SelectRunConserves(st: Selector, turns: seq<Turn>)
    requires Sound(st) && AllAllowed(st, turns)
    ensures Sound(AllTaken(st, turns))
    ensures Patiently(st, turns) ==> AllTaken(st, turns).lost == st.lost
    decreases |turns|
  {
    if turns == [] {
    } else {
      TakenSound(st, turns[0]);
      SelectRunConserves(Taken(st, turns[0]), turns[1..]);
    }
  }

  // ------------------------------------------------------------- accepting

  /** SOCKET is unsigned; the error accept() returns is its greatest value. */
  function ToSocket(n: int): int { n % SIZE_LIMIT }

  /** The call behind an ACCEPT: its error branch tests for a socket below zero. */
  function AcceptCall(n: int, err: int): Call {
    if ToSocket(n) < 0 then Refused(err) else Moved(0)
  }

  /** So that branch is never taken, whatever accept() returns: as written every ACCEPT conserves, none
      finishes on submission, and none is ever told an error. */
  lemma AcceptHidesErrors(st: Selector, s: nat, n: int, err: int, cb: Callback)
    requires Sound(st)
    ensures var st' := SubmitTo(st, s, ACCEPT, AcceptCall(n, err), cb); Sound(st') && st'.queue == st.queue
    ensures forall p: Pair :: p.rdata.kind == ACCEPT && Untouched(p.rdata.event) ==>
      ReadyIn(p, AcceptCall(n, err)).1 == [p.rdata.event.(status := COMPLETED)]
  {
    AcceptSound(st, s, AcceptCall(n, err), cb);
  }

  const NO_SOCKETS := Selector(map[], [], [], {}, 0)

  /** An ACCEPT is finished by select(), and another one is submitted. */
  const ACCEPTED: seq<Turn> := [
    Asked(0, ACCEPT, Moved(0), NOTHING), Selecting(1, Selected({0}, {}, map[], map[]))]

  lemma NothingSound()
    ensures Sound(NO_SOCKETS)
  {
    var f := Flat(NO_SOCKETS);
    assert forall p :: p !in f.slots;
  }

  /** Did accept() report its errors, one that would block would finish and go on waiting. */
  lemma BlockedAcceptRepeats()
    ensures Sound(NO_SOCKETS) && AllAllowed(NO_SOCKETS, ACCEPTED)
    ensures !Sound(SubmitTo(AllTaken(NO_SOCKETS, ACCEPTED), 0, ACCEPT, Refused(WSAEWOULDBLOCK), NOTHING))
  {
    var turns := ACCEPTED;
    var st1 := Taken(NO_SOCKETS, turns[0]);
    var st2 := Taken(st1, turns[1]);
    assert turns[1..][0] == turns[1] && turns[1..][1..] == [];
    assert Allowed(st1, turns[1]);
    assert AllAllowed(st2, []) && AllTaken(st2, []) == st2;
    assert AllAllowed(st1, turns[1..]) && AllTaken(st1, turns[1..]) == st2;
    assert st2 == OnSock(st1, 0, turns[1].sel);
    NothingSound();
    SelectRunConserves(NO_SOCKETS, turns);
    AcceptSound(AllTaken(NO_SOCKETS, turns), 0, Refused(WSAEWOULDBLOCK), NOTHING);
  }

  // ------------------------------------------------------------- what callbacks are told

  /** Reading and writing: awaiting what select() let through yields the length or the negative error,
      and 0 if the call would block even then. An attempt made on submission finishes alike, exactly
      if the call does not block and does move something. */
  lemma LengthYieldsResult(now: Pair, later: Pair, op: SelectOp, ev: Event, call: Call)
    requires Untouched(ev) && op != ACCEPT && op != CONNECT
    requires if call.Moved? then call.n < INT_LIMIT else 0 < call.err < INT_LIMIT
    requires if ReadKind(op) then now.rdata.processing && later.rdata.kind == op && later.rdata.event == ev
      else now.wdata.processing && later.wdata.kind == op && later.wdata.event == ev && later.wactivated
    ensures var done := (if ReadKind(op) then ReadyIn(later, call) else ReadyOut(later, call)).1;
      && |done| == 1 && done[0].id == ev.id && done[0].cb == ev.cb
      && Awaited(done[0]) == (if call.Moved? then call.n else if call.err == WSAEWOULDBLOCK then 0 else -call.err)
      && (SubmitPair(now, op, ev, call).1 == done <==> call != Refused(WSAEWOULDBLOCK) && call != Moved(0))
      && (SubmitPair(now, op, ev, call).1 == [] <==> call == Refused(WSAEWOULDBLOCK) || call == Moved(0))
  {
    if call.Moved? {
      SizeRoundTrip(call.n);
    } else {
      SizeRoundTrip(0);
    }
  }

  /** A plausible result of a call. */
  predicate Sane(call: Call) {
    if call.Moved? then call.n < INT_LIMIT else 0 < call.err < INT_LIMIT
  }

  /** What is yielded for a call that reads or writes. */
  function Yielded(call: Call): int {
    match call
    case Moved(n) => n
    case Refused(err) => if err == WSAEWOULDBLOCK then 0 else -err
  }

  /** What a callback is told for input: a length or a negative error; for ACCEPT the error, except that
      one which would block even then counts as accepted. */
  predicate InVerdict(d: Data, call: Call, e: Event) {
    && e.id == d.event.id && e.cb == d.event.cb && (e.error != 0 ==> e.status == ERR)
    && (Sane(call) ==>
          if d.kind == ACCEPT then e.error == (if call.Moved? || call.err == WSAEWOULDBLOCK then 0 else call.err)
          else Awaited(e) == Yielded(call))
  }

  /** What a callback is told for output: a length or a negative error; a connection
      succeeds if the second call does or says that it is connected. */
  predicate OutVerdict(d: Data, call: Call, e: Event) {
    && e.id == d.event.id && e.cb == d.event.cb && (e.error != 0 ==> e.status == ERR)
    && (Sane(call) ==>
          if d.kind == CONNECT then e.error == (if call.Moved? || call.err == WSAEISCONN then 0 else call.err)
          else Awaited(e) == Yielded(call))
  }

  /** The event is the one that waited in a direction reported, told the result of the call made then. */
  predicate SockDecides(p: Pair, s: nat, sel: Selected, e: Event) {
    || (s in sel.ins && InVerdict(p.rdata, CallFor(sel.inCalls, s), e))
    || (s in sel.outs && OutVerdict(p.wdata, CallFor(sel.outCalls, s), e))
  }

  ghost predicate TurnDecides(st: Selector, turn: Turn, e: Event) {
    match turn
    case Asked(s, op, call, cb) =>
      && e.id == st.next && e.cb == cb && call != Refused(WSAEWOULDBLOCK)
      && (Sane(call) ==> if op == CONNECT then e.error == ConnectResult(call) else Awaited(e) == Yielded(call))
    case Selecting(_, sel) => exists s :: s in st.socks && SockDecides(st.socks[s], s, sel, e)
    case Handed => false
  }

  lemma InDecides(p: Pair, call: Call)
    requires Untouched(p.rdata.event) && ReadKind(p.rdata.kind)
    ensures |ReadyIn(p, call).1| == 1 && InVerdict(p.rdata, call, ReadyIn(p, call).1[0])
  {
    if Sane(call) {
      SizeRoundTrip(Yielded(call));
    }
  }

  lemma OutDecides(p: Pair, call: Call)
    requires Untouched(p.wdata.event) && OutKind(p.wdata.kind) && p.wactivated
    ensures |ReadyOut(p, call).1| == 1 && OutVerdict(p.wdata, call, ReadyOut(p, call).1[0])
  {
    if Sane(call) {
      SizeRoundTrip(Yielded(call));
    }
  }

  /** What waits has not been touched. */
  lemma WaitingUntouched(st: Selector, s: nat)
    requires Sound(st) && s in st.socks
    ensures st.socks[s].ractivated ==> Untouched(st.socks[s].rdata.event)
    ensures st.socks[s].wactivated ==> Untouched(st.socks[s].wdata.event)
  {
    HalfAt(st, s, READ);
    HalfAt(st, s, WRITE);
    FlatSlots(st, Place(s, READ));
    FlatSlots(st, Place(s, WRITE));
    assert st.socks[s].ractivated ==> ArmedAt(Flat(st), Place(s, READ));
    assert st.socks[s].wactivated ==> ArmedAt(Flat(st), Place(s, WRITE));
  }

  lemma PairDecides(st: Selector, s: nat, sel: Selected)
    requires Sound(st) && s in st.socks && Waiting(st, s, sel)
    ensures var done := ReadyPair(st.socks[s], s, sel).1;
      forall i :: 0 <= i < |done| ==> SockDecides(st.socks[s], s, sel, done[i])
  {
    var p := st.socks[s];
    WaitingUntouched(st, s);
    assert Typed(p);
    if s in sel.ins {
      InDecides(p, CallFor(sel.inCalls, s));
    }
    var p1 := if s in sel.ins then ReadyIn(p, CallFor(sel.inCalls, s)).0 else p;
    assert p1.wdata == p.wdata && p1.wactivated == p.wactivated;
    if s in sel.outs {
      OutDecides(p1, CallFor(sel.outCalls, s));
    }
  }

  lemma {:induction false} WaitAppends(st: Selector, k: nat, bound: nat, sel: Selected)
    ensures st.queue <= WaitFrom(st, k, bound, sel).queue && WaitFrom(st, k, bound, sel).delivered == st.delivered
    decreases bound - k
  {
    if k >= bound {
    } else {
      WaitAppends(if k in st.socks then OnSock(st, k, sel) else st, k + 1, bound, sel);
    }
  }

  /** Each event the loop over the map finishes is decided by the call for its own socket. */
  lemma {:induction false} WaitDecides(st: Selector, k: nat, bound: nat, sel: Selected, i: nat) returns (s: nat)
    requires Sound(st) && Waiting(st, k, sel)
    requires |st.queue| <= i < |WaitFrom(st, k, bound, sel).queue|
    ensures s >= k && s in st.socks && SockDecides(st.socks[s], s, sel, WaitFrom(st, k, bound, sel).queue[i])
    decreases bound - k
  {
    if k !in st.socks {
      s := WaitDecides(st, k + 1, bound, sel, i);
    } else {
      var st1 := OnSock(st, k, sel);
      TurnSound(st, k, sel);
      TurnFinishes(st, k, sel);
      if i < |st1.queue| {
        s := k;
        PairDecides(st, k, sel);
        WaitAppends(st1, k + 1, bound, sel);
      } else {
        s := WaitDecides(st1, k + 1, bound, sel, i);
      }
    }
  }

  /** The events that finished, in the order they did. */
  function FinishedIn(st: Selector): seq<Event> { st.delivered + st.queue }

  lemma AskedDecides(st: Selector, s: nat, op: SelectOp, call: Call, cb: Callback)
    requires Allowed(st, Asked(s, op, call, cb))
    ensures var done := SubmitPair(PairOf(st, s), op, Event(st.next, WAITING, 0, 0, cb), call).1;
      forall i :: 0 <= i < |done| ==> TurnDecides(st, Asked(s, op, call, cb), done[i])
  {
    if Sane(call) {
      SizeRoundTrip(Yielded(call));
    }
  }

  lemma TakenDecides(st: Selector, turn: Turn)
    requires Sound(st) && Allowed(st, turn)
    ensures FinishedIn(st) <= FinishedIn(Taken(st, turn)) && st.delivered <= Taken(st, turn).delivered
    ensures forall i :: |FinishedIn(st)| <= i < |FinishedIn(Taken(st, turn))| ==>
      TurnDecides(st, turn, FinishedIn(Taken(st, turn))[i])
  {
    var st' := Taken(st, turn);
    match turn
    case Asked(s, op, call, cb) =>
      AskedDecides(st, s, op, call, cb);
      assert FinishedIn(st') ==
        FinishedIn(st) + SubmitPair(PairOf(st, s), op, Event(st.next, WAITING, 0, 0, cb), call).1;
    case Selecting(bound, sel) =>
      WaitAppends(st, 0, bound, sel);
      forall i | |FinishedIn(st)| <= i < |FinishedIn(st')|
        ensures TurnDecides(st, turn, FinishedIn(st')[i])
      {
        var s := WaitDecides(st, 0, bound, sel, i - |st.delivered|);
      }
    case Handed => assert FinishedIn(st') == FinishedIn(st);
  }

  lemma {:induction false} FinishedStay(st: Selector, turns: seq<Turn>)
    requires Sound(st) && AllAllowed(st, turns)
    ensures FinishedIn(st) <= FinishedIn(AllTaken(st, turns)) && st.delivered <= AllTaken(st, turns).delivered
    decreases |turns|
  {
    if turns == [] {
    } else {
      TakenSound(st, turns[0]);
      TakenDecides(st, turns[0]);
      FinishedStay(Taken(st, turns[0]), turns[1..]);
    }
  }

  /** Over every run each event that finishes is decided by one of its turns, and its callback is told
      the result of the call made then. */
  lemma {:induction false} EveryTurnDecided(st: Selector, turns: seq<Turn>, i: nat) returns (k: nat)
    requires Sound(st) && AllAllowed(st, turns) && |FinishedIn(st)| <= i < |FinishedIn(AllTaken(st, turns))|
    ensures k < |turns| && TurnDecides(AllTaken(st, turns[..k]), turns[k], FinishedIn(AllTaken(st, turns))[i])
    decreases |turns|
  {
    var st' := Taken(st, turns[0]);
    TakenSound(st, turns[0]);
    TakenDecides(st, turns[0]);
    if i < |FinishedIn(st')| {
      k := 0;
      FinishedStay(st', turns[1..]);
    } else {
      k := EveryTurnDecided(st', turns[1..], i);
      k := k + 1;
      assert turns[..k][1..] == turns[1..][..k - 1];
    }
  }
}
