/** What each submission and each report does in the engine over select(), field by field and in numbers. */
module SelectOutcomes {
  import opened Engine
  import opened Conservation
  import opened Select

  /** A call that failed did so with a positive error number. */
  predicate PositiveError(call: Call) { call.Refused? ==> call.err > 0 }

  // ------------------------------------------------------------- submissions

  /** A read that is not attempted waits; one that is attempted waits if it would block (10035), which
      ends the attempts, or moved nothing, and else finishes with its length or error. */
  lemma ReadSubmitted(p: Pair, op: SelectOp, ev: Event, call: Call)
    requires (op == READ || op == RECVFROM) && Untouched(ev) && PositiveError(call)
    ensures var tried, blocks := p.rdata.processing, call == Refused(10035);
      var waits := !tried || blocks || call == Moved(0);
      SubmitPair(p, op, ev, call) ==
        (Pair(Data(op, ev, tried && !blocks), p.wdata, waits, p.wactivated),
         if waits then []
         else if call.Moved? then [Event(ev.id, COMPLETED, 0, call.n, ev.cb)]
         else [Event(ev.id, ERR, call.err, 0, ev.cb)])
  {
  }

  /** A write likewise, in its own direction. */
  lemma WriteSubmitted(p: Pair, op: SelectOp, ev: Event, call: Call)
    requires (op == WRITE || op == SENDTO) && Untouched(ev) && PositiveError(call)
    ensures var tried, blocks := p.wdata.processing, call == Refused(10035);
      var waits := !tried || blocks || call == Moved(0);
      SubmitPair(p, op, ev, call) ==
        (Pair(p.rdata, Data(op, ev, tried && !blocks), p.ractivated, waits),
         if waits then []
         else if call.Moved? then [Event(ev.id, COMPLETED, 0, call.n, ev.cb)]
         else [Event(ev.id, ERR, call.err, 0, ev.cb)])
  {
  }

  /** A connection waits for output only if it would block, and else does not touch the entry. */
  lemma ConnectSubmitted(p: Pair, ev: Event, call: Call)
    requires Untouched(ev) && PositiveError(call)
    ensures SubmitPair(p, CONNECT, ev, call) ==
      if call == Refused(10035) then (Pair(p.rdata, Data(CONNECT, ev, p.wdata.processing), p.ractivated, true), [])
      else if call.Moved? then (p, [Event(ev.id, COMPLETED, 0, 0, ev.cb)])
      else (p, [Event(ev.id, ERR, call.err, 0, ev.cb)])
  {
  }

  /** An accept that is attempted and fails finishes and yet waits, and takes the other direction's turn
      away; its error is negated, and would-block is told as the result -1. */
  lemma AcceptSubmitted(p: Pair, ev: Event, call: Call)
    requires Untouched(ev) && PositiveError(call)
    ensures var tried, blocks := p.rdata.processing, call == Refused(10035);
      var fails := tried && call.Refused?;
      SubmitPair(p, ACCEPT, ev, call) ==
        (Pair(Data(ACCEPT, ev, tried && !blocks), p.wdata, true, p.wactivated && !fails),
         if !fails then []
         else if blocks then [Event(ev.id, COMPLETED, 0, -1, ev.cb)]
         else [Event(ev.id, ERR, -call.err, 0, ev.cb)])
  {
  }

  /** A submission appends to the list what it finished, and changes at most its own socket's entry, which
      is idle and unattempted if there was none. */
  lemma EntryAndList(st: Selector, s: nat, op: SelectOp, call: Call, cb: Callback)
    ensures var p := if s in st.socks then st.socks[s]
        else Pair(Data(NOOP, NO_EVENT, false), Data(NOOP, NO_EVENT, false), false, false);
      var (p', done) := SubmitPair(p, op, Event(st.next, WAITING, 0, 0, cb), call);
      var st' := SubmitTo(st, s, op, call, cb);
      && st'.queue == st.queue + done && st'.delivered == st.delivered && st'.next == st.next + 1
      && st'.socks == if op == CONNECT && done != [] then st.socks else st.socks[s := p']
  {
  }

  // ------------------------------------------------------------- readiness

  /** A read that select() let through always finishes: with its length, with its error, or with 0 if it
      would block after all. The next one is attempted on submission unless this one would have blocked. */
  lemma ReadReady(p: Pair, call: Call)
    requires p.rdata.kind in {READ, RECVFROM} && Untouched(p.rdata.event) && PositiveError(call)
    ensures var ev, blocks := p.rdata.event, call == Refused(10035);
      var done := if blocks then Event(ev.id, COMPLETED, 0, 0, ev.cb)
        else if call.Moved? then Event(ev.id, COMPLETED, 0, call.n, ev.cb)
        else Event(ev.id, ERR, call.err, 0, ev.cb);
      ReadyIn(p, call) == (Pair(Data(p.rdata.kind, done, !blocks), p.wdata, false, p.wactivated), [done])
  {
  }

  /** So does a write. */
  lemma WriteReady(p: Pair, call: Call)
    requires p.wdata.kind in {WRITE, SENDTO} && p.wactivated && Untouched(p.wdata.event) && PositiveError(call)
    ensures var ev, blocks := p.wdata.event, call == Refused(10035);
      var done := if blocks then Event(ev.id, COMPLETED, 0, 0, ev.cb)
        else if call.Moved? then Event(ev.id, COMPLETED, 0, call.n, ev.cb)
        else Event(ev.id, ERR, call.err, 0, ev.cb);
      ReadyOut(p, call) == (Pair(p.rdata, Data(p.wdata.kind, done, !blocks), p.ractivated, false), [done])
  {
  }

  /** An accept is told its error, except that one that would block counts as accepted. */
  lemma AcceptReady(p: Pair, call: Call)
    requires p.rdata.kind == ACCEPT && Untouched(p.rdata.event) && PositiveError(call)
    ensures var ev, blocks := p.rdata.event, call == Refused(10035);
      var done := if blocks || call.Moved? then Event(ev.id, COMPLETED, 0, 0, ev.cb)
        else Event(ev.id, ERR, call.err, 0, ev.cb);
      ReadyIn(p, call) == (Pair(Data(ACCEPT, done, !blocks), p.wdata, false, p.wactivated), [done])
  {
  }

  /** A connection succeeds if connect() now says that it is connected (10056); its error is told
      otherwise, and 0 is told as one. */
  lemma ConnectReady(p: Pair, call: Call)
    requires p.wdata.kind == CONNECT && Untouched(p.wdata.event) && PositiveError(call)
    ensures var ev := p.wdata.event;
      var done := if call == Refused(10056) then Event(ev.id, COMPLETED, 0, 0, ev.cb)
        else Event(ev.id, ERR, if call.Moved? then 0 else call.err, 0, ev.cb);
      ReadyOut(p, call) == (Pair(p.rdata, Data(CONNECT, done, p.wdata.processing), p.ractivated, false), [done])
  {
  }

  /** A socket reported in both sets is taken for input first. */
  lemma InputFirst(p: Pair, s: nat, sel: Selected)
    requires p.ractivated && s in sel.ins && s in sel.outs
    ensures var (p1, done1) := ReadyIn(p, CallFor(sel.inCalls, s));
      var (p2, done2) := ReadyOut(p1, CallFor(sel.outCalls, s));
      ReadyPair(p, s, sel) == (p2, done1 + done2)
  {
  }

  /** A socket reported in neither set is left alone. */
  lemma NotReported(p: Pair, s: nat, sel: Selected)
    requires s !in sel.ins && s !in sel.outs
    ensures ReadyPair(p, s, sel) == (p, [])
  {
    var none: seq<Event> := [];
    assert none + none == none;
  }

  /** A socket reported in one set is taken in that direction only. */
  lemma OneReported(p: Pair, s: nat, sel: Selected)
    ensures p.ractivated && s in sel.ins && s !in sel.outs ==>
      ReadyPair(p, s, sel) == ReadyIn(p, CallFor(sel.inCalls, s))
    ensures s !in sel.ins && s in sel.outs ==>
      ReadyPair(p, s, sel) == ReadyOut(p, CallFor(sel.outCalls, s))
  {
    var done1, done2 := ReadyIn(p, CallFor(sel.inCalls, s)).1, ReadyOut(p, CallFor(sel.outCalls, s)).1;
    assert done1 + [] == done1 && [] + done2 == done2;
  }

  /** The sockets are taken in ascending order. */
  lemma {:induction false} SocketsInOrder(st: Selector, k: nat, m: nat, bound: nat, sel: Selected)
    requires k <= m <= bound
    ensures WaitFrom(st, k, bound, sel) == WaitFrom(WaitFrom(st, k, m, sel), m, bound, sel)
    ensures WaitFrom(st, k, k + 1, sel) == if k in st.socks then OnSock(st, k, sel) else st
    decreases m - k
  {
    var st' := if k in st.socks then OnSock(st, k, sel) else st;
    assert WaitFrom(st', k + 1, k + 1, sel) == st';
    if k == m {
    } else {
      SocketsInOrder(st', k + 1, m, bound, sel);
    }
  }
}
