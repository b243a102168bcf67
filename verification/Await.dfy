/** From the result of a system call to what `co_await` yields. */
module Await {
  import opened Engine
  import opened Conservation

  const INT_LIMIT := 0x8000_0000
  const SIZE_LIMIT := 0x1_0000_0000_0000_0000

  /** int to size_t and back; the second conversion keeps the low 32 bits. */
  function ToSize(n: int): int { n % SIZE_LIMIT }

  function ToInt(n: int): int {
    var low := n % (2 * INT_LIMIT);
    if low < INT_LIMIT then low else low - 2 * INT_LIMIT
  }

  lemma SizeRoundTrip(n: int)
    requires -INT_LIMIT <= n < INT_LIMIT
    ensures ToInt(ToSize(n)) == n
  {
    if n < 0 {
      assert ToSize(n) == n + SIZE_LIMIT;
    }
  }

  /** The closure around a TCP read's or write's callback: an error goes with the length -1. */
  function Wrapped(len: int, ec: int): (int, int) {
    if ec != 0 then (ToSize(-1), ec) else (ToSize(len), 0)
  }

  /** What Resume stores for await_resume. */
  function Resumed(len: int, ec: int): int {
    if ec != 0 then -ec else ToInt(len)
  }

  /** What awaiting an operation yields once its event is delivered. */
  function Awaited(ev: Event): int {
    var (len, ec) := Wrapped(ev.res, ev.error);
    Resumed(len, ec)
  }

  class ReadAwait {
    var retlen: int
    var resumed: bool

    constructor ()
      ensures !resumed
    {
      retlen, resumed := 0, false;
    }

    /** The coroutine goes on only once the result is stored. */
    method Resume(len: int, ec: int)
      modifies this
      ensures retlen == Resumed(len, ec) && resumed
    {
      if ec != 0 {
        retlen := -ec;
      } else {
        retlen := ToInt(len);
      }
      resumed := true;
    }

    /** Event::Complete calls the closure, and that the awaiting object. */
    method OnComplete(ev: Event)
      modifies this
      ensures retlen == Awaited(ev) && resumed
    {
      if ev.error != 0 {
        Resume(ToSize(-1), ev.error);
      } else {
        Resume(ToSize(ev.res), 0);
      }
    }
  }

  /** What awaiting a connection yields: the error its closure passes on. */
  function Connected(ev: Event): int { ev.error }

  class ConnAwait {
    var reterr: int
    var resumed: bool

    constructor ()
      ensures !resumed
    {
      reterr, resumed := 0, false;
    }

    method Resume(len: int, ec: int)
      modifies this
      ensures reterr == ec && resumed
    {
      reterr := ec;
      resumed := true;
    }

    /** The closure passes on the error, with the length -1, or 0 for success. */
    method OnComplete(ev: Event)
      modifies this
      ensures reterr == Connected(ev) && resumed
    {
      if ev.error != 0 {
        Resume(ToSize(-1), ev.error);
      } else {
        Resume(0, 0);
      }
    }
  }

  lemma ForcedIsAwaited(op: Op, ev: Event, result: int)
    requires ReturnsLength(op) && Untouched(ev) && -INT_LIMIT < result < INT_LIMIT
    ensures Awaited(Finish(ev, Forced(op, result))) == result
  {
    if result >= 0 {
      SizeRoundTrip(result);
    }
  }

  /** A read attempted at once and a read attempted when input is reported finish alike, and awaiting
      either yields the result itself; at once this takes a result other than "would block". */
  lemma ReadYieldsResult(now: Slot, later: Slot, op: Op, r: Report, ev: Event)
    requires (op == READ || op == RECVFROM) && Untouched(ev) && -INT_LIMIT < r.inResult < INT_LIMIT
    requires now.rp && later.kind == op && later.ev == ev && r.input && !r.err && !r.hup
    ensures var done := ReportSlot(later, r).1;
      && |done| == 1 && done[0].id == ev.id && done[0].cb == ev.cb && Awaited(done[0]) == r.inResult
      && (SubmitSlot(now, op, ev, r.inResult).1 == done <==> r.inResult != -EWOULDBLOCK)
  {
    ForcedIsAwaited(op, ev, r.inResult);
  }

  /** A write is attempted again each time output is reported until it does not block; then awaiting
      it yields the result, as it does when the first attempt does not block. */
  lemma WriteYieldsResult(now: Slot, later: Slot, op: Op, r: Report, ev: Event)
    requires WriteKind(op) && Untouched(ev) && -INT_LIMIT < r.outResult < INT_LIMIT
    requires now.wp && later.kind == op && later.ev == ev && r.output && !r.err && !r.hup
    ensures var done := ReportSlot(later, r).1;
      && SubmitSlot(now, op, ev, r.outResult).1 == done
      && (done == [] <==> r.outResult == -EWOULDBLOCK)
      && (done != [] ==> |done| == 1 && done[0].id == ev.id && done[0].cb == ev.cb && Awaited(done[0]) == r.outResult)
      && (done == [] ==> SubmitSlot(now, op, ev, r.outResult).0.kind == ReportSlot(later, r).0.kind == op)
  {
    ForcedIsAwaited(op, ev, r.outResult);
  }

  // ------------------------------------------------------------- the socket's own convention

  /** LinuxSock::Recv and Send: the result of the call goes through a size_t before its sign is tested. */
  function RecvResult(n: int, errno: int): int {
    var len := ToSize(n);
    if len < 0 then -errno else ToInt(len)
  }

  /** So the branch for errors is never taken: a failing call yields -1 whatever the errno, and the
      result is the negative errno exactly when the call succeeds or fails with errno 1. In particular
      a call that would block does not yield -EWOULDBLOCK. */
  lemma RecvHidesErrno(n: int, errno: int)
    requires -1 <= n < INT_LIMIT
    ensures RecvResult(n, errno) == n
    ensures RecvResult(n, errno) == (if n < 0 then -errno else n) <==> n >= 0 || errno == 1
    ensures RecvResult(n, errno) != -EWOULDBLOCK
  {
    SizeRoundTrip(n);
  }
}
