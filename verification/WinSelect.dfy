/** The object around the sockets, proved against its description on values. */
module WinSelect {
  import opened Engine
  import opened Conservation
  import opened Select
  import E = Epoll

  class WinSockSelect {
    const ctx: E.Context
    var socks: map<nat, Pair>
    var rs: set<nat>
    var ws: set<nat>
    ghost var lost: set<nat>
    var next: nat  // tells submissions apart

    constructor (ctx: E.Context)
      ensures this.ctx == ctx && socks == map[] && rs == ws == {} && lost == {} && next == 0
    {
      this.ctx, socks, rs, ws, lost, next := ctx, map[], {}, {}, {}, 0;
    }

    ghost function Abs(): Selector
      reads this, ctx
    {
      Selector(socks, ctx.waitset, ctx.delivered, lost, next)
    }

    /** The event a submission brings, and the bookkeeping for the proofs. */
    method NewEvent(s: nat, op: SelectOp, cb: Callback, takes: bool) returns (ev: Event)
      modifies this`next, this`lost
      ensures ev == Event(old(next), WAITING, 0, 0, cb) && next == old(next) + 1
      ensures lost ==
        if takes && ActivatedFor(PairOf(old(Abs()), s), op)
        then old(lost) + {EventFor(PairOf(old(Abs()), s), op).id} else old(lost)
    {
      ev := Event(next, WAITING, 0, 0, cb);
      next := next + 1;
      if takes && ActivatedFor(PairOf(Abs(), s), op) {
        lost := lost + {EventFor(PairOf(Abs(), s), op).id};
      }
    }

    /** SubmitReadEvent and SubmitWriteEvent */
    method SubmitEvent(s: nat, kind: SelectOp, ev: Event)
      modifies this`socks
      ensures socks == old(socks)[s := AddEvent(PairOf(old(Abs()), s), kind, ev)]
    {
      if s !in socks {
        socks := socks[s := FRESH_PAIR];
      }
      var p := socks[s];
      match kind {
        case READ | RECVFROM | ACCEPT =>
          p := p.(rdata := p.rdata.(kind := kind, event := ev), ractivated := true);
        case WRITE | SENDTO | CONNECT =>
          p := p.(wdata := p.wdata.(kind := kind, event := ev), wactivated := true);
      }
      socks := socks[s := p];
    }

    method SettleRead(s: nat, ev: Event, len: int)
      requires s in socks && Untouched(ev)
      modifies this`socks, ctx`waitset
      ensures socks == old(socks)[s := old(socks[s]).(ractivated := old(socks[s]).ractivated && len == 0)]
      ensures ctx.waitset == old(ctx.waitset) + Settled(ev, len)
    {
      if len < 0 {
        socks := socks[s := socks[s].(ractivated := false)];
        ctx.SubmitComplete(ev.(error := -len, status := ERR));
      } else if len != 0 {
        socks := socks[s := socks[s].(ractivated := false)];
        ctx.SubmitComplete(ev.(res := len));
      }
    }

    method SubmitReadKind(s: nat, kind: SelectOp, call: Call, cb: Callback)
      requires kind == READ || kind == RECVFROM
      modifies this, ctx
      ensures Abs() == SubmitTo(old(Abs()), s, kind, call, cb)
    {
      ghost var p := PairOf(Abs(), s);
      var ev := NewEvent(s, kind, cb, true);
      ghost var after := SubmitIn(p, kind, ev, call);
      SubmitEvent(s, kind, ev);
      if s in socks && socks[s].rdata.processing {
        var (d, len) := Try(socks[s].rdata, call);
        socks := socks[s := socks[s].(rdata := d)];
        SettleRead(s, ev, len);
      }
      assert socks[s] == after.0 && ctx.waitset == old(ctx.waitset) + after.1;
      assert socks == old(socks)[s := after.0];
    }

    method SettleWrite(s: nat, ev: Event, len: int)
      requires s in socks && Untouched(ev)
      modifies this`socks, ctx`waitset
      ensures socks == old(socks)[s := old(socks[s]).(wactivated := old(socks[s]).wactivated && len == 0)]
      ensures ctx.waitset == old(ctx.waitset) + Settled(ev, len)
    {
      if len < 0 {
        socks := socks[s := socks[s].(wactivated := false)];
        ctx.SubmitComplete(ev.(error := -len, status := ERR));
      } else if len != 0 {
        socks := socks[s := socks[s].(wactivated := false)];
        ctx.SubmitComplete(ev.(res := len));
      }
    }

    method SubmitWriteKind(s: nat, kind: SelectOp, call: Call, cb: Callback)
      requires kind == WRITE || kind == SENDTO
      modifies this, ctx
      ensures Abs() == SubmitTo(old(Abs()), s, kind, call, cb)
    {
      ghost var p := PairOf(Abs(), s);
      var ev := NewEvent(s, kind, cb, true);
      ghost var after := SubmitOut(p, kind, ev, call);
      SubmitEvent(s, kind, ev);
      if s in socks && socks[s].wdata.processing {
        var (d, len) := Try(socks[s].wdata, call);
        socks := socks[s := socks[s].(wdata := d)];
        SettleWrite(s, ev, len);
      }
      assert socks[s] == after.0 && ctx.waitset == old(ctx.waitset) + after.1;
      assert socks == old(socks)[s := after.0];
    }

    method SubmitConnection(s: nat, call: Call, cb: Callback)
      modifies this, ctx
      ensures Abs() == SubmitTo(old(Abs()), s, CONNECT, call, cb)
    {
      var err := ConnectResult(call);
      var ev := NewEvent(s, CONNECT, cb, err == WSAEWOULDBLOCK);
      if err == 0 {
        ctx.SubmitComplete(ev.(status := COMPLETED));
      } else if err == WSAEWOULDBLOCK {
        SubmitEvent(s, CONNECT, ev);
      } else {
        ctx.SubmitComplete(ev.(status := ERR, error := err));
      }
    }

    method SubmitAcceptance(s: nat, call: Call, cb: Callback)
      modifies this, ctx
      ensures Abs() == SubmitTo(old(Abs()), s, ACCEPT, call, cb)
    {
      ghost var p := PairOf(Abs(), s);
      var ev := NewEvent(s, ACCEPT, cb, true);
      ghost var after := SubmitAccept(p, ev, call);
      SubmitEvent(s, ACCEPT, ev);
      if s in socks && socks[s].rdata.processing {
        var (d, len) := TryAccept(socks[s].rdata, call);
        socks := socks[s := socks[s].(rdata := d)];
        if len > 0 {
          ev := ev.(error := -len, status := ERR);
          socks := socks[s := socks[s].(wactivated := false)];
          ctx.SubmitComplete(ev);
        } else if len != 0 {
          ev := ev.(res := len);
          socks := socks[s := socks[s].(wactivated := false)];
          ctx.SubmitComplete(ev);
        }
      }
      assert socks[s] == after.0 && ctx.waitset == old(ctx.waitset) + after.1;
      assert socks == old(socks)[s := after.0];
    }

    /** InitSet: the sets for select() are the activated directions, and every socket is at most `maxfds`. */
    method InitSet() returns (maxfds: nat)
      modifies this`rs, this`ws
      ensures forall s :: s in rs <==> s in socks && socks[s].ractivated
      ensures forall s :: s in ws <==> s in socks && socks[s].wactivated
      ensures forall s :: s in socks ==> s <= maxfds
    {
      rs, ws, maxfds := {}, {}, 0;
      var todo := socks.Keys;
      while todo != {}
        invariant todo <= socks.Keys
        invariant forall s :: s in rs <==> s in socks && s !in todo && socks[s].ractivated
        invariant forall s :: s in ws <==> s in socks && s !in todo && socks[s].wactivated
        invariant forall s :: s in socks && s !in todo ==> s <= maxfds
        decreases todo
      {
        var t :| t in todo;
        if socks[t].ractivated {
          rs := rs + {t};
        }
        if socks[t].wactivated {
          ws := ws + {t};
        }
        if maxfds < t {
          maxfds := t;
        }
        todo := todo - {t};
      }
    }

    /** `rc` is what select() returns. Unless it fails it leaves subsets of the two sets, and the calls it
        leads to turn out as `sel` says. */
    method Wait(rc: int, sel: Selected) returns (res: int)
      requires Sound(Abs())
      requires rc >= 0 ==> forall s :: s in sel.ins ==> s in socks && socks[s].ractivated
      requires rc >= 0 ==> forall s :: s in sel.outs ==> s in socks && socks[s].wactivated
      modifies this, ctx
      ensures Sound(Abs()) && res == if rc < 0 then -1 else 0
      ensures rc < 0 ==> Abs() == old(Abs())
      ensures rc >= 0 ==> exists bound: nat :: Looped(old(Abs()), bound, sel, Abs())
      ensures rc >= 0 ==> socks.Keys == old(socks).Keys && forall s :: s in socks ==>
        && socks[s].ractivated == (old(socks)[s].ractivated && s !in sel.ins)
        && socks[s].wactivated == (old(socks)[s].wactivated && s !in sel.outs)
    {
      var maxfds := InitSet();
      if rc < 0 {
        return -1;
      }
      assert sel.ins <= rs && sel.outs <= ws;
      rs, ws := sel.ins, sel.outs;
      ghost var st, bound: nat := Abs(), maxfds + 1;
      WaitSound(st, 0, bound, sel);
      assert st == old(Abs());
      var k := 0;
      while k <= maxfds
        invariant 0 <= k <= bound && rs == sel.ins && ws == sel.outs
        invariant WaitFrom(Abs(), k, bound, sel) == WaitFrom(st, 0, bound, sel)
      {
        if k in socks {
          OnSocket(k, sel);
        }
        k := k + 1;
      }
      assert Looped(st, bound, sel, Abs());
      res := 0;
    }

    /** What one turn of the loop made of an entry, and what it appended to `waitset_`. */
    twostate predicate Became(s: nat, after: (Pair, seq<Event>))
      reads this, ctx
    {
      && socks == old(socks)[s := after.0] && ctx.waitset == old(ctx.waitset) + after.1
      && ctx.delivered == old(ctx.delivered) && lost == old(lost) && next == old(next)
      && rs == old(rs) && ws == old(ws)
    }

    method OnReadable(s: nat, call: Call)
      requires s in socks
      modifies this`socks, ctx
      ensures Became(s, ReadyIn(old(socks[s]), call))
    {
      var p := socks[s];
      match p.rdata.kind {
        case READ | RECVFROM =>
          p := p.(rdata := p.rdata.(processing := true));
          var (d, len) := Try(p.rdata, call);
          if len < 0 {
            d := d.(event := d.event.(error := -len, status := ERR));
          } else {
            d := d.(event := d.event.(res := len, status := COMPLETED));
          }
          p := p.(rdata := d, ractivated := false);
          ctx.SubmitComplete(p.rdata.event);
        case ACCEPT =>
          p := p.(rdata := p.rdata.(processing := true));
          var (d, res) := TryAccept(p.rdata, call);
          if res > 0 {
            d := d.(event := d.event.(error := res, status := ERR));
          } else {
            d := d.(event := d.event.(status := COMPLETED));
          }
          p := p.(rdata := d, ractivated := false);
          ctx.SubmitComplete(p.rdata.event);
        case _ =>
      }
      socks := socks[s := p];
    }

    method OnWriteable(s: nat, call: Call)
      requires s in socks
      modifies this`socks, ctx
      ensures Became(s, ReadyOut(old(socks[s]), call))
    {
      var p := socks[s];
      match p.wdata.kind {
        case WRITE | SENDTO =>
          if p.wactivated {
            p := p.(wdata := p.wdata.(processing := true));
            var (d, len) := Try(p.wdata, call);
            if len < 0 {
              d := d.(event := d.event.(error := -len, status := ERR));
            } else {
              d := d.(event := d.event.(res := len, status := COMPLETED));
            }
            p := p.(wdata := d, wactivated := false);
            ctx.SubmitComplete(p.wdata.event);
          }
        case CONNECT =>
          var res := ConnectResult(call);
          var ev := p.wdata.event;
          if res == WSAEISCONN {
            ev := ev.(status := COMPLETED);
          } else {
            ev := ev.(status := ERR, error := res);
          }
          ctx.SubmitComplete(ev);
          p := p.(wdata := p.wdata.(event := ev), wactivated := false);
        case _ =>
      }
      socks := socks[s := p];
    }

    /** The body of the loop over the map. */
    method OnSocket(s: nat, sel: Selected)
      requires s in socks && rs == sel.ins && ws == sel.outs
      modifies this`socks, ctx
      ensures Abs() == OnSock(old(Abs()), s, sel) && rs == old(rs) && ws == old(ws)
    {
      ghost var p := socks[s];
      if s in rs {
        if !socks[s].ractivated {
          assert socks[s := p] == socks && ctx.waitset + [] == ctx.waitset;
          return;
        }
        OnReadable(s, CallFor(sel.inCalls, s));
      }
      if s in ws {
        OnWriteable(s, CallFor(sel.outCalls, s));
      }
      ghost var after := ReadyPair(p, s, sel);
      assert socks == old(socks)[s := after.0];
      assert ctx.waitset == old(ctx.waitset) + after.1;
    }
  }
}
