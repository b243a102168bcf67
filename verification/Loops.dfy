/** The loop of the context as moves, with the kernel's own moves anywhere between them. */
module Loops {
  import opened Engine
  import opened Conservation
  import opened Sweeps
  import opened Wakeups

  // ------------------------------------------------------------- the loop's moves

  function MovesOf(actions: seq<Action>): seq<Move> {
    if actions == [] then []
    else
      [match actions[0]
       case Submission(s, op, result, cb) => Request(s, op, result, cb)
       case End => Stop] + MovesOf(actions[1..])
  }

  function FireMoves(st: State): seq<Move>
    requires st.queue != []
  {
    [Delivery] + MovesOf(st.queue[0].cb.actions)
  }

  function SweepMoves(st: State): seq<Move>
    decreases QueueSize(st.queue)
  {
    if st.queue == [] then [] else FireShrinks(st); FireMoves(st) + SweepMoves(Fire(st))
  }

  function NoticeMoves(rs: seq<Report>): seq<Move> {
    if rs == [] then [] else [Notice(rs[0])] + NoticeMoves(rs[1..])
  }

  /** Everything the loop does, given what the system reports each time. */
  function LoopMoves(st: State, script: seq<seq<Report>>): seq<Move>
    decreases |script|
  {
    if !st.running then []
    else if script == [] then SweepMoves(st)
    else SweepMoves(st) + NoticeMoves(script[0]) + LoopMoves(Wait(Sweep(st), script[0]), script[1..])
  }

  lemma {:induction false} AfterSplit(w: World, a: seq<Move>, b: seq<Move>)
    ensures After(w, a + b) == After(After(w, a), b)
    decreases |a|
  {
    if a == [] {
      assert a + b == b;
    } else {
      AfterSplit(Moved(w, a[0]), a[1..], b);
      assert (a + b)[1..] == a[1..] + b;
    }
  }

  lemma {:induction false} ActsAreMoves(w: World, actions: seq<Action>)
    ensures After(w, MovesOf(actions)) == w.(eng := Acts(w.eng, actions))
    decreases |actions|
  {
    if actions == [] {
    } else {
      var m := MovesOf(actions);
      assert m[1..] == MovesOf(actions[1..]) && Moved(w, m[0]) == w.(eng := Act(w.eng, actions[0]));
      ActsAreMoves(Moved(w, m[0]), actions[1..]);
    }
  }

  lemma FireIsMoves(w: World)
    requires w.eng.queue != []
    ensures After(w, FireMoves(w.eng)) == w.(eng := Fire(w.eng))
  {
    var actions := w.eng.queue[0].cb.actions;
    ActsDespite(w.eng, actions);
    ActsAreMoves(Moved(w, Delivery), actions);
    assert FireMoves(w.eng)[1..] == MovesOf(actions);
    assert Acts(w.eng, actions).queue[0] == w.eng.queue[0];
  }

  lemma {:induction false} SweepIsMoves(w: World)
    ensures After(w, SweepMoves(w.eng)) == w.(eng := Sweep(w.eng))
    decreases QueueSize(w.eng.queue)
  {
    if w.eng.queue == [] {
    } else {
      FireShrinks(w.eng);
      FireIsMoves(w);
      SweepIsMoves(w.(eng := Fire(w.eng)));
      AfterSplit(w, FireMoves(w.eng), SweepMoves(Fire(w.eng)));
    }
  }

  lemma {:induction false} WaitIsMoves(w: World, rs: seq<Report>)
    ensures After(w, NoticeMoves(rs)).eng == Wait(w.eng, rs)
    decreases |rs|
  {
    if rs == [] {
    } else {
      assert NoticeMoves(rs)[1..] == NoticeMoves(rs[1..]);
      WaitIsMoves(Moved(w, Notice(rs[0])), rs[1..]);
    }
  }

  lemma {:induction false} LoopIsMoves(w: World, script: seq<seq<Report>>)
    ensures After(w, LoopMoves(w.eng, script)).eng == RunLoop(w.eng, script)
    decreases |script|
  {
    SweepIsMoves(w);
    if !w.eng.running || script == [] {
    } else {
      var swept := w.(eng := Sweep(w.eng));
      var waited := After(swept, NoticeMoves(script[0]));
      WaitIsMoves(swept, script[0]);
      LoopIsMoves(waited, script[1..]);
      AfterSplit(w, SweepMoves(w.eng), NoticeMoves(script[0]));
      AfterSplit(w, SweepMoves(w.eng) + NoticeMoves(script[0]), LoopMoves(waited.eng, script[1..]));
    }
  }

  // ------------------------------------------------------------- the kernel in between

  predicate OfEngine(m: Move) { m.Request? || m.Notice? || m.Delivery? || m.Stop? }

  /** The moves without the kernel's own. */
  function EngineMoves(moves: seq<Move>): seq<Move> {
    if moves == [] then []
    else (if OfEngine(moves[0]) then [moves[0]] else []) + EngineMoves(moves[1..])
  }

  /** The engine does not see the kernel's moves. */
  lemma {:induction false} EngineOnly(w: World, v: World, moves: seq<Move>)
    requires w.eng == v.eng
    ensures After(w, moves).eng == After(v, EngineMoves(moves)).eng
    decreases |moves|
  {
    if moves == [] {
    } else if OfEngine(moves[0]) {
      assert EngineMoves(moves)[1..] == EngineMoves(moves[1..]);
      EngineOnly(Moved(w, moves[0]), Moved(v, moves[0]), moves[1..]);
    } else {
      assert EngineMoves(moves) == EngineMoves(moves[1..]);
      EngineOnly(Moved(w, moves[0]), v, moves[1..]);
    }
  }

  /** If socket s is in order when the loop starts, as it is after any such run from the beginning, then at
      every point of the loop, whatever the kernel does in between and other sockets go through, what
      is armed on a ready socket has an edge pending; and when the moves are all there are, the engine is
      in the state the loop ends in. */
  lemma LoopLosesNoWakeup(w: World, script: seq<seq<Report>>, moves: seq<Move>, s: nat)
    requires InAwake(w, s) && OutAwake(w, s) && RunAt(w, moves, s)
    requires EngineMoves(moves) <= LoopMoves(w.eng, script)
    ensures var w' := After(w, moves); var slot, k := SlotOf(w'.eng, s), KernelOf(w', s);
      && (Armed(slot) && Outward(slot.kind) && k.writable ==> k.outEdge)
      && (RunKeptIn(w, moves, s) && Armed(slot) && Inward(slot.kind) && k.readable ==> k.inEdge)
      && (EngineMoves(moves) == LoopMoves(w.eng, script) ==> w'.eng == RunLoop(w.eng, script))
  {
    RunStaysAwake(w, moves, s);
    EngineOnly(w, w, moves);
    LoopIsMoves(w, script);
  }
}
