/** Over whole runs every submitted event is in exactly one place. */
module Conservation {
  import opened Engine

  // ------------------------------------------------------------- runs

  /** A delivery takes the first event off the list; what its callback submits are further steps. */
  datatype Step = Submitted(s: nat, op: Op, result: int, cb: Callback) | Reported(r: Report) | Delivered | Ended

  /** An error is reported only for an armed slot. */
  predicate Legal(st: State, step: Step) {
    match step
    case Submitted(_, _, _, _) => true
    case Reported(r) => Reportable(st, r) && (r.err ==> Armed(SlotOf(st, r.sock)))
    case Delivered => st.queue != []
    case Ended => true
  }

  function Deliver(st: State): State
    requires st.queue != []
  {
    st.(queue := st.queue[1..], delivered := st.delivered + [st.queue[0]])
  }

  function Apply(st: State, step: Step): State
    requires Legal(st, step)
  {
    match step
    case Submitted(s, op, result, cb) => Submit(st, s, op, result, cb)
    case Reported(r) => OnReport(st, r)
    case Delivered => Deliver(st)
    case Ended => st.(running := false)
  }

  ghost predicate LegalRun(st: State, steps: seq<Step>)
    decreases |steps|
  {
    steps == [] || (Legal(st, steps[0]) && LegalRun(Apply(st, steps[0]), steps[1..]))
  }

  ghost function Run(st: State, steps: seq<Step>): State
    requires LegalRun(st, steps)
    decreases |steps|
  {
    if steps == [] then st else Run(Apply(st, steps[0]), steps[1..])
  }

  // ------------------------------------------------------------- the invariant

  /** The events that finished, in the order they did: those delivered, then those waiting to be. */
  ghost function Finished(st: State): seq<Event> {
    st.delivered + st.queue
  }

  ghost predicate Among(events: seq<Event>, id: nat) {
    exists i :: 0 <= i < |events| && events[i].id == id
  }

  ghost predicate ArmedAt(st: State, s: nat) {
    s in st.slots && Armed(st.slots[s])
  }

  ghost predicate InSlot(st: State, id: nat) {
    exists s :: ArmedAt(st, s) && st.slots[s].ev.id == id
  }

  /** An event as it was submitted. */
  ghost predicate Untouched(ev: Event) {
    ev.status == WAITING && ev.error == 0 && ev.res == 0
  }

  /** No submission is in two places. */
  ghost predicate Apart(st: State) {
    // no two finished events, no two armed ones, and no finished and armed one are the same submission
    && (forall i, j :: 0 <= i < j < |Finished(st)| ==> Finished(st)[i].id != Finished(st)[j].id)
    && (forall s, t :: ArmedAt(st, s) && ArmedAt(st, t) && s != t ==> st.slots[s].ev.id != st.slots[t].ev.id)
    && (forall s :: ArmedAt(st, s) ==> !Among(Finished(st), st.slots[s].ev.id))
    // nor are those whose slot was taken over
    && (forall id :: id in st.lost ==> id < st.next && !Among(Finished(st), id) && !InSlot(st, id))
  }

  /** Every submission is somewhere, and nothing else is. */
  ghost predicate Accounted(st: State) {
    && (forall id :: 0 <= id < st.next ==> InSlot(st, id) || Among(Finished(st), id) || id in st.lost)
    && (forall i :: 0 <= i < |Finished(st)| ==> Finished(st)[i].id < st.next && Finished(st)[i].status != WAITING)
    && (forall s :: ArmedAt(st, s) ==> st.slots[s].ev.id < st.next && Untouched(st.slots[s].ev))
  }

  /** A cleared slot still holds its last event, which is not armed any more. */
  ghost predicate IdleHeld(st: State) {
    forall s :: s in st.slots && st.slots[s].known && !Armed(st.slots[s]) ==>
      st.slots[s].ev.id < st.next && !InSlot(st, st.slots[s].ev.id)
  }

  ghost predicate Conserved(st: State) {
    Apart(st) && Accounted(st) && IdleHeld(st)
  }

  lemma InitiallyConserved()
    ensures Conserved(BLANK)
  {
  }

  lemma AmongSplit(a: seq<Event>, b: seq<Event>, id: nat)
    ensures Among(a + b, id) <==> Among(a, id) || Among(b, id)
  {
    var all := a + b;
    if Among(a, id) {
      var i :| 0 <= i < |a| && a[i].id == id;
      assert all[i].id == id;
    }
    if Among(b, id) {
      var i :| 0 <= i < |b| && b[i].id == id;
      assert all[|a| + i].id == id;
    }
    if Among(all, id) {
      var i :| 0 <= i < |all| && all[i].id == id;
      assert all[i] == if i < |a| then a[i] else b[i - |a|];
    }
  }

  /** What Conserved says of one submission: its place, and that there is no other. */
  lemma ExactlyOnePlace(st: State, id: nat)
    requires Conserved(st) && id < st.next
    ensures (if InSlot(st, id) then 1 else 0) + (if Among(st.queue, id) then 1 else 0)
      + (if Among(st.delivered, id) then 1 else 0) + (if id in st.lost then 1 else 0) == 1
    ensures forall i, j :: 0 <= i < |st.queue| && 0 <= j < |st.queue| && st.queue[i].id == st.queue[j].id ==> i == j
    ensures forall i, j :: 0 <= i < |st.delivered| && 0 <= j < |st.delivered| ==>
      st.delivered[i].id == st.delivered[j].id ==> i == j
  {
    var all, n := Finished(st), |st.delivered|;
    assert forall i :: 0 <= i < n ==> all[i] == st.delivered[i];
    assert forall i :: 0 <= i < |st.queue| ==> all[n + i] == st.queue[i];
    AmongSplit(st.delivered, st.queue, id);
    forall i, j | 0 <= i < n && 0 <= j < |st.queue|
      ensures st.delivered[i].id != st.queue[j].id
    {
      assert all[i].id != all[n + j].id;
    }
  }

  // ------------------------------------------------------------- one slot changes

  /** What is armed in the other slots does not change. */
  lemma Elsewhere(st: State, s: nat, st': State)
    requires s in st'.slots && st'.slots == st.slots[s := st'.slots[s]]
    ensures forall t :: t != s ==> (ArmedAt(st', t) <==> ArmedAt(st, t))
    ensures forall t :: t != s && ArmedAt(st', t) ==> st'.slots[t] == st.slots[t]
    ensures forall id :: InSlot(st', id) ==> InSlot(st, id) || (ArmedAt(st', s) && st'.slots[s].ev.id == id)
    ensures forall id :: InSlot(st, id) ==> InSlot(st', id) || (ArmedAt(st, s) && st.slots[s].ev.id == id)
  {
    forall id
      ensures InSlot(st', id) ==> InSlot(st, id) || (ArmedAt(st', s) && st'.slots[s].ev.id == id)
      ensures InSlot(st, id) ==> InSlot(st', id) || (ArmedAt(st, s) && st.slots[s].ev.id == id)
    {
      if InSlot(st', id) {
        var t :| ArmedAt(st', t) && st'.slots[t].ev.id == id;
        assert t != s ==> ArmedAt(st, t);
      }
      if InSlot(st, id) {
        var t :| ArmedAt(st, t) && st.slots[t].ev.id == id;
        assert t != s ==> ArmedAt(st', t);
      }
    }
  }

  /** What is armed once a slot has changed. */
  lemma Replaced(st: State, s: nat, slot': Slot, st': State)
    requires Conserved(st) && st'.slots == st.slots[s := slot']
    ensures forall t :: ArmedAt(st', t) <==> if t == s then Armed(slot') else ArmedAt(st, t)
    ensures forall id :: InSlot(st', id) <==>
      (Armed(slot') && id == slot'.ev.id) || (InSlot(st, id) && !(ArmedAt(st, s) && id == st.slots[s].ev.id))
  {
    Elsewhere(st, s, st');
    assert ArmedAt(st', s) <==> Armed(slot');
    forall id | InSlot(st', id) && !(Armed(slot') && id == slot'.ev.id)
      ensures !(ArmedAt(st, s) && id == st.slots[s].ev.id)
    {
      var t :| ArmedAt(st', t) && st'.slots[t].ev.id == id;
      assert t != s && ArmedAt(st, t) && st.slots[t].ev.id == id;
    }
  }

  /** A slot is given to a new submission, and what was armed in it is lost. */
  ghost predicate Given(st: State, s: nat, slot': Slot, st': State) {
    && st'.slots == st.slots[s := slot'] && st'.next == st.next + 1
    && st'.lost == if Armed(SlotOf(st, s)) then st.lost + {SlotOf(st, s).ev.id} else st.lost
  }

  lemma ArmingApart(st: State, s: nat, slot': Slot, st': State)
    requires Conserved(st) && Given(st, s, slot', st') && Finished(st') == Finished(st)
    requires Armed(slot') && slot'.ev.id == st.next
    ensures Apart(st')
  {
    Replaced(st, s, slot', st');
  }

  lemma TakenIsHeld(st: State, s: nat, slot': Slot, st': State)
    requires Conserved(st) && st'.slots == st.slots[s := slot'] && st'.next == st.next + 1
    requires slot'.known ==>
      slot'.ev.id == st.next || (!Armed(slot') && SlotOf(st, s).known && slot'.ev == SlotOf(st, s).ev)
    ensures IdleHeld(st')
  {
    Elsewhere(st, s, st');
  }

  /** A submission that waits conserves. */
  lemma Arming(st: State, s: nat, slot': Slot, st': State)
    requires Conserved(st) && Given(st, s, slot', st') && Finished(st') == Finished(st)
    requires Armed(slot') && slot'.ev.id == st.next && Untouched(slot'.ev)
    ensures Conserved(st')
  {
    TakenIsHeld(st, s, slot', st');
    Replaced(st, s, slot', st');
    assert Apart(st') by {
      ArmingApart(st, s, slot', st');
    }
  }

  lemma AmongOneMore(events: seq<Event>, e: Event)
    ensures forall id :: Among(events + [e], id) <==> Among(events, id) || id == e.id
  {
    forall id
      ensures Among(events + [e], id) <==> Among(events, id) || id == e.id
    {
      AmongSplit(events, [e], id);
      assert [e][0].id == e.id;
    }
  }

  lemma FinishedIsIdle(st: State, s: nat, slot': Slot, st': State)
    requires Conserved(st) && ArmedAt(st, s) && slot'.kind == NOOP && slot'.ev.id == st.slots[s].ev.id
    requires st'.slots == st.slots[s := slot'] && st'.next == st.next
    ensures forall id :: InSlot(st', id) <==> InSlot(st, id) && id != st.slots[s].ev.id
    ensures IdleHeld(st')
  {
    Elsewhere(st, s, st');
  }

  lemma FinishingArmedApart(st: State, s: nat, slot': Slot, st': State, e: Event)
    requires Conserved(st) && ArmedAt(st, s) && e.id == st.slots[s].ev.id && slot'.kind == NOOP
    requires st'.slots == st.slots[s := slot'] && Finished(st') == Finished(st) + [e]
    requires st'.next == st.next && st'.lost == st.lost
    ensures Apart(st')
  {
    AmongOneMore(Finished(st), e);
    Replaced(st, s, slot', st');
  }

  lemma FinishingArmedAccounted(st: State, s: nat, slot': Slot, st': State, e: Event)
    requires Conserved(st) && ArmedAt(st, s) && e.id == st.slots[s].ev.id && e.status != WAITING && slot'.kind == NOOP
    requires st'.slots == st.slots[s := slot'] && Finished(st') == Finished(st) + [e]
    requires st'.next == st.next && st'.lost == st.lost
    ensures Accounted(st')
  {
    AmongOneMore(Finished(st), e);
    Replaced(st, s, slot', st');
  }

  /** Finishing what is armed in a slot conserves; the slot is idle. */
  lemma FinishingArmed(st: State, s: nat, slot': Slot, st': State, e: Event)
    requires Conserved(st) && ArmedAt(st, s) && e.id == st.slots[s].ev.id && e.status != WAITING
    requires slot'.kind == NOOP && slot'.ev.id == e.id
    requires st'.slots == st.slots[s := slot'] && Finished(st') == Finished(st) + [e]
    requires st'.next == st.next && st'.lost == st.lost
    ensures Conserved(st')
  {
    FinishingArmedApart(st, s, slot', st', e);
    FinishingArmedAccounted(st, s, slot', st', e);
    FinishedIsIdle(st, s, slot', st');
  }

  lemma FinishingNewApart(st: State, s: nat, slot': Slot, st': State, e: Event)
    requires Conserved(st) && Given(st, s, slot', st') && Finished(st') == Finished(st) + [e]
    requires e.id == st.next && slot'.kind == NOOP
    ensures Apart(st')
  {
    Replaced(st, s, slot', st');
    AmongOneMore(Finished(st), e);
  }

  /** A submission that finishes at once conserves; its slot is idle. */
  lemma FinishingNew(st: State, s: nat, slot': Slot, st': State, e: Event)
    requires Conserved(st) && Given(st, s, slot', st') && Finished(st') == Finished(st) + [e]
    requires e.id == st.next && e.status != WAITING && slot'.kind == NOOP
    requires slot'.known ==> slot'.ev.id == st.next || (SlotOf(st, s).known && slot'.ev == SlotOf(st, s).ev)
    ensures Conserved(st')
  {
    TakenIsHeld(st, s, slot', st');
    Replaced(st, s, slot', st');
    AmongOneMore(Finished(st), e);
    assert Apart(st') by {
      FinishingNewApart(st, s, slot', st', e);
    }
  }

  /** A new submission finishes at once without any slot. */
  lemma FinishingAside(st: State, st': State, e: Event)
    requires Conserved(st) && e.id == st.next && e.status != WAITING
    requires st'.slots == st.slots && Finished(st') == Finished(st) + [e]
    requires st'.next == st.next + 1 && st'.lost == st.lost
    ensures Conserved(st')
  {
    AmongOneMore(Finished(st), e);
    assert forall s :: ArmedAt(st', s) <==> ArmedAt(st, s);
    forall id
      ensures InSlot(st', id) <==> InSlot(st, id)
    {
    }
  }

  /** Nothing moves: the same submissions are armed in the same slots, and the rest is as before. */
  lemma Unmoved(st: State, st': State)
    requires Conserved(st) && Finished(st') == Finished(st) && st'.lost == st.lost && st'.next == st.next
    requires forall s :: ArmedAt(st', s) ==> ArmedAt(st, s)
    requires forall s :: ArmedAt(st, s) ==> ArmedAt(st', s) && st'.slots[s].ev == st.slots[s].ev
    requires forall s :: s in st'.slots && st'.slots[s].known ==>
      s in st.slots && st.slots[s].known && st'.slots[s].ev == st.slots[s].ev
    ensures Conserved(st')
  {
    forall id
      ensures InSlot(st', id) <==> InSlot(st, id)
    {
    }
  }

  // ------------------------------------------------------------- every step

  lemma SubmitConserves(st: State, s: nat, op: Op, result: int, cb: Callback)
    requires Conserved(st)
    ensures Conserved(Submit(st, s, op, result, cb))
  {
    var slot, ev, st' := SlotOf(st, s), Event(st.next, WAITING, 0, 0, cb), Submit(st, s, op, result, cb);
    var (slot', done) := SubmitSlot(slot, op, ev, result);
    assert Finished(st') == Finished(st) + done;
    if done == [] {
      Arming(st, s, slot', st');
    } else {
      FinishingNew(st, s, slot', st', done[0]);
    }
  }

  /** What a report tells the operation that waits. */
  function Told(kind: Op, r: Report): Outcome {
    if r.err then Failed(r.sockErr)
    else if r.hup then Failed(HANGUP_ERROR)
    else if ReadKind(kind) then Forced(kind, r.inResult)
    else if WriteKind(kind) then Forced(kind, r.outResult)
    else if kind == SIGNAL then Length(r.inResult)
    else if kind == TIMETICK then Length(0)
    else Ok
  }

  /** Whether a report finishes the operation that waits. */
  predicate Tells(kind: Op, r: Report) {
    if r.err then true
    else if r.hup then kind == CONNECT
    else if WriteKind(kind) then r.output && r.outResult != -EWOULDBLOCK
    else if kind == CONNECT then r.output
    else r.input
  }

  /** A report finishes what is armed in its slot, if it tells it anything, and nothing else. */
  lemma ReportTells(slot: Slot, r: Report)
    requires slot.known && (r.err ==> Armed(slot))
    ensures ReportSlot(slot, r).1 ==
      if Armed(slot) && Tells(slot.kind, r) then [Finish(slot.ev, Told(slot.kind, r))] else []
  {
  }

  /** A report finishes at most one submission, the one armed in its slot. */
  lemma ReportFinishesOne(slot: Slot, r: Report)
    requires slot.known && (r.err ==> Armed(slot))
    ensures var (slot', done) := ReportSlot(slot, r);
      && slot'.known && |done| <= 1
      && (if done == [] then slot'.kind == slot.kind && slot'.ev == slot.ev
          else
            && Armed(slot) && slot'.kind == NOOP && slot'.ev == done[0]
            && done[0].id == slot.ev.id && done[0].status != WAITING)
  {
  }

  lemma ReportConserves(st: State, r: Report)
    requires Conserved(st) && Reportable(st, r) && (r.err ==> Armed(SlotOf(st, r.sock)))
    ensures Conserved(OnReport(st, r))
  {
    var slot, st' := SlotOf(st, r.sock), OnReport(st, r);
    var (slot', done) := ReportSlot(slot, r);
    ReportFinishesOne(slot, r);
    assert Finished(st') == Finished(st) + done;
    if done == [] {
      Unmoved(st, st');
    } else {
      FinishingArmed(st, r.sock, slot', st', done[0]);
    }
  }

  /** The branch for errors does not look at the slot's type, and a cleared slot still holds its last
      event: reported for an idle slot, an error finishes that submission a second time. So a report
      keeps the events conserved exactly when an error is not reported for an idle slot. */
  lemma ErrorOnlyWhenArmed(st: State, r: Report)
    requires Conserved(st) && Reportable(st, r)
    ensures Conserved(OnReport(st, r)) <==> (r.err ==> Armed(SlotOf(st, r.sock)))
  {
    if r.err ==> Armed(SlotOf(st, r.sock)) {
      ReportConserves(st, r);
    } else {
      var id, st' := SlotOf(st, r.sock).ev.id, OnReport(st, r);
      var e := Finish(SlotOf(st, r.sock).ev, Failed(r.sockErr));
      assert Finished(st') == Finished(st) + [e];
      assert Finished(st')[|Finished(st)|].id == id;
      assert Among(Finished(st'), id);
      if Among(Finished(st), id) {
        var i :| 0 <= i < |Finished(st)| && Finished(st)[i].id == id;
        assert Finished(st')[i].id == Finished(st')[|Finished(st)|].id;
      }
    }
  }

  /** A read finishes, and then an error is reported for its socket. */
  const FINISHED_READ := [
    Submitted(0, READ, 0, NOTHING), Reported(Report(0, false, false, true, false, 1, 0, 0))]

  const LATE_ERROR := Report(0, true, false, false, false, 0, 0, 104)

  lemma StepConserves(st: State, step: Step)
    requires Conserved(st) && Legal(st, step)
    ensures Conserved(Apply(st, step))
  {
    match step
    case Submitted(s, op, result, cb) => SubmitConserves(st, s, op, result, cb);
    case Reported(r) => ReportConserves(st, r);
    case Delivered => assert Finished(Deliver(st)) == Finished(st); Unmoved(st, Deliver(st));
    case Ended => Unmoved(st, st.(running := false));
  }

  /** Conservation over every run. */
  lemma {:induction false} RunConserves(st: State, steps: seq<Step>)
    requires Conserved(st) && LegalRun(st, steps)
    ensures Conserved(Run(st, steps))
    decreases |steps|
  {
    if steps == [] {
    } else {
      StepConserves(st, steps[0]);
      RunConserves(Apply(st, steps[0]), steps[1..]);
    }
  }

  /** A late error delivers a finished read twice. */
  lemma LateErrorRepeats()
    ensures LegalRun(BLANK, FINISHED_READ)
    ensures var st := Run(BLANK, FINISHED_READ); var st' := OnReport(st, LATE_ERROR);
      && Conserved(st) && Reportable(st, LATE_ERROR) && !Conserved(st')
      && |st'.queue| == 2 && st'.queue[0].id == st'.queue[1].id
  {
    var steps := FINISHED_READ;
    var st1 := Apply(BLANK, steps[0]);
    assert steps[1..][0] == steps[1] && steps[1..][1..] == [];
    assert Legal(st1, steps[1]) && LegalRun(st1, steps[1..]);
    assert Run(st1, steps[1..]) == Apply(st1, steps[1]);
    RunConserves(BLANK, steps);
    ErrorOnlyWhenArmed(Run(BLANK, steps), LATE_ERROR);
  }

  /** Submissions only ever on idle slots. */
  ghost predicate Patient(st: State, steps: seq<Step>)
    requires LegalRun(st, steps)
    decreases |steps|
  {
    steps == [] ||
    ((steps[0].Submitted? ==> !Armed(SlotOf(st, steps[0].s))) && Patient(Apply(st, steps[0]), steps[1..]))
  }

  /** On idle slots nothing is lost: every submission is waiting in a slot, waiting in the list, or delivered. */
  lemma {:induction false} PatientLosesNothing(st: State, steps: seq<Step>)
    requires LegalRun(st, steps) && Patient(st, steps)
    ensures Run(st, steps).lost == st.lost
    decreases |steps|
  {
    if steps == [] {
    } else {
      PatientLosesNothing(Apply(st, steps[0]), steps[1..]);
    }
  }

  lemma Appended(d: seq<Event>, q: seq<Event>, q': seq<Event>)
    requires q <= q'
    ensures d + q <= d + q'
  {
  }

  lemma StepAppends(st: State, step: Step)
    requires Legal(st, step)
    ensures Finished(st) <= Finished(Apply(st, step)) && st.delivered <= Apply(st, step).delivered
  {
    var st' := Apply(st, step);
    if step.Delivered? {
      assert Finished(st') == Finished(st);
    } else {
      assert st.queue <= st'.queue && st'.delivered == st.delivered;
      Appended(st.delivered, st.queue, st'.queue);
    }
  }

  lemma PrefixTransitive<T>(a: seq<T>, b: seq<T>, c: seq<T>)
    requires a <= b && b <= c
    ensures a <= c
  {
  }

  /** Events are delivered in the order in which they finished, and unchanged. */
  lemma {:induction false} FirstFinishedFirst(st: State, steps: seq<Step>)
    requires LegalRun(st, steps)
    ensures Finished(st) <= Finished(Run(st, steps)) && st.delivered <= Run(st, steps).delivered
    decreases |steps|
  {
    if steps == [] {
    } else {
      var st' := Apply(st, steps[0]);
      StepAppends(st, steps[0]);
      FirstFinishedFirst(st', steps[1..]);
      PrefixTransitive(Finished(st), Finished(st'), Finished(Run(st, steps)));
      PrefixTransitive(st.delivered, st'.delivered, Run(st, steps).delivered);
    }
  }
}
