/** The two cancellation protocols around a worker thread, and the file
    handlers built from them. A step is one thing the event loop, the worker
    thread or a canceller does. */
module Cancellation {

  // What a file change does in its thread.
  datatype Change = Ok | OsError | JailError | OtherError

  // The job handed to the thread pool: one that finds itself cancelled when a
  // thread picks it up skips the change, and its future ends a little later.
  datatype Work = Queued | Running | Skipping | Ran(change: Change) | NeverRan

  datatype Exit = Outcome(change: Change) | Cancelled

  datatype Pc = Awaiting | Exited(exit: Exit)

  // `requested` is the asyncio task's cancelling() count and `due` says that a
  // CancelledError is to be thrown where it next resumes: cancels that
  // arrive while one is due are counted but thrown once.
  datatype Guarded = Guarded(
    work: Work,
    flag: bool,
    held: nat,
    requested: nat,
    due: bool,
    pc: Pc,
    calls: nat,
    thrown: nat,
    coalesced: nat)

  datatype Event = PickUp | ThreadEnds(change: Change) | Cancel | Resume

  /** _run_to_completion, entered by a task with this many cancels counted. */
  function Enter(requested: nat): Guarded {
    Guarded(Queued, false, 0, requested, false, Awaiting, 0, 0, 0)
  }

  /** The await returned or raised what the job ended with: the rest of the
      function, `finally` included. */
  function Leave(s: Guarded): Guarded {
    match s.work
    case Ran(change) =>
      s.(pc := Exited(Outcome(change)),
         requested := if s.requested >= s.held then s.requested - s.held else 0)
    case NeverRan => s.(held := 0, pc := Exited(Cancelled))
    case _ => s
  }

  predicate Finished(w: Work) {
    w.Ran? || w.NeverRan?
  }

  function Step(s: Guarded, ev: Event): Guarded {
    match ev
    case PickUp => if !s.work.Queued? then s else s.(work := if s.flag then Skipping else Running)
    case ThreadEnds(change) =>
      if s.work.Running? then s.(work := Ran(change))
      else if s.work.Skipping? then s.(work := NeverRan)
      else s
    case Cancel =>
      if s.pc.Exited? then s
      else
        var t := s.(requested := s.requested + 1, calls := s.calls + 1);
        if s.due then t.(coalesced := s.coalesced + 1) else t.(due := true)
    case Resume =>
      if s.pc.Exited? then s
      else if s.due then
        var t := s.(due := false, flag := true, held := s.held + 1, thrown := s.thrown + 1);
        if Finished(t.work) then Leave(t) else t
      else if Finished(s.work) then Leave(s)
      else s
  }

  function Run(requested: nat, events: seq<Event>): Guarded {
    if events == [] then Enter(requested)
    else Step(Run(requested, events[..|events| - 1]), events[|events| - 1])
  }

  ghost predicate Invariant(s: Guarded, requested: nat) {
    && s.calls == s.thrown + s.coalesced + (if s.due then 1 else 0)
    && (s.pc.Awaiting? ==> s.requested == requested + s.calls && s.held == s.thrown)
    && (s.flag <==> s.thrown > 0)
    && (s.work.Skipping? || s.work.NeverRan? ==> s.flag)
    && match s.pc
       case Awaiting => true
       case Exited(Outcome(change)) =>
         s.work == Ran(change) && s.held == s.thrown && !s.due && s.requested == requested + s.calls - s.held
       case Exited(Cancelled) => s.work.NeverRan? && s.held == 0 && s.requested == requested + s.calls
  }

  lemma StepInvariant(s: Guarded, ev: Event, requested: nat)
    requires Invariant(s, requested)
    ensures Invariant(Step(s, ev), requested)
  {
  }

  lemma {:induction false} RunInvariant(requested: nat, events: seq<Event>)
    ensures Invariant(Run(requested, events), requested)
  {
    if events != [] {
      RunInvariant(requested, events[..|events| - 1]);
      StepInvariant(Run(requested, events[..|events| - 1]), events[|events| - 1], requested);
    }
  }

  /** Whatever the timing of cancels against the thread: the function exits
      with the change's own outcome if it ran and with cancellation if it never
      started, and never while it is running. */
  lemma {:induction false} ExitMatchesWork(requested: nat, events: seq<Event>)
    ensures var s := Run(requested, events);
            && (s.pc.Exited? && s.pc.exit.Outcome? ==> s.work == Ran(s.pc.exit.change))
            && (s.pc == Exited(Cancelled) ==> s.work == NeverRan)
            && (s.work.Queued? || s.work.Running? || s.work.Skipping? ==> s.pc.Awaiting?)
  {
    RunInvariant(requested, events);
  }

  // ---- the schedule, before the function exits ----

  /** A cancel that no resume has followed yet. */
  ghost predicate CancelAhead(events: seq<Event>) {
    exists i :: 0 <= i < |events| && events[i] == Cancel && Resume !in events[i..]
  }

  /** Between any two cancels the coroutine resumed. */
  ghost predicate CancelsApart(events: seq<Event>) {
    forall i, j | 0 <= i < j < |events| && events[i] == Cancel && events[j] == Cancel :: Resume in events[i..j]
  }

  /** A cancel came and the coroutine resumed on it. */
  ghost predicate CancelThrown(events: seq<Event>) {
    exists i, j :: 0 <= i < j < |events| && events[i] == Cancel && events[j] == Resume
  }

  lemma AheadStep(front: seq<Event>, last: Event)
    ensures CancelAhead(front + [last]) <==> last == Cancel || (CancelAhead(front) && last != Resume)
  {
    var all := front + [last];
    if last == Cancel {
      assert all[|front|] == Cancel && all[|front|..] == [Cancel];
    } else if CancelAhead(front) {
      var i :| 0 <= i < |front| && front[i] == Cancel && Resume !in front[i..];
      assert all[i] == Cancel && all[i..] == front[i..] + [last];
    }
    if CancelAhead(all) && last != Cancel {
      var i :| 0 <= i < |all| && all[i] == Cancel && Resume !in all[i..];
      assert all[i..] == front[i..] + [last];
      assert front[i] == Cancel;
    }
  }

  lemma ApartStep(front: seq<Event>, last: Event)
    ensures CancelsApart(front + [last]) <==> CancelsApart(front) && !(last == Cancel && CancelAhead(front))
  {
    var all := front + [last];
    forall i, j | 0 <= i < j < |front| ensures all[i..j] == front[i..j] {
    }
    if last == Cancel && CancelAhead(front) {
      var i :| 0 <= i < |front| && front[i] == Cancel && Resume !in front[i..];
      assert all[i] == Cancel && all[|front|] == Cancel && all[i..|front|] == front[i..];
    }
    if CancelsApart(all) {
      forall i, j | 0 <= i < j < |front| && front[i] == Cancel && front[j] == Cancel ensures Resume in front[i..j] {
        assert all[i] == Cancel && all[j] == Cancel;
      }
    }
    if CancelsApart(front) && !(last == Cancel && CancelAhead(front)) {
      forall i, j | 0 <= i < j < |all| && all[i] == Cancel && all[j] == Cancel ensures Resume in all[i..j] {
        if j == |front| {
          assert all[i..j] == front[i..] && front[i] == Cancel;
        } else {
          assert front[i] == Cancel && front[j] == Cancel;
        }
      }
    }
  }

  lemma ThrownStep(front: seq<Event>, last: Event)
    ensures CancelThrown(front + [last]) <==> CancelThrown(front) || (last == Resume && Cancel in front)
  {
    var all := front + [last];
    if CancelThrown(front) {
      var i, j :| 0 <= i < j < |front| && front[i] == Cancel && front[j] == Resume;
      assert all[i] == Cancel && all[j] == Resume;
    }
    if last == Resume && Cancel in front {
      var i :| 0 <= i < |front| && front[i] == Cancel;
      assert all[i] == Cancel && all[|front|] == Resume;
    }
    if CancelThrown(all) {
      var i, j :| 0 <= i < j < |all| && all[i] == Cancel && all[j] == Resume;
      assert front[i] == Cancel;
    }
  }

  lemma {:induction false} CancelledOrAhead(events: seq<Event>)
    ensures Cancel in events <==> CancelThrown(events) || CancelAhead(events)
  {
    if events != [] {
      var front, last := events[..|events| - 1], events[|events| - 1];
      CancelledOrAhead(front);
      assert events == front + [last];
      AheadStep(front, last);
      ThrownStep(front, last);
    }
  }

  lemma NothingYet()
    ensures !CancelAhead([]) && CancelsApart([]) && !CancelThrown([])
  {
  }

  lemma FlagsStep(s: Guarded, ev: Event)
    requires Step(s, ev).pc.Awaiting?
    ensures var t := Step(s, ev);
            && s.pc.Awaiting?
            && (t.due <==> ev == Cancel || (s.due && ev != Resume))
            && (t.coalesced == 0 <==> s.coalesced == 0 && !(ev == Cancel && s.due))
            && (t.flag <==> s.flag || (ev == Resume && s.due))
  {
  }

  /** Until the function exits, its flags say what came when. */
  lemma {:induction false} ShowsSchedule(requested: nat, events: seq<Event>)
    requires Run(requested, events).pc.Awaiting?
    ensures var s := Run(requested, events);
            && (s.due <==> CancelAhead(events))
            && (s.coalesced == 0 <==> CancelsApart(events))
            && (s.flag <==> CancelThrown(events))
  {
    hide CancelAhead, CancelsApart, CancelThrown, Step;
    if events == [] {
      NothingYet();
    } else {
      var front, last := events[..|events| - 1], events[|events| - 1];
      FlagsStep(Run(requested, front), last);
      ShowsSchedule(requested, front);
      assert events == front + [last];
      AheadStep(front, last);
      ApartStep(front, last);
      ThrownStep(front, last);
      CancelledOrAhead(front);
    }
  }

  /** Where the function exited: nothing after that changes it. */
  lemma {:induction false} ExitsOnce(requested: nat, events: seq<Event>) returns (k: nat)
    requires Run(requested, events).pc.Exited?
    ensures k < |events| && events[k] == Resume && Run(requested, events[..k]).pc.Awaiting?
    ensures Run(requested, events) == Run(requested, events[..k + 1]) == Step(Run(requested, events[..k]), Resume)
    ensures var s, t := Run(requested, events[..k]), Run(requested, events);
            (s.work, s.coalesced, s.calls) == (t.work, t.coalesced, t.calls)
  {
    var front := events[..|events| - 1];
    if Run(requested, front).pc.Exited? {
      k := ExitsOnce(requested, front);
      assert front[..k] == events[..k] && front[..k + 1] == events[..k + 1];
    } else {
      k := |events| - 1;
      assert events[..k + 1] == events;
    }
  }

  /** The cancels thrown into it are exactly the ones it releases if the change
      ran, and none is released if it never started. So its count is
      back where it was, after a change that ran, exactly when it resumed, at `k`
      for good, between any two cancels. */
  lemma {:induction false} CancelsReleased(requested: nat, events: seq<Event>) returns (k: nat)
    requires Run(requested, events).pc.Exited?
    ensures k < |events| && events[k] == Resume
    ensures Run(requested, events[..k]).pc.Awaiting? && Run(requested, events[..k + 1]).pc.Exited?
    ensures var s := Run(requested, events);
            && s.calls - (s.requested - requested) == (if s.work.Ran? then s.thrown else 0)
            && (s.work.Ran? ==> (s.requested == requested <==> CancelsApart(events[..k])))
  {
    RunInvariant(requested, events);
    k := ExitsOnce(requested, events);
    ShowsSchedule(requested, events[..k]);
  }

  /** A change runs exactly if a thread picked it up before any cancel was thrown
      in; one picked up later never starts. */
  lemma {:induction false} RunsIffPickedUpFirst(requested: nat, events: seq<Event>, k: nat)
    requires k < |events| && events[k] == PickUp && PickUp !in events[..k]
    ensures var s := Run(requested, events);
            if CancelThrown(events[..k]) then s.work.Skipping? || s.work.NeverRan? else s.work.Running? || s.work.Ran?
    decreases |events|
  {
    var front, last := events[..|events| - 1], events[|events| - 1];
    if k < |front| {
      assert front[..k] == events[..k];
      RunsIffPickedUpFirst(requested, front, k);
    } else {
      StaysQueued(requested, front);
      ShowsSchedule(requested, front);
    }
  }

  lemma {:induction false} StaysQueued(requested: nat, events: seq<Event>)
    requires PickUp !in events
    ensures Run(requested, events).work.Queued? && Run(requested, events).pc.Awaiting?
  {
    if events != [] {
      StaysQueued(requested, events[..|events| - 1]);
    }
  }

  /** A thread took the job, it ended after that, and the coroutine resumed
      after that. */
  ghost predicate WorkSeen(events: seq<Event>) {
    exists i, j, k :: 0 <= i < j < k < |events|
      && events[i] == PickUp && events[j].ThreadEnds? && events[k] == Resume
  }

  /** A thread took the job and it ended after that. */
  ghost predicate WorkEnded(events: seq<Event>) {
    exists i, j :: 0 <= i < j < |events| && events[i] == PickUp && events[j].ThreadEnds?
  }

  lemma EndedStep(front: seq<Event>, last: Event)
    ensures WorkEnded(front + [last]) <==> WorkEnded(front) || (last.ThreadEnds? && PickUp in front)
  {
    var all := front + [last];
    if WorkEnded(front) {
      var i, j :| 0 <= i < j < |front| && front[i] == PickUp && front[j].ThreadEnds?;
      assert all[i] == PickUp && all[j].ThreadEnds?;
    }
    if last.ThreadEnds? && PickUp in front {
      var i :| 0 <= i < |front| && front[i] == PickUp;
      assert all[i] == PickUp && all[|front|].ThreadEnds?;
    }
    if WorkEnded(all) {
      var i, j :| 0 <= i < j < |all| && all[i] == PickUp && all[j].ThreadEnds?;
      assert front[i] == PickUp;
      assert j < |front| ==> front[j].ThreadEnds?;
    }
  }

  lemma SeenStep(front: seq<Event>, last: Event)
    ensures WorkSeen(front + [last]) <==> WorkSeen(front) || (last == Resume && WorkEnded(front))
  {
    var all := front + [last];
    if WorkSeen(front) {
      var i, j, k :| 0 <= i < j < k < |front| && front[i] == PickUp && front[j].ThreadEnds? && front[k] == Resume;
      assert all[i] == PickUp && all[j].ThreadEnds? && all[k] == Resume;
    }
    if last == Resume && WorkEnded(front) {
      var i, j :| 0 <= i < j < |front| && front[i] == PickUp && front[j].ThreadEnds?;
      assert all[i] == PickUp && all[j].ThreadEnds? && all[|front|] == Resume;
    }
    if WorkSeen(all) {
      var i, j, k :| 0 <= i < j < k < |all| && all[i] == PickUp && all[j].ThreadEnds? && all[k] == Resume;
      assert front[i] == PickUp && front[j].ThreadEnds?;
      assert k < |front| ==> front[k] == Resume;
    }
  }

  lemma NothingSeen()
    ensures !WorkEnded([]) && !WorkSeen([])
  {
  }

  lemma WorkStep(s: Guarded, ev: Event)
    ensures var t := Step(s, ev);
            && (t.work.Queued? <==> s.work.Queued? && ev != PickUp)
            && (Finished(t.work) <==> Finished(s.work) || (!s.work.Queued? && ev.ThreadEnds?))
            && (t.pc.Exited? <==> s.pc.Exited? || (ev == Resume && Finished(s.work)))
  {
  }

  /** The function exits exactly if the job was taken and ended and the coroutine
      resumed after that, however many cancels came. */
  lemma {:induction false} ExitsIff(requested: nat, events: seq<Event>)
    ensures var s := Run(requested, events);
            && (s.pc.Exited? <==> WorkSeen(events))
            && (Finished(s.work) <==> WorkEnded(events))
            && (s.work.Queued? <==> PickUp !in events)
  {
    hide Step, WorkSeen, WorkEnded;
    if events == [] {
      NothingSeen();
    } else {
      var front, last := events[..|events| - 1], events[|events| - 1];
      ExitsIff(requested, front);
      WorkStep(Run(requested, front), last);
      assert events == front + [last];
      EndedStep(front, last);
      SeenStep(front, last);
    }
  }

  /** What the change did is what its thread said when it first ended after the
      job was taken. */
  lemma {:induction false} OutcomeIsTheThreads(requested: nat, events: seq<Event>, j: nat, change: Change)
    requires j < |events| && events[j] == ThreadEnds(change)
    requires PickUp in events[..j] && !WorkEnded(events[..j])
    ensures var s := Run(requested, events);
            && Finished(s.work) && (s.work.Ran? ==> s.work.change == change)
            && (s.pc.Exited? && s.pc.exit.Outcome? ==> s.pc.exit.change == change)
    decreases |events|
  {
    var front, last := events[..|events| - 1], events[|events| - 1];
    RunInvariant(requested, events);
    if j < |front| {
      assert front[..j] == events[..j];
      OutcomeIsTheThreads(requested, front, j, change);
    } else {
      ExitsIff(requested, front);
    }
  }

  /** Two cancels in one turn of the event loop leave one counted. */
  lemma CoalescedCancelStaysCounted(requested: nat)
    ensures var s := Run(requested, [PickUp, Cancel, Cancel, ThreadEnds(Ok), Resume]);
            s.pc == Exited(Outcome(Ok)) && s.requested == requested + 1
  {
    var e := [PickUp, Cancel, Cancel, ThreadEnds(Ok), Resume];
    assert e[..4] == [PickUp, Cancel, Cancel, ThreadEnds(Ok)];
    assert e[..4][..3] == [PickUp, Cancel, Cancel];
    assert [PickUp, Cancel, Cancel][..2] == [PickUp, Cancel];
    assert [PickUp, Cancel][..1] == [PickUp];
    assert [PickUp][..0] == [];
    assert Run(requested, [PickUp]) == Step(Run(requested, []), PickUp);
    assert Run(requested, [PickUp, Cancel]) == Step(Run(requested, [PickUp]), Cancel);
    assert Run(requested, [PickUp, Cancel, Cancel]) == Step(Run(requested, [PickUp, Cancel]), Cancel);
    assert Run(requested, e[..4]) == Step(Run(requested, [PickUp, Cancel, Cancel]), ThreadEnds(Ok));
  }

  // ---- _finish_then_cancel ----

  // The audit write it drives to its end, whether that returns or raises, and
  // how it leaves.
  datatype Finish = Finish(over: bool, flag: bool, due: bool, left: bool, cancelled: bool)

  const StartWrite := Finish(false, false, false, false, false)

  function FinishStep(f: Finish, ev: Event): Finish {
    match ev
    case ThreadEnds(_) => f.(over := true)
    case Cancel => if f.left then f else f.(due := true)
    case Resume =>
      if f.left then f
      else
        var t := if f.due then f.(due := false, flag := true) else f;
        if t.over then t.(left := true, cancelled := t.flag) else t
    case PickUp => f
  }

  function RunFinish(events: seq<Event>): Finish {
    if events == [] then StartWrite else FinishStep(RunFinish(events[..|events| - 1]), events[|events| - 1])
  }

  lemma {:induction false} FinishRemembers(events: seq<Event>)
    ensures var f := RunFinish(events);
            !f.left ==> !f.cancelled && (f.flag || f.due <==> Cancel in events)
  {
    if events != [] {
      var front, last := events[..|events| - 1], events[|events| - 1];
      FinishRemembers(front);
      assert events == front + [last];
    }
  }

  /** It leaves only once the write is over, where it resumes; and it
      then goes on with a cancellation exactly when one came before that. */
  lemma {:induction false} LeavesWrittenThenCancels(events: seq<Event>) returns (k: nat)
    requires RunFinish(events).left
    ensures k < |events| && events[k] == Resume
    ensures !RunFinish(events[..k]).left && RunFinish(events[..k]).over && RunFinish(events).over
    ensures RunFinish(events).cancelled <==> Cancel in events[..k]
  {
    var front := events[..|events| - 1];
    if RunFinish(front).left {
      k := LeavesWrittenThenCancels(front);
      assert front[..k] == events[..k];
    } else {
      k := |events| - 1;
      FinishRemembers(front);
    }
  }

  /** The write was over and the coroutine resumed after that. */
  ghost predicate WriteSeen(events: seq<Event>) {
    exists i, j :: 0 <= i < j < |events| && events[i].ThreadEnds? && events[j] == Resume
  }

  ghost predicate WriteOver(events: seq<Event>) {
    exists i :: 0 <= i < |events| && events[i].ThreadEnds?
  }

  lemma WriteSeenStep(front: seq<Event>, last: Event)
    ensures WriteSeen(front + [last]) <==> WriteSeen(front) || (last == Resume && WriteOver(front))
    ensures WriteOver(front + [last]) <==> WriteOver(front) || last.ThreadEnds?
  {
    var all := front + [last];
    if WriteSeen(front) {
      var i, j :| 0 <= i < j < |front| && front[i].ThreadEnds? && front[j] == Resume;
      assert all[i].ThreadEnds? && all[j] == Resume;
    }
    if WriteOver(front) {
      var i :| 0 <= i < |front| && front[i].ThreadEnds?;
      assert all[i].ThreadEnds? && all[|front|] == last;
    }
    assert all[|front|] == last;
    if WriteSeen(all) {
      var i, j :| 0 <= i < j < |all| && all[i].ThreadEnds? && all[j] == Resume;
      assert front[i].ThreadEnds?;
      assert j < |front| ==> front[j] == Resume;
    }
    if WriteOver(all) && !last.ThreadEnds? {
      var i :| 0 <= i < |all| && all[i].ThreadEnds?;
      assert front[i].ThreadEnds?;
    }
  }

  lemma NothingWritten()
    ensures !WriteSeen([]) && !WriteOver([])
  {
  }

  lemma OverStep(f: Finish, ev: Event)
    ensures var t := FinishStep(f, ev);
            && (t.over <==> f.over || ev.ThreadEnds?)
            && (t.left <==> f.left || (ev == Resume && f.over))
  {
  }

  /** It leaves exactly if the write was over and it resumed after that. */
  lemma {:induction false} LeavesIff(events: seq<Event>)
    ensures RunFinish(events).left <==> WriteSeen(events)
    ensures RunFinish(events).over <==> WriteOver(events)
  {
    hide FinishStep, WriteSeen, WriteOver;
    if events == [] {
      NothingWritten();
    } else {
      var front, last := events[..|events| - 1], events[|events| - 1];
      LeavesIff(front);
      OverStep(RunFinish(front), last);
      assert events == front + [last];
      WriteSeenStep(front, last);
    }
  }

  // ---- a file handler ----

  // FILE_WRITE, FILE_DELETE and FILE_MOVE alike: the change, then its record.
  // `audits` counts the records started, and `cancelled` says that a cancellation
  // went on from there. A change the jail refused is reported by a plain await,
  // which a cancel can cut.
  datatype Handler =
    | Changing(g: Guarded, audits: nat)
    | Recording(change: Change, f: Finish, audits: nat)
    | Ended(work: Work, audits: nat, driven: bool, cancelled: bool)

  function Audited(change: Change): bool {
    change.Ok? || change.OsError?
  }

  function HandlerStep(h: Handler, ev: Event): Handler {
    match h
    case Changing(g, audits) =>
      var t := Step(g, ev);
      if t.pc.Awaiting? then Changing(t, audits)
      else (match t.pc.exit
            case Outcome(change) =>
              if Audited(change) then Recording(change, StartWrite, audits + 1)
              else Ended(t.work, audits, false, false)
            case Cancelled => Ended(t.work, audits, false, true))
    case Recording(change, f, audits) =>
      var t := FinishStep(f, ev);
      if t.left then Ended(Ran(change), audits, t.over, t.cancelled) else Recording(change, t, audits)
    case Ended(_, _, _, _) => h
  }

  function Handle(requested: nat, events: seq<Event>): Handler {
    if events == [] then Changing(Enter(requested), 0)
    else HandlerStep(Handle(requested, events[..|events| - 1]), events[|events| - 1])
  }

  ghost predicate HandlerOk(h: Handler, requested: nat) {
    match h
    case Changing(g, audits) => audits == 0 && Invariant(g, requested) && g.pc.Awaiting?
    case Recording(change, f, audits) => Audited(change) && audits == 1 && !f.left
    case Ended(work, audits, driven, cancelled) =>
      && Finished(work)
      && audits == (if work.Ran? && Audited(work.change) then 1 else 0)
      && (driven <==> audits == 1)
  }

  lemma {:induction false} HandleOk(requested: nat, events: seq<Event>)
    ensures HandlerOk(Handle(requested, events), requested)
  {
    if events != [] {
      var before := Handle(requested, events[..|events| - 1]);
      HandleOk(requested, events[..|events| - 1]);
      if before.Changing? {
        StepInvariant(before.g, events[|events| - 1], requested);
      }
    }
  }

  /** However cancels land, a handler ends only when its change is over, and by
      then the audit write of a change that succeeded or failed with OSError was
      started once and driven to its end. A change that never started has none;
      nor has one that the jail refused, or that raised what no handler expects,
      though it may have run. */
  lemma {:induction false} ChangeThatRanIsRecorded(requested: nat, events: seq<Event>)
    requires Handle(requested, events).Ended?
    ensures var h := Handle(requested, events);
            && Finished(h.work)
            && (h.driven <==> h.work.Ran? && (h.work.change.Ok? || h.work.change.OsError?))
            && h.audits == (if h.driven then 1 else 0)
  {
    HandleOk(requested, events);
  }

  lemma HandleMore(requested: nat, events: seq<Event>, ev: Event)
    ensures Handle(requested, events + [ev]) == HandlerStep(Handle(requested, events), ev)
  {
    assert (events + [ev])[..|events|] == events;
  }

  /** Until its change has ended the handler is where _run_to_completion is. */
  lemma {:induction false} ChangesFirst(requested: nat, events: seq<Event>)
    ensures Run(requested, events).pc.Awaiting? ==> Handle(requested, events) == Changing(Run(requested, events), 0)
    ensures Handle(requested, events).Changing? ==> Run(requested, events).pc.Awaiting?
  {
    if events != [] {
      ChangesFirst(requested, events[..|events| - 1]);
    }
  }

  ghost predicate RecordDue(work: Work) {
    work.Ran? && (work.change.Ok? || work.change.OsError?)
  }

  /** From the event on that ended the change, what comes is for its record. */
  lemma {:induction false} RecordsThen(requested: nat, events: seq<Event>, more: seq<Event>)
    requires Run(requested, events).pc.Awaiting? && Run(requested, events + [Resume]).pc.Exited?
    ensures var g, f := Run(requested, events + [Resume]), RunFinish(more);
            && Finished(g.work)
            && Handle(requested, events + [Resume] + more) ==
               if !RecordDue(g.work) then Ended(g.work, 0, false, g.work.NeverRan?)
               else if f.left then Ended(g.work, 1, true, f.cancelled)
               else Recording(g.work.change, f, 1)
    decreases |more|
  {
    var front := events + [Resume];
    RunInvariant(requested, front);
    if more == [] {
      ChangesFirst(requested, events);
      HandleMore(requested, events, Resume);
      assert front[..|events|] == events;
      assert front + more == front;
    } else {
      var last := |more| - 1;
      RecordsThen(requested, events, more[..last]);
      assert front + more == front + more[..last] + [more[last]];
      HandleMore(requested, front + more[..last], more[last]);
      if RunFinish(more).left && !RunFinish(more[..last]).left {
        assert RunFinish(more).over;
      }
    }
  }

  /** A cancel came before it resumed on a write that was over. */
  ghost predicate CancelledWriting(events: seq<Event>) {
    exists m: nat :: m < |events| && WriteSeen(events[..m + 1]) && !WriteSeen(events[..m]) && Cancel in events[..m]
  }

  lemma SeenStays(events: seq<Event>, m: nat, n: nat)
    requires m <= n <= |events| && WriteSeen(events[..m])
    ensures WriteSeen(events[..n])
  {
    var i, j :| 0 <= i < j < m && events[..m][i].ThreadEnds? && events[..m][j] == Resume;
    assert events[..n][i].ThreadEnds? && events[..n][j] == Resume;
  }

  lemma LeftCancelled(events: seq<Event>)
    requires RunFinish(events).left
    ensures RunFinish(events).cancelled <==> CancelledWriting(events)
  {
    hide WriteSeen, FinishStep, RunFinish;
    var k := LeavesWrittenThenCancels(events);
    LeavesIff(events[..k]);
    assert events[..k + 1] == events[..k] + [Resume];
    WriteSeenStep(events[..k], Resume);
    LeavesIff(events[..k]);
    forall m: nat | m < |events| && WriteSeen(events[..m + 1]) && !WriteSeen(events[..m]) ensures m == k {
      if m < k {
        SeenStays(events, m + 1, k);
      } else if k < m {
        SeenStays(events, k + 1, m);
      }
    }
  }

  lemma {:induction false} FirstSeen(requested: nat, events: seq<Event>) returns (k: nat)
    requires WorkSeen(events)
    ensures k < |events| && events[k] == Resume && WorkSeen(events[..k] + [Resume]) && !WorkSeen(events[..k])
    ensures Run(requested, events[..k]).pc.Awaiting? && Run(requested, events[..k] + [Resume]).pc.Exited?
    ensures Run(requested, events) == Run(requested, events[..k] + [Resume])
  {
    hide WorkSeen, WorkEnded, Step;
    ExitsIff(requested, events);
    k := ExitsOnce(requested, events);
    assert events[..k + 1] == events[..k] + [Resume];
    ExitsIff(requested, events[..k]);
    ExitsIff(requested, events[..k] + [Resume]);
  }

  /** The handler ends exactly if its change ended and the coroutine resumed,
      at `k` first, and, where a record is due, the write of it was over and the
      coroutine resumed once more, all after that. It then goes on with a
      cancellation exactly if the change never started, or a cancel came while
      the record was being written. */
  lemma {:induction false} HandlerEndsIff(requested: nat, events: seq<Event>) returns (k: nat)
    requires WorkSeen(events)
    ensures k < |events| && events[k] == Resume && WorkSeen(events[..k] + [Resume]) && !WorkSeen(events[..k])
    ensures var h, work, more := Handle(requested, events), Run(requested, events).work, events[k + 1..];
            && (h.Ended? <==> !RecordDue(work) || WriteSeen(more))
            && (h.Ended? ==> h.work == work)
            && (h.Ended? ==> (h.cancelled <==> work.NeverRan? || (RecordDue(work) && CancelledWriting(more))))
  {
    hide WorkSeen, WriteSeen, CancelledWriting, Run, Handle, RunFinish;
    k := FirstSeen(requested, events);
    var more := events[k + 1..];
    assert events == events[..k] + [Resume] + more;
    RecordsThen(requested, events[..k], more);
    LeavesIff(more);
    if RunFinish(more).left {
      LeftCancelled(more);
    }
  }

  /** And before that it has not ended. */
  lemma {:induction false} NotBefore(requested: nat, events: seq<Event>)
    requires !WorkSeen(events)
    ensures Handle(requested, events).Changing?
  {
    ExitsIff(requested, events);
    ChangesFirst(requested, events);
  }

  /** A change with no cancel and nothing in its way is recorded and answered. */
  lemma UndisturbedIsAnswered(requested: nat, change: Change)
    requires change.Ok? || change.OsError?
    ensures Handle(requested, [PickUp, ThreadEnds(change), Resume, ThreadEnds(Ok), Resume]) ==
            Ended(Ran(change), 1, true, false)
  {
    var first, more := [PickUp, ThreadEnds(change)], [ThreadEnds(Ok), Resume];
    assert first + [Resume] + more == [PickUp, ThreadEnds(change), Resume, ThreadEnds(Ok), Resume];
    assert first[..1] == [PickUp] && [PickUp][..0] == [] && (first + [Resume])[..2] == first;
    assert Run(requested, [PickUp]) == Step(Enter(requested), PickUp);
    assert Run(requested, first) == Step(Run(requested, [PickUp]), ThreadEnds(change));
    assert more[..1] == [ThreadEnds(Ok)] && [ThreadEnds(Ok)][..0] == [];
    assert RunFinish([ThreadEnds(Ok)]) == FinishStep(StartWrite, ThreadEnds(Ok));
    RecordsThen(requested, first, more);
  }

  /** Such a change, with no record driven for it. */
  lemma ChangeWithoutRecord(requested: nat, change: Change)
    requires change.JailError? || change.OtherError?
    ensures Handle(requested, [PickUp, ThreadEnds(change), Resume]) == Ended(Ran(change), 0, false, false)
  {
    var events := [PickUp, ThreadEnds(change), Resume];
    assert events[..2] == [PickUp, ThreadEnds(change)] && events[..2][..1] == [PickUp] && [PickUp][..0] == [];
    assert Handle(requested, [PickUp]) == HandlerStep(Changing(Enter(requested), 0), PickUp);
    assert Handle(requested, events[..2]) == HandlerStep(Handle(requested, [PickUp]), ThreadEnds(change));
  }
}
