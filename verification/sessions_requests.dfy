/** What a handler does is what its request asked for. */
module SessionsRequests {
  import opened Wrappers
  import opened BindingTables
  import opened Sessions
  import opened SessionsInvariant
  import opened SessionsRuns

  predicate StopServes(next: Then, request: Request) {
    match next
    case Replacing(b, _) => request == Restore(b)
    case RollingBack(b, _, _) => request == Activate(b.revision) || request == Restore(b)
    case Detaching => request == Detach
    case Reaping(chosen) => request == Reap(chosen)
  }

  /** Where a handler may stand that came with this request: an activate works
      on a binding of the revision it names, a restore on the binding its grant
      claims, a reap on the child it was told of. */
  predicate Serves(pc: Pc, request: Request) {
    match pc
    case Waiting(r) => r == request
    case Resolving => request == Attach
    case Issuing(_, _) => request == Attach
    case Attaching(_) => request == Attach
    case Verifying(b) => request == Activate(b.revision)
    case RestoreVerifying(claimed) => request == Restore(claimed)
    case Starting(b, _, _) => request == Activate(b.revision) || request == Restore(b)
    case Auditing(b, _, _, _) => request == Activate(b.revision) || request == Restore(b)
    case StopQueued(next) => StopServes(next, request)
    case Stopping(_, next) => StopServes(next, request)
    case Restarting(_) => request.Activate? || request.Restore?
    case DetachAuditing => request == Detach
    case ReapAuditing(chosen) => request == Reap(chosen)
    case Closing(_) => true
  }

  ghost predicate StillServes(t: State, h: nat, request: Request) {
    h in t.handlers && Serves(t.handlers[h].pc, request)
  }

  lemma RollBackServes(s: State, h: nat, previous: Option<Binding>, restart: bool, request: Request)
    requires h in s.handlers && (request.Activate? || request.Restore?)
    ensures StillServes(RollBack(s, h, previous, restart), h, request)
  {
    hide Remembered;
    if previous.Some? {
      SameHandlers(s, previous.value);
    }
  }

  lemma FailServes(s: State, h: nat, b: Binding, previous: Option<Binding>, started: bool, replaced: bool, request: Request)
    requires h in s.handlers && (request == Activate(b.revision) || request == Restore(b))
    ensures StillServes(Fail(s, h, b, previous, started, replaced), h, request)
  {
    hide RollBack;
    RollBackServes(s, h, previous, replaced, request);
  }

  lemma AfterStopServes(s: State, h: nat, next: Then, request: Request)
    requires h in s.handlers && StopServes(next, request)
    ensures StillServes(AfterStop(s, h, next), h, request)
  {
    hide Remembered, RollBack;
    match next
    case Replacing(b, _) => SameHandlers(s, b);
    case RollingBack(_, previous, restart) => RollBackServes(s, h, previous, restart, request);
    case _ =>
  }

  lemma RestoreServes(s: State, h: nat, grant: Binding)
    requires h in s.handlers
    ensures StillServes(DoRestore(s, h, grant), h, Restore(grant))
  {
    hide Remembered;
    SameHandlers(s, grant);
  }

  lemma ProceedServes(s: State, h: nat, ok: bool, text: string, grant: string, request: Request)
    requires h in s.handlers && Serves(s.handlers[h].pc, request)
    ensures StillServes(DoProceed(s, h, ok, text, grant), h, request)
  {
    hide Remembered, AfterStop, Fail, DoRestore;
    match s.handlers[h].pc
    case Attaching(b) => SameHandlers(s, b);
    case Verifying(b) => SameHandlers(s, b);
    case RestoreVerifying(claimed) => RestoreServes(s, h, claimed);
    case Auditing(b, previous, started, replaced) => FailServes(s, h, b, previous, started, replaced, request);
    case Stopping(child, next) =>
      AfterStopServes(s.(alive := s.alive - {child.id}, childrenLock := None), h, next, request);
    case _ =>
  }

  lemma TakeServes(s: State, h: nat, ok: bool, request: Request)
    requires h in s.handlers && Serves(s.handlers[h].pc, request)
    ensures StillServes(DoTakeChildrenLock(s, h, ok), h, request)
  {
    hide AfterStop, Fail;
    match s.handlers[h].pc
    case Starting(b, previous, replaced) => FailServes(s, h, b, previous, true, replaced, request);
    case StopQueued(next) => AfterStopServes(s, h, next, request);
    case _ =>
  }

  lemma AcquireServes(s: State, h: nat, available: bool)
    requires h in s.handlers && s.handlers[h].pc.Waiting? && s.handlers[h].session in s.locks
    ensures StillServes(DoAcquire(s, h, available), h, s.handlers[h].pc.request)
  {
  }

  /** A step of one handler moves that one and no other. */
  ghost predicate OneMoves(s: State, t: State, h: nat) {
    && h in s.handlers && h in t.handlers
    && t.handlers == s.handlers[h := s.handlers[h].(pc := t.handlers[h].pc)]
  }

  lemma AfterStopMoves(s: State, h: nat, next: Then)
    requires h in s.handlers
    ensures OneMoves(s, AfterStop(s, h, next), h)
  {
    hide Remembered;
    match next
    case Replacing(b, _) => SameHandlers(s, b);
    case RollingBack(_, previous, _) =>
      if previous.Some? {
        SameHandlers(s, previous.value);
      }
    case _ =>
  }

  lemma ProceedMoves(s: State, h: nat, ok: bool, text: string, grant: string)
    requires h in s.handlers
    ensures OneMoves(s, DoProceed(s, h, ok, text, grant), h)
  {
    hide Remembered, AfterStop;
    match s.handlers[h].pc
    case Attaching(b) => SameHandlers(s, b);
    case Verifying(b) => SameHandlers(s, b);
    case RestoreVerifying(claimed) => SameHandlers(s, claimed);
    case Auditing(_, previous, _, _) =>
      if previous.Some? {
        SameHandlers(s, previous.value);
      }
    case Stopping(child, next) => AfterStopMoves(s.(alive := s.alive - {child.id}, childrenLock := None), h, next);
    case _ =>
  }

  lemma TakeMoves(s: State, h: nat, ok: bool)
    requires h in s.handlers
    ensures OneMoves(s, DoTakeChildrenLock(s, h, ok), h)
  {
    hide Remembered, AfterStop;
    if s.handlers[h].pc.StopQueued? {
      AfterStopMoves(s, h, s.handlers[h].pc.next);
    }
  }

  lemma StepOthers(s: State, ev: Event, k: nat)
    requires k in Step(s, ev).handlers
    ensures k in s.handlers ==> Step(s, ev).handlers[k].session == s.handlers[k].session
    ensures k !in s.handlers ==>
              ev.Arrive? && ev.h == k && Step(s, ev).handlers[k] == Handler(ev.session, Waiting(ev.request))
    ensures k in s.handlers && (ev.ChildEnds? || ev.ChildCallback? || ev.h != k) ==>
              Step(s, ev).handlers[k] == s.handlers[k]
  {
    hide DoProceed, DoTakeChildrenLock;
    match ev
    case Proceed(h, ok, text, grant) =>
      if h in s.handlers {
        ProceedMoves(s, h, ok, text, grant);
      }
    case TakeChildrenLock(h, ok) =>
      if h in s.handlers {
        TakeMoves(s, h, ok);
      }
    case _ =>
  }

  lemma StepServes(s: State, ev: Event, h: nat, request: Request)
    requires h in s.handlers && h in Step(s, ev).handlers && Serves(s.handlers[h].pc, request)
    ensures Serves(Step(s, ev).handlers[h].pc, request)
  {
    StepOthers(s, ev, h);
    hide DoProceed, DoTakeChildrenLock, DoAcquire;
    match ev
    case Acquire(k, available) =>
      if k == h && s.handlers[h].pc.Waiting? && s.handlers[h].session in s.locks {
        AcquireServes(s, h, available);
      }
    case Proceed(k, ok, text, grant) =>
      if k == h {
        ProceedServes(s, h, ok, text, grant, request);
      }
    case TakeChildrenLock(k, ok) =>
      if k == h {
        TakeServes(s, h, ok, request);
      }
    case _ =>
  }

  // ---- whole runs ----

  /** The handler came with this event and has not left since. */
  ghost predicate CameWith(events: seq<Event>, h: nat, i: nat, x: string, request: Request) {
    && i < |events| && events[i] == Arrive(h, x, request) && h !in Run(events[..i]).handlers
    && forall n | i < n <= |events| :: h in Run(events[..n]).handlers
  }

  lemma CameEarlier(events: seq<Event>, h: nat, i: nat, x: string, request: Request)
    requires events != [] && h in Run(events).handlers
    requires var front := events[..|events| - 1];
             CameWith(front, h, i, x, request)
             || (i == |front| && events[i] == Arrive(h, x, request) && h !in Run(front).handlers)
    ensures CameWith(events, h, i, x, request)
  {
    hide Run;
    var front := events[..|events| - 1];
    assert events[..|events|] == events;
    forall n | i < n <= |events| ensures h in Run(events[..n]).handlers {
      if n < |events| {
        assert front[..n] == events[..n];
      }
    }
    if i < |front| {
      assert front[..i] == events[..i];
    }
  }

  /** In every run a handler stands where its own request leads. */
  lemma {:induction false} ServesItsRequest(events: seq<Event>, h: nat) returns (i: nat, request: Request)
    requires h in Run(events).handlers
    ensures CameWith(events, h, i, Run(events).handlers[h].session, request)
    ensures Serves(Run(events).handlers[h].pc, request)
  {
    hide Step;
    var front, last := events[..|events| - 1], events[|events| - 1];
    StepOthers(Run(front), last, h);
    if h in Run(front).handlers {
      i, request := ServesItsRequest(front, h);
      StepServes(Run(front), last, h, request);
    } else {
      i, request := |front|, last.request;
    }
    CameEarlier(events, h, i, Run(events).handlers[h].session, request);
  }

  /** The reaper stops the child it chose and no other: where one is being
      stopped as idle, the handler came to reap that child. */
  lemma {:induction false} ReaperStopsTheChosen(events: seq<Event>, h: nat) returns (i: nat)
    requires IsStopping(Run(events), h) && Run(events).handlers[h].pc.next.Reaping?
    ensures var child := Run(events).handlers[h].pc.child;
            && Run(events).handlers[h].pc.next.chosen == child.id
            && CameWith(events, h, i, Run(events).handlers[h].session, Reap(child.id))
  {
    RunKeeps(events);
    SessionFacts(Run(events), h);
    var request;
    i, request := ServesItsRequest(events, h);
  }

  /** An activate goes on, as far as starting and auditing a child, only with a
      binding of the revision it names. */
  lemma {:induction false} ActivatesWhatItNames(events: seq<Event>, h: nat, i: nat, x: string, revision: nat)
    requires h in Run(events).handlers && CameWith(events, h, i, x, Activate(revision))
    ensures var pc := Run(events).handlers[h].pc;
            && (pc.Verifying? || pc.Starting? || pc.Auditing? ==> pc.b.revision == revision)
            && (pc.StopQueued? || pc.Stopping? ==> pc.next.RollingBack? && pc.next.b.revision == revision)
  {
    var j, request := ServesItsRequest(events, h);
    OneArrival(events, h, i, j);
  }

  lemma OneArrival(events: seq<Event>, h: nat, i: nat, j: nat)
    requires i < |events| && j < |events|
    requires h !in Run(events[..i]).handlers && forall n | i < n <= |events| :: h in Run(events[..n]).handlers
    requires h !in Run(events[..j]).handlers && forall n | j < n <= |events| :: h in Run(events[..n]).handlers
    ensures i == j
  {
  }
}
