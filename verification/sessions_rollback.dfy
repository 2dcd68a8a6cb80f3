/** What a failed activate or restore leaves behind. */
module SessionsRollback {
  import opened Wrappers
  import opened BindingTables
  import opened Sessions
  import opened SessionsInvariant
  import opened SessionsSteps
  import opened SessionsRuns

  /** The binding that a handler past a failure has put back. */
  function Undone(pc: Pc): Option<Option<Binding>> {
    match pc
    case Restarting(prior) => Some(Some(prior))
    case Closing(RolledBack(previous)) => Some(previous)
    case _ => None
  }

  /** The binding a handler would put back, should it fail. */
  function Found(pc: Pc): Option<Option<Binding>> {
    match pc
    case StopQueued(Replacing(_, previous)) => Some(previous)
    case StopQueued(RollingBack(_, previous, _)) => Some(previous)
    case Stopping(_, Replacing(_, previous)) => Some(previous)
    case Stopping(_, RollingBack(_, previous, _)) => Some(previous)
    case Starting(_, previous, _) => Some(previous)
    case Auditing(_, previous, _, _) => Some(previous)
    case _ => Undone(pc)
  }

  /** What the handler goes on to is putting `previous` back. */
  predicate RollsBack(pc: Pc, previous: Option<Binding>) {
    match pc
    case StopQueued(RollingBack(_, p, _)) => p == previous
    case Stopping(_, RollingBack(_, p, _)) => p == previous
    case _ => Undone(pc) == Some(previous)
  }

  /** Another session's binding took the place of x's in a full table; x has no
      live child. */
  ghost predicate Evicts(s: State, t: State, x: string) {
    PushesOut(s.bindings, t.bindings, x) && !Live(t, x)
  }

  // ---- one segment of a handler ----

  /** A step of a handler of session y leaves the table, drops y's binding or
      remembers one for y. */
  ghost predicate TableMoves(s: State, t: State, y: string) {
    || t.bindings == s.bindings
    || t.bindings == Pop(s.bindings, y)
    || exists b: Binding | b.session == y :: Remember(s.bindings, b, LiveSessions(t)) == Some(t.bindings)
  }

  /** Where a handler may go: what it would put back is what it would have put
      back before, or, once its grant is verified, what is bound then. */
  ghost predicate MayReach(s: State, h: nat, after: Pc)
    requires h in s.handlers
  {
    var pc := s.handlers[h].pc;
    || Found(after).None? || Found(after) == Found(pc)
    || ((pc.Verifying? || pc.RestoreVerifying?) && Found(after) == Some(Bd(s, s.handlers[h].session)))
  }

  ghost predicate Segment(s: State, t: State, h: nat) {
    && h in s.handlers && h in t.handlers
    && t.handlers == s.handlers[h := s.handlers[h].(pc := t.handlers[h].pc)]
    && TableMoves(s, t, s.handlers[h].session)
    && MayReach(s, h, t.handlers[h].pc)
  }

  lemma StaySegment(s: State, t: State, h: nat, pc: Pc)
    requires h in s.handlers && t.handlers == s.handlers[h := s.handlers[h].(pc := pc)]
    requires t.bindings == s.bindings || t.bindings == Pop(s.bindings, s.handlers[h].session)
    requires MayReach(s, h, pc)
    ensures Segment(s, t, h)
  {
  }

  lemma BindSegment(s: State, h: nat, b: Binding, pc: Pc)
    requires h in s.handlers && b.session == s.handlers[h].session
    requires Remembered(s, b).Some? && MayReach(s, h, pc)
    ensures Remembered(s, b).value.handlers == s.handlers
    ensures Segment(s, At(Remembered(s, b).value, h, pc), h)
  {
    var t := At(Remembered(s, b).value, h, pc);
    assert LiveSessions(t) == LiveSessions(s);
    assert Remember(s.bindings, b, LiveSessions(t)) == Some(t.bindings);
  }

  lemma RollBackSegment(s: State, h: nat, previous: Option<Binding>, restart: bool)
    requires h in s.handlers && Found(s.handlers[h].pc) == Some(previous)
    requires previous.Some? ==> previous.value.session == s.handlers[h].session
    ensures Segment(s, RollBack(s, h, previous, restart), h)
  {
    hide Remembered, Segment;
    var t := RollBack(s, h, previous, restart);
    if previous.Some? && Remembered(s, previous.value).Some? {
      BindSegment(s, h, previous.value, if restart then Restarting(previous.value) else Closing(RolledBack(previous)));
    } else {
      StaySegment(s, t, h, t.handlers[h].pc);
    }
  }

  lemma AfterStopSegment(s: State, h: nat, next: Then)
    requires h in s.handlers && Found(s.handlers[h].pc) == Found(StopQueued(next))
    requires ThenOk(s, s.handlers[h].session, next)
    ensures Segment(s, AfterStop(s, h, next), h)
  {
    hide Remembered, Segment, RollBack;
    match next
    case Replacing(b, previous) =>
      if Remembered(s, b).Some? {
        BindSegment(s, h, b, Starting(b, previous, true));
      } else {
        StaySegment(s, AfterStop(s, h, next), h, Closing(Plain));
      }
    case RollingBack(_, previous, restart) => RollBackSegment(s, h, previous, restart);
    case Detaching => StaySegment(s, AfterStop(s, h, next), h, DetachAuditing);
    case Reaping(_) => StaySegment(s, AfterStop(s, h, next), h, Closing(Plain));
  }

  lemma RestoreSegment(s: State, h: nat, grant: Binding)
    requires h in s.handlers && s.handlers[h].pc.RestoreVerifying? && grant.session == s.handlers[h].session
    ensures Segment(s, DoRestore(s, h, grant), h)
  {
    hide Remembered, Segment;
    var x := s.handlers[h].session;
    var t, current := DoRestore(s, h, grant), Bd(s, x);
    if Remembered(s, grant).Some? {
      BindSegment(s, h, grant,
                  if Live(s, x) then Auditing(grant, current, false, false) else Starting(grant, current, false));
    }
    if t.bindings == s.bindings {
      StaySegment(s, t, h, t.handlers[h].pc);
    }
  }

  lemma ProceedSegment(s: State, h: nat, ok: bool, text: string, grant: string)
    requires h in s.handlers && HandlerOk(s, h)
    ensures Segment(s, DoProceed(s, h, ok, text, grant), h)
  {
    hide Remembered, Segment, RollBack, AfterStop, DoRestore, MayReach, Found;
    var t, y := DoProceed(s, h, ok, text, grant), s.handlers[h].session;
    Reachable(s, h);
    match s.handlers[h].pc
    case Attaching(b) =>
      if ok && Remembered(s, b).Some? {
        BindSegment(s, h, b, Closing(Plain));
      } else {
        StaySegment(s, t, h, Closing(Plain));
      }
    case Verifying(b) =>
      if ok && Remembered(s, b).Some? {
        BindSegment(s, h, b, if Live(s, y) then Auditing(b, Bd(s, y), false, false) else Starting(b, Bd(s, y), false));
      } else {
        StaySegment(s, t, h, Closing(Plain));
      }
    case RestoreVerifying(claimed) =>
      if ok && claimed.session == y {
        RestoreSegment(s, h, claimed);
      } else {
        StaySegment(s, t, h, Closing(Plain));
      }
    case Auditing(b, previous, started, replaced) =>
      if !ok && !started {
        RollBackSegment(s, h, previous, replaced);
      } else {
        StaySegment(s, t, h, t.handlers[h].pc);
      }
    case Stopping(child, next) =>
      var stopped := s.(alive := s.alive - {child.id}, childrenLock := None);
      ThenSame(s, stopped, y, next);
      AfterStopSegment(stopped, h, next);
      SegmentSame(s, stopped, t, h);
    case _ => StaySegment(s, t, h, t.handlers[h].pc);
  }

  /** The places a handler may go to from where it is. */
  lemma Reachable(s: State, h: nat)
    requires h in s.handlers
    ensures MayReach(s, h, s.handlers[h].pc) && MayReach(s, h, Closing(Plain)) && forall id :: MayReach(s, h, StopQueued(Reaping(id)))
    ensures forall previous, root :: MayReach(s, h, Issuing(previous, root))
    ensures forall b :: MayReach(s, h, Attaching(b))
    ensures var pc, x := s.handlers[h].pc, s.handlers[h].session;
            && (pc.Verifying? ==>
                  forall b :: MayReach(s, h, Auditing(b, Bd(s, x), false, false)) && MayReach(s, h, Starting(b, Bd(s, x), false)))
            && (pc.Auditing? ==>
                  Found(pc) == Some(pc.previous) && MayReach(s, h, StopQueued(RollingBack(pc.b, pc.previous, pc.replaced))))
            && (pc.Stopping? ==> Found(pc) == Found(StopQueued(pc.next)))
  {
  }

  lemma SegmentSame(s: State, u: State, t: State, h: nat)
    requires Segment(u, t, h) && u == s.(alive := u.alive, childrenLock := u.childrenLock)
    ensures Segment(s, t, h)
  {
  }

  lemma ThenSame(s: State, t: State, y: string, next: Then)
    requires ThenOk(s, y, next) && t == s.(alive := t.alive, childrenLock := t.childrenLock) && t.alive <= s.alive
    ensures ThenOk(t, y, next)
  {
  }

  lemma TakeSegment(s: State, h: nat, ok: bool)
    requires h in s.handlers && HandlerOk(s, h)
    ensures Segment(s, DoTakeChildrenLock(s, h, ok), h)
  {
    hide Segment, AfterStop;
    var t := DoTakeChildrenLock(s, h, ok);
    if s.childrenLock.None? && s.handlers[h].pc.StopQueued? && s.handlers[h].session !in s.children {
      AfterStopSegment(s, h, s.handlers[h].pc.next);
    } else {
      StaySegment(s, t, h, t.handlers[h].pc);
    }
  }

  /** The handler whose segment a step is, if it is one. */
  function Actor(s: State, ev: Event): Option<nat> {
    match ev
    case Proceed(h, _, _, _) => if h in s.handlers then Some(h) else None
    case TakeChildrenLock(h, _) => if h in s.handlers then Some(h) else None
    case _ => None
  }

  lemma ActorSegment(s: State, ev: Event)
    requires Invariant(s)
    ensures Actor(s, ev).Some? ==> Segment(s, Step(s, ev), Actor(s, ev).value)
    ensures Actor(s, ev).None? ==> Step(s, ev).bindings == s.bindings
  {
    hide DoProceed, DoTakeChildrenLock, Segment, Invariant;
    match ev
    case Proceed(h, ok, text, grant) =>
      if h in s.handlers {
        SessionFacts(s, h);
        ProceedSegment(s, h, ok, text, grant);
      }
    case TakeChildrenLock(h, ok) =>
      if h in s.handlers {
        SessionFacts(s, h);
        TakeSegment(s, h, ok);
      }
    case _ =>
  }

  /** What any step makes of one handler. */
  lemma HandlerStep(s: State, ev: Event, h: nat)
    requires Invariant(s) && h in Step(s, ev).handlers
    ensures h !in s.handlers ==> Step(s, ev).handlers[h].pc.Waiting?
    ensures h in s.handlers ==> Step(s, ev).handlers[h].session == s.handlers[h].session
    ensures h in s.handlers && Actor(s, ev) == Some(h) ==> MayReach(s, h, Step(s, ev).handlers[h].pc)
    ensures h in s.handlers && Actor(s, ev) != Some(h) ==>
              var pc, after := s.handlers[h].pc, Step(s, ev).handlers[h].pc;
              after == pc || after == Closing(Cancelled) || (pc.Waiting? && Found(after).None?)
  {
    hide DoProceed, DoTakeChildrenLock, Invariant, MayReach, TableMoves;
    ActorSegment(s, ev);
  }

  /** A step of another session's handler leaves x's binding or evicts it. */
  lemma OthersKeepOrEvict(s: State, t: State, y: string, x: string)
    requires TableOk(s) && TableMoves(s, t, y) && |LiveSessions(t)| <= MAX_ACTIVE_CHILD_SESSIONS && x != y
    ensures Bd(t, x) == Bd(s, x) || Evicts(s, t, x)
  {
    PopBound(s.bindings, y, x);
    if t.bindings != s.bindings && t.bindings != Pop(s.bindings, y) {
      var b: Binding :| b.session == y && Remember(s.bindings, b, LiveSessions(t)) == Some(t.bindings);
      RememberKeepsOrPushesOut(s.bindings, b, LiveSessions(t), x);
    }
  }

  // ---- how a failure is undone ----

  /** From where it stands a failing handler goes on to roll back, and does so
      until it has; where it has just rolled back, its session has exactly the
      binding it found. */
  ghost predicate RollsOn(s: State, t: State, h: nat) {
    && h in s.handlers && h in t.handlers
    && var pc, after := s.handlers[h].pc, t.handlers[h].pc;
       && (forall previous | RollsBack(pc, previous) :: RollsBack(after, previous))
       && (Undone(after).Some? ==> Undone(pc).Some? || Bd(t, s.handlers[h].session) == Undone(after).value)
  }

  lemma RollBackReaches(s: State, h: nat, b: Binding, previous: Option<Binding>, restart: bool)
    requires Invariant(s) && h in s.handlers
    requires !s.handlers[h].pc.Waiting? && !s.handlers[h].pc.Stopping?
    requires var x := s.handlers[h].session;
             && Undoes(s, x, previous)
             && (Live(s, x) ==> !restart && previous == Some(b) && RunsOn(s, x, b))
    ensures var t := RollBack(s, h, previous, restart);
            h in t.handlers && Undone(t.handlers[h].pc) == Some(previous) && Bd(t, s.handlers[h].session) == previous
  {
    hide Remembered, Invariant, Acted;
    RollBackKeeps(s, h, b, previous, restart);
    if previous.Some? {
      AlwaysRemembered(s, previous.value);
      BindSegment(s, h, previous.value, s.handlers[h].pc);
    }
  }

  lemma AlwaysRemembered(s: State, b: Binding)
    requires Invariant(s)
    ensures Remembered(s, b).Some?
  {
    hide Remembered, SessionOk, LocksOk;
    InvariantPast(s);
    RememberedEffect(s, b);
  }

  lemma AfterStopRolls(s: State, h: nat, next: Then)
    requires Invariant(s) && h in s.handlers && s.handlers[h].pc == StopQueued(next)
    requires !Live(s, s.handlers[h].session)
    ensures RollsOn(s, AfterStop(s, h, next), h)
  {
    hide Remembered, RollBack, Invariant, SessionOk;
    SessionFacts(s, h);
    match next
    case RollingBack(b, previous, restart) => RollBackReaches(s, h, b, previous, restart);
    case Replacing(b, _) => AlwaysRemembered(s, b); BindSegment(s, h, b, s.handlers[h].pc);
    case _ =>
  }

  lemma StoppedRolls(s: State, h: nat, ok: bool, text: string, grant: string)
    requires Invariant(s) && IsStopping(s, h)
    ensures RollsOn(s, DoProceed(s, h, ok, text, grant), h)
  {
    hide Invariant, Acted, AfterStop, DoProceed;
    var next := s.handlers[h].pc.next;
    StopEnds(s, h);
    ActedKeeps(s, Stopped(s, h), h);
    AfterStopSame(s, h);
    AfterStopRolls(Stopped(s, h), h, next);
  }

  lemma AuditedRolls(s: State, h: nat, ok: bool, text: string, grant: string)
    requires Invariant(s) && h in s.handlers && s.handlers[h].pc.Auditing?
    ensures RollsOn(s, DoProceed(s, h, ok, text, grant), h)
    ensures !ok ==> RollsBack(DoProceed(s, h, ok, text, grant).handlers[h].pc, s.handlers[h].pc.previous)
  {
    hide RollBack, Remembered, Invariant, Undoes, Newer, BoundTo, SessionOk;
    SessionFacts(s, h);
    var pc := s.handlers[h].pc;
    if !ok && !pc.started {
      RollBackReaches(s, h, pc.b, pc.previous, pc.replaced);
    }
  }

  lemma OtherAwaits(s: State, h: nat, ok: bool, text: string, grant: string)
    requires h in s.handlers && !s.handlers[h].pc.Auditing? && !s.handlers[h].pc.Stopping?
    ensures RollsOn(s, DoProceed(s, h, ok, text, grant), h)
  {
    hide Remembered;
    match s.handlers[h].pc
    case Attaching(b) => SameHandlers(s, b);
    case Verifying(b) => SameHandlers(s, b);
    case RestoreVerifying(claimed) => SameHandlers(s, claimed);
    case _ =>
  }

  lemma TakeRolls(s: State, h: nat, ok: bool)
    requires Invariant(s) && h in s.handlers
    ensures RollsOn(s, DoTakeChildrenLock(s, h, ok), h)
    ensures s.handlers[h].pc.Starting? && s.childrenLock.None? ==>
              var after := DoTakeChildrenLock(s, h, ok).handlers[h].pc;
              after.Auditing? || RollsBack(after, s.handlers[h].pc.previous)
  {
    hide AfterStop, Invariant;
    if s.childrenLock.None? && s.handlers[h].pc.StopQueued? && s.handlers[h].session !in s.children {
      AfterStopRolls(s, h, s.handlers[h].pc.next);
    }
  }

  /** Where a failed activate or restore goes: from the audit or the start that
      raised, straight or by way of stopping the child it started, to the step
      that undoes it, which leaves its session with exactly the binding it found.
      Only a cancel ends it earlier. */
  lemma {:induction false} FailuresRollBack(events: seq<Event>, ev: Event, h: nat)
    requires h in Run(events).handlers && h in Step(Run(events), ev).handlers
    ensures var s, t := Run(events), Step(Run(events), ev);
            var pc, after := s.handlers[h].pc, t.handlers[h].pc;
            && (RollsOn(s, t, h) || after == Closing(Cancelled))
            && (pc.Auditing? && ev.Proceed? && ev.h == h && !ev.ok ==> RollsBack(after, pc.previous))
            && (pc.Starting? && ev.TakeChildrenLock? && ev.h == h && s.childrenLock.None? ==>
                  after.Auditing? || RollsBack(after, pc.previous))
  {
    hide Run, DoProceed, DoTakeChildrenLock, Invariant;
    RunKeeps(events);
    var s := Run(events);
    HandlerStep(s, ev, h);
    if Actor(s, ev) == Some(h) {
      match ev
      case TakeChildrenLock(_, ok) => TakeRolls(s, h, ok);
      case Proceed(_, ok, text, grant) =>
        if s.handlers[h].pc.Auditing? {
          AuditedRolls(s, h, ok, text, grant);
        } else if s.handlers[h].pc.Stopping? {
          StoppedRolls(s, h, ok, text, grant);
        } else {
          OtherAwaits(s, h, ok, text, grant);
        }
      case _ =>
    }
  }

  // ---- whole runs ----

  lemma {:induction false} LastStep(events: seq<Event>, h: nat)
    requires h in Run(events).handlers
    ensures events != [] && Run(events) == Step(Run(events[..|events| - 1]), events[|events| - 1])
    ensures Invariant(Run(events[..|events| - 1])) && Invariant(Run(events))
  {
    hide Step, Invariant;
    RunKeeps(events);
    RunKeeps(events[..if events == [] then 0 else |events| - 1]);
  }

  /** What a handler would put back is what its session was bound to once its
      grant had been verified: nothing, if it was bound to nothing then. */
  lemma {:induction false} FoundWhenBinding(events: seq<Event>, h: nat) returns (i: nat)
    requires h in Run(events).handlers && Found(Run(events).handlers[h].pc).Some?
    ensures i < |events| && h in Run(events[..i]).handlers
    ensures var s := Run(events[..i]);
            && s.handlers[h].session == Run(events).handlers[h].session
            && (s.handlers[h].pc.Verifying? || s.handlers[h].pc.RestoreVerifying?)
            && Found(Run(events).handlers[h].pc) == Some(Bd(s, s.handlers[h].session))
  {
    hide Step, Invariant;
    LastStep(events, h);
    var front := events[..|events| - 1];
    HandlerStep(Run(front), events[|events| - 1], h);
    if Found(Run(front).handlers[h].pc) == Found(Run(events).handlers[h].pc) {
      i := FoundWhenBinding(front, h);
      assert front[..i] == events[..i];
    } else {
      i := |events| - 1;
    }
  }

  /** After the rollback the session's binding stays, or is evicted: while its
      handler holds the lock, no other handler of the session moves. */
  lemma HeldKeepsOrEvicts(s: State, ev: Event, h: nat)
    requires Invariant(s) && Invariant(Step(s, ev)) && h in s.handlers && Undone(s.handlers[h].pc).Some?
    ensures var t, x := Step(s, ev), s.handlers[h].session;
            Bd(t, x) == Bd(s, x) || Evicts(s, t, x)
  {
    hide DoProceed, DoTakeChildrenLock, TableMoves, Evicts, SessionOk, HandlerOk, MayReach;
    ActorSegment(s, ev);
    if Actor(s, ev).Some? {
      var k := Actor(s, ev).value;
      if s.handlers[k].session != s.handlers[h].session {
        OthersKeepOrEvict(s, Step(s, ev), s.handlers[k].session, s.handlers[h].session);
      } else {
        OwnStepKeeps(s, ev, h, k);
      }
    }
  }

  lemma OwnStepKeeps(s: State, ev: Event, h: nat, k: nat)
    requires LocksOk(s) && h in s.handlers && Undone(s.handlers[h].pc).Some?
    requires Actor(s, ev) == Some(k) && s.handlers[k].session == s.handlers[h].session
    ensures Step(s, ev).bindings == s.bindings
  {
    if k != h {
      Exclusive(s, h, k);
    }
  }

  ghost predicate EvictsAt(events: seq<Event>, j: nat, x: string)
    requires j < |events|
  {
    Evicts(Run(events[..j]), Run(events[..j + 1]), x)
  }

  ghost predicate EvictedSince(events: seq<Event>, from: nat, x: string) {
    exists j: nat | from <= j < |events| :: EvictsAt(events, j, x)
  }

  /** An eviction in the run so far, or at its last step. */
  lemma EvictedStill(events: seq<Event>, from: nat, x: string)
    requires events != [] && from < |events|
    requires var front := events[..|events| - 1]; EvictedSince(front, from, x) || Evicts(Run(front), Run(events), x)
    ensures EvictedSince(events, from, x)
  {
    hide Run, Evicts;
    var front := events[..|events| - 1];
    if EvictedSince(front, from, x) {
      var j: nat :| from <= j < |front| && EvictsAt(front, j, x);
      assert front[..j] == events[..j] && front[..j + 1] == events[..j + 1];
      assert EvictsAt(events, j, x);
    } else {
      assert events[..|front| + 1] == events;
      assert EvictsAt(events, |front|, x);
    }
  }

  lemma RestoredChild(s: State, h: nat)
    requires Invariant(s) && h in s.handlers && Undone(s.handlers[h].pc).Some?
    ensures var x := s.handlers[h].session;
            Live(s, x) ==> Some(s.children[x].binding) == Undone(s.handlers[h].pc).value
  {
    SessionFacts(s, h);
  }

  /** A handler that failed put back, at one step, exactly the binding it had
      found. From then on its session has that binding, unless another session's
      took its place in a full table; and no live child runs on any other. */
  lemma {:induction false} FailureRestores(events: seq<Event>, h: nat) returns (k: nat)
    requires h in Run(events).handlers && Undone(Run(events).handlers[h].pc).Some?
    ensures k < |events|
    ensures var s := Run(events);
            var x, previous := s.handlers[h].session, Undone(s.handlers[h].pc).value;
            && Bd(Run(events[..k + 1]), x) == previous
            && (Bd(s, x) == previous || (Bd(s, x).None? && EvictedSince(events, k + 1, x)))
            && (Live(s, x) ==> Some(s.children[x].binding) == previous)
  {
    hide Step, Undone, EvictedSince, Invariant, HandlerOk;
    LastStep(events, h);
    var front, last := events[..|events| - 1], events[|events| - 1];
    var s, t, x := Run(front), Run(events), Run(events).handlers[h].session;
    RestoredChild(t, h);
    UndoneStep(front, last, h);
    if Undone(s.handlers[h].pc).Some? {
      k := FailureRestores(front, h);
      assert front[..k + 1] == events[..k + 1];
      HeldKeepsOrEvicts(s, last, h);
      if Evicts(s, t, x) || EvictedSince(front, k + 1, x) {
        EvictedStill(events, k + 1, x);
      }
    } else {
      k := |events| - 1;
      assert events[..k + 1] == events;
    }
  }

  /** A handler past its failure has just put back what it found, or had before
      and still has. */
  lemma {:induction false} UndoneStep(events: seq<Event>, ev: Event, h: nat)
    requires h in Step(Run(events), ev).handlers && Undone(Step(Run(events), ev).handlers[h].pc).Some?
    ensures h in Run(events).handlers
    ensures var s, t := Run(events), Step(Run(events), ev);
            var pc, after := s.handlers[h].pc, t.handlers[h].pc;
            && t.handlers[h].session == s.handlers[h].session
            && (Undone(pc).Some? ==> Undone(after) == Undone(pc))
            && (Undone(pc).None? ==> Bd(t, s.handlers[h].session) == Undone(after).value)
  {
    hide Run, Step, Invariant;
    RunKeeps(events);
    HandlerStep(Run(events), ev, h);
    FailuresRollBack(events, ev, h);
    var pc := Run(events).handlers[h].pc;
    assert Undone(pc).Some? ==> RollsBack(pc, Undone(pc).value);
  }

  // ---- cancels ----

  /** A cancel ends a handler where it stands: nothing it bound or started is
      undone. */
  lemma CancelUndoesNothing(events: seq<Event>, h: nat)
    requires h in Run(events).handlers && Cancellable(Run(events).handlers[h].pc)
    ensures var s, t := Run(events), Step(Run(events), Cancel(h));
            && h in t.handlers && t.handlers[h].pc == Closing(Cancelled)
            && t.bindings == s.bindings && t.children == s.children && t.alive == s.alive
  {
    hide Run;
  }

  /** What it leaves is in order all the same: its binding never goes behind what
      the session was last released with, and a live child runs on it. */
  lemma {:induction false} CancelledStaysInOrder(events: seq<Event>, h: nat)
    requires h in Run(events).handlers && Run(events).handlers[h].pc == Closing(Cancelled)
    ensures var s, x := Run(events), Run(events).handlers[h].session;
            && (Bd(s, x).Some? && Past(s, x) != [] ==> Follows(Bd(s, x).value, Last(Past(s, x)).value))
            && (Bd(s, x).Some? && Live(s, x) ==> s.children[x].binding == Bd(s, x).value)
  {
    RunKeeps(events);
    SessionFacts(Run(events), h);
  }

  /** So a restore cancelled while its child waits to start leaves the session
      on the new binding. */
  lemma CancelledRestoreStaysBound(b: Binding)
    ensures var s := Run([Arrive(0, b.session, Restore(b)), Acquire(0, true), Proceed(0, true, [], []), Cancel(0)]);
            0 in s.handlers && s.handlers[0].pc == Closing(Cancelled) && s.bindings == [b] && s.children == map[]
  {
    var events := [Arrive(0, b.session, Restore(b)), Acquire(0, true), Proceed(0, true, [], []), Cancel(0)];
    var waiting := DoArrive(Initial, 0, b.session, Restore(b));
    assert events[..3] == [Arrive(0, b.session, Restore(b)), Acquire(0, true), Proceed(0, true, [], [])];
    assert events[..3][..2] == [Arrive(0, b.session, Restore(b)), Acquire(0, true)];
    assert events[..3][..2][..1] == [Arrive(0, b.session, Restore(b))];
    assert Run([Arrive(0, b.session, Restore(b))]) == waiting by {
      assert [Arrive(0, b.session, Restore(b))][..0] == [];
    }
    var checking := DoAcquire(waiting, 0, true);
    assert Run(events[..2]) == checking;
    var starting := DoRestore(checking, 0, b);
    assert Pop([], b.session) + [b] == [b];
    assert starting.handlers[0].pc == Starting(b, None, false);
    assert Run(events[..3]) == starting;
  }
}
