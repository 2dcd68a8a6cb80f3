/** The children over a run: who starts them, and what ends them. */
module SessionsChildren {
  import opened Wrappers
  import opened BindingTables
  import opened Sessions
  import opened SessionsInvariant
  import opened SessionsSteps
  import opened SessionsRuns
  import opened SessionsRequests
  import opened SessionsRollback

  ghost predicate SameChildren(s: State, t: State) {
    t.children == s.children && t.alive == s.alive && t.nextId == s.nextId
  }

  /** What one segment of a handler does to the children: nothing, or it starts
      one on its session, or begins or ends a stop of its session's. */
  ghost predicate ChildMoves(s: State, t: State, h: nat) {
    && h in s.handlers && h in t.handlers
    && var x, pc, after := s.handlers[h].session, s.handlers[h].pc, t.handlers[h].pc;
       || (SameChildren(s, t) && (after.Stopping? ==> after == pc))
       || (!Live(s, x) && !pc.Stopping? && !after.Stopping?
           && (exists b: Binding :: b.session == x && t.children == s.children[x := Child(s.nextId, b)])
           && t.alive == s.alive + {s.nextId} && t.nextId == s.nextId + 1)
       || (pc.StopQueued? && x in s.children && after == Stopping(s.children[x], pc.next)
           && t.children == s.children - {x} && t.alive == s.alive && t.nextId == s.nextId)
       || (pc.Stopping? && !after.Stopping?
           && t.children == s.children && t.alive == s.alive - {pc.child.id} && t.nextId == s.nextId)
  }

  lemma RollBackSame(s: State, h: nat, previous: Option<Binding>, restart: bool)
    requires h in s.handlers
    ensures var t := RollBack(s, h, previous, restart);
            SameChildren(s, t) && h in t.handlers && !t.handlers[h].pc.Stopping?
  {
  }

  lemma AfterStopSameChildren(s: State, h: nat, next: Then)
    requires h in s.handlers
    ensures var t := AfterStop(s, h, next);
            SameChildren(s, t) && h in t.handlers && !t.handlers[h].pc.Stopping?
  {
    hide RollBack;
    if next.RollingBack? {
      RollBackSame(s, h, next.previous, next.restart);
    }
  }

  lemma FailSame(s: State, h: nat, b: Binding, previous: Option<Binding>, started: bool, replaced: bool)
    requires h in s.handlers
    ensures var t := Fail(s, h, b, previous, started, replaced);
            SameChildren(s, t) && h in t.handlers && !t.handlers[h].pc.Stopping?
  {
    hide RollBack;
    RollBackSame(s, h, previous, replaced);
  }

  lemma RestoreSame(s: State, h: nat, grant: Binding)
    requires h in s.handlers
    ensures var t := DoRestore(s, h, grant);
            SameChildren(s, t) && h in t.handlers && !t.handlers[h].pc.Stopping?
  {
  }

  lemma ProceedChildren(s: State, h: nat, ok: bool, text: string, grant: string)
    requires h in s.handlers
    ensures ChildMoves(s, DoProceed(s, h, ok, text, grant), h)
  {
    hide AfterStop, Fail, DoRestore;
    match s.handlers[h].pc
    case RestoreVerifying(claimed) => RestoreSame(s, h, claimed);
    case Auditing(b, previous, started, replaced) => FailSame(s, h, b, previous, started, replaced);
    case Stopping(child, next) => AfterStopSameChildren(s.(alive := s.alive - {child.id}, childrenLock := None), h, next);
    case _ =>
  }

  lemma TakeChildren(s: State, h: nat, ok: bool)
    requires h in s.handlers && HandlerOk(s, h)
    ensures ChildMoves(s, DoTakeChildrenLock(s, h, ok), h)
  {
    hide AfterStop, Fail;
    match s.handlers[h].pc
    case Starting(b, previous, replaced) => FailSame(s, h, b, previous, true, replaced);
    case StopQueued(next) => AfterStopSameChildren(s, h, next);
    case _ =>
  }

  lemma ActorChildren(s: State, ev: Event)
    requires Invariant(s)
    ensures Actor(s, ev).Some? ==> ChildMoves(s, Step(s, ev), Actor(s, ev).value)
  {
    hide DoProceed, DoTakeChildrenLock, ChildMoves, Invariant;
    match ev
    case Proceed(h, ok, text, grant) =>
      if h in s.handlers {
        ProceedChildren(s, h, ok, text, grant);
      }
    case TakeChildrenLock(h, ok) =>
      if h in s.handlers {
        SessionFacts(s, h);
        TakeChildren(s, h, ok);
      }
    case _ =>
  }

  // ---- no two children share an id ----

  ghost predicate IdsApart(s: State) {
    && (forall x, y | x in s.children && y in s.children && x != y :: s.children[x].id != s.children[y].id)
    && (forall h: nat, x | IsStopping(s, h) && x in s.children :: s.handlers[h].pc.child.id != s.children[x].id)
  }

  lemma ActorIds(s: State, t: State, h: nat)
    requires IdsApart(s) && ChildMoves(s, t, h) && OneMoves(s, t, h)
    requires forall x | x in s.children :: s.children[x].id < s.nextId
    requires forall k: nat | IsStopping(s, k) :: s.handlers[k].pc.child.id < s.nextId
    ensures IdsApart(t)
  {
    forall k: nat, x | IsStopping(t, k) && x in t.children ensures t.handlers[k].pc.child.id != t.children[x].id {
      if k != h {
        assert IsStopping(s, k);
      } else if t.handlers[h].pc == s.handlers[h].pc {
        assert IsStopping(s, h);
      }
    }
  }

  lemma KnownIds(s: State)
    requires Invariant(s)
    ensures forall x | x in s.children :: s.children[x].id < s.nextId
    ensures forall k: nat | IsStopping(s, k) :: s.handlers[k].pc.child.id < s.nextId
  {
    ChildIds(s);
    forall k: nat | IsStopping(s, k) ensures s.handlers[k].pc.child.id < s.nextId {
      assert HandlerOk(s, k);
    }
  }

  lemma ActorMoves(s: State, ev: Event)
    ensures Actor(s, ev).Some? ==> OneMoves(s, Step(s, ev), Actor(s, ev).value)
  {
    hide DoProceed, DoTakeChildrenLock;
    match ev
    case Proceed(h, ok, text, grant) =>
      if h in s.handlers {
        ProceedMoves(s, h, ok, text, grant);
      }
    case TakeChildrenLock(h, ok) =>
      if h in s.handlers {
        TakeMoves(s, h, ok);
      }
    case _ =>
  }

  lemma OtherIds(s: State, ev: Event)
    requires IdsApart(s) && Actor(s, ev).None?
    ensures IdsApart(Step(s, ev))
  {
    hide DoProceed, DoTakeChildrenLock;
    var t := Step(s, ev);
    forall k: nat | IsStopping(t, k) ensures IsStopping(s, k) && t.handlers[k] == s.handlers[k] {
    }
  }

  lemma {:induction false} IdsStayApart(events: seq<Event>)
    ensures IdsApart(Run(events))
  {
    hide Step, IdsApart, Invariant, ChildMoves, OneMoves;
    if events == [] {
      NoIds();
    } else {
      var front, last := events[..|events| - 1], events[|events| - 1];
      IdsStayApart(front);
      RunKeeps(front);
      KnownIds(Run(front));
      ActorChildren(Run(front), last);
      ActorMoves(Run(front), last);
      if Actor(Run(front), last).Some? {
        ActorIds(Run(front), Run(events), Actor(Run(front), last).value);
      } else {
        OtherIds(Run(front), last);
      }
    }
  }

  lemma NoIds()
    ensures IdsApart(Initial)
  {
  }

  // ---- a child lives until it ends or is stopped ----

  ghost predicate Runs(s: State, x: string, child: Child) {
    x in s.children && s.children[x] == child && child.id in s.alive
  }

  /** A handler of x's begins to stop that child. */
  ghost predicate BeginsStop(s: State, ev: Event, t: State, x: string, child: Child) {
    && ev.TakeChildrenLock? && ev.h in s.handlers && ev.h in t.handlers
    && s.handlers[ev.h].session == x && s.handlers[ev.h].pc.StopQueued?
    && t.handlers[ev.h].pc == Stopping(child, s.handlers[ev.h].pc.next)
  }

  lemma ActorSpares(s: State, ev: Event, t: State, h: nat, x: string, child: Child)
    requires IdsApart(s) && Runs(s, x, child) && ChildMoves(s, t, h) && Actor(s, ev) == Some(h)
    requires child.id < s.nextId && (s.handlers[h].pc.StopQueued? && t.handlers[h].pc.Stopping? ==> ev.TakeChildrenLock?)
    ensures Runs(t, x, child) || BeginsStop(s, ev, t, x, child)
  {
    if s.handlers[h].pc.Stopping? {
      assert IsStopping(s, h);
    }
  }

  lemma OnlyTakeStops(s: State, ev: Event, h: nat)
    requires Actor(s, ev) == Some(h) && s.handlers[h].pc.StopQueued? && h in Step(s, ev).handlers
    requires Step(s, ev).handlers[h].pc.Stopping?
    ensures ev.TakeChildrenLock?
  {
  }

  lemma ChildStep(s: State, ev: Event, x: string, child: Child)
    requires Invariant(s) && IdsApart(s) && Runs(s, x, child)
    ensures Runs(Step(s, ev), x, child) || ev == ChildEnds(child.id) || BeginsStop(s, ev, Step(s, ev), x, child)
  {
    hide DoProceed, DoTakeChildrenLock, ChildMoves, Invariant, IdsApart, BeginsStop;
    ActorChildren(s, ev);
    ActorMoves(s, ev);
    KnownIds(s);
    if Actor(s, ev).Some? {
      var h := Actor(s, ev).value;
      if s.handlers[h].pc.StopQueued? && Step(s, ev).handlers[h].pc.Stopping? {
        OnlyTakeStops(s, ev, h);
      }
      ActorSpares(s, ev, Step(s, ev), h, x, child);
    }
  }

  ghost predicate StopBegun(events: seq<Event>, j: nat, x: string, child: Child)
    requires j < |events|
  {
    BeginsStop(Run(events[..j]), events[j], Run(events[..j + 1]), x, child)
  }

  /** Since then the child has ended by itself, or a handler of its own session
      has begun to stop it. */
  ghost predicate EndedSince(events: seq<Event>, from: nat, x: string, child: Child) {
    exists j: nat | from <= j < |events| :: events[j] == ChildEnds(child.id) || StopBegun(events, j, x, child)
  }

  lemma EndedStill(events: seq<Event>, from: nat, x: string, child: Child)
    requires events != [] && from < |events|
    requires var front, last := events[..|events| - 1], events[|events| - 1];
             || EndedSince(front, from, x, child) || last == ChildEnds(child.id)
             || BeginsStop(Run(front), last, Run(events), x, child)
    ensures EndedSince(events, from, x, child)
  {
    hide Run, BeginsStop;
    var front := events[..|events| - 1];
    if EndedSince(front, from, x, child) {
      var j: nat :| from <= j < |front| && (front[j] == ChildEnds(child.id) || StopBegun(front, j, x, child));
      assert front[..j] == events[..j] && front[..j + 1] == events[..j + 1];
      assert events[j] == ChildEnds(child.id) || StopBegun(events, j, x, child);
    } else {
      assert events[..|front| + 1] == events;
      assert events[|front|] == ChildEnds(child.id) || StopBegun(events, |front|, x, child);
    }
  }

  /** A child that runs goes on running, as its session's, until it ends by
      itself or a handler of that session begins to stop it. */
  lemma {:induction false} RunsUntilEnded(events: seq<Event>, from: nat, x: string, child: Child)
    requires from <= |events| && Runs(Run(events[..from]), x, child)
    ensures Runs(Run(events), x, child) || EndedSince(events, from, x, child)
    decreases |events|
  {
    hide Step, Invariant, IdsApart, Runs, EndedSince, BeginsStop;
    if from == |events| {
      assert events[..from] == events;
    } else {
      var front, last := events[..|events| - 1], events[|events| - 1];
      assert front[..from] == events[..from];
      RunsUntilEnded(front, from, x, child);
      RunKeeps(front);
      IdsStayApart(front);
      if Runs(Run(front), x, child) {
        ChildStep(Run(front), last, x, child);
      }
      if !Runs(Run(events), x, child) {
        EndedStill(events, from, x, child);
      }
    }
  }

  // ---- an activate or restore that goes well has its child ----

  /** Where a handler begins to audit, its session has a live child on the
      binding it audits: the one it started there, or the one found running. */
  lemma AuditBegins(s: State, ev: Event, h: nat)
    requires Invariant(s) && h in s.handlers && h in Step(s, ev).handlers
    requires Step(s, ev).handlers[h].pc.Auditing? && Step(s, ev).handlers[h].pc != s.handlers[h].pc
    ensures var t, pc, x := Step(s, ev), Step(s, ev).handlers[h].pc, s.handlers[h].session;
            && x in t.children && Runs(t, x, t.children[x]) && t.children[x].binding == pc.b && pc.b.session == x
            && (if pc.started then ev == TakeChildrenLock(h, true) && t.children[x].id == s.nextId && s.nextId !in s.alive
                else ev.Proceed? && ev.h == h && t.children == s.children)
  {
    hide Remembered, AfterStop, RollBack, Undoes, ChildrenOk, LocksOk, Ordered;
    SessionFacts(s, h);
    StepOthers(s, ev, h);
    AuditedFrom(s, ev, h);
    KnownAlive(s);
    match ev
    case Proceed(k, ok, text, grant) => BoundHandlers(s, h);
    case TakeChildrenLock(k, ok) =>
    case _ =>
  }

  lemma KnownAlive(s: State)
    requires Invariant(s)
    ensures s.nextId !in s.alive
  {
    if s.nextId in s.alive {
      assert false;
    }
  }

  lemma BoundHandlers(s: State, h: nat)
    requires h in s.handlers
    ensures forall b :: Remembered(s, b).Some? ==> SameChildren(s, Remembered(s, b).value) && Remembered(s, b).value.handlers == s.handlers
  {
  }

  /** It comes to auditing from starting a child or from a verified grant. */
  lemma AuditedFrom(s: State, ev: Event, h: nat)
    requires h in s.handlers && h in Step(s, ev).handlers
    requires Step(s, ev).handlers[h].pc.Auditing? && Step(s, ev).handlers[h].pc != s.handlers[h].pc
    ensures (ev.Proceed? || ev.TakeChildrenLock?) && ev.h == h
    ensures var pc := s.handlers[h].pc;
            if ev.Proceed? then pc.Verifying? || pc.RestoreVerifying? else pc.Starting?
  {
    hide AfterStop, Fail, DoRestore, Remembered;
    StepOthers(s, ev, h);
    match ev
    case Proceed(_, _, _, _) => BoundHandlers(s, h); NoAuditHere(s, h);
    case TakeChildrenLock(_, _) => NoAuditHere(s, h);
    case _ =>
  }

  lemma NoAuditHere(s: State, h: nat)
    requires h in s.handlers
    ensures forall b, previous, started, replaced ::
              var t := Fail(s, h, b, previous, started, replaced); h in t.handlers && !t.handlers[h].pc.Auditing?
    ensures forall s': State, next | s'.handlers == s.handlers ::
              var t := AfterStop(s', h, next); h in t.handlers && !t.handlers[h].pc.Auditing?
  {
  }

  /** Only its own session's handlers begin to stop a child, and while one of them
      audits it is the only one past waiting. */
  lemma NotStoppedWhileAudited(s: State, ev: Event, h: nat, child: Child)
    requires Invariant(s) && h in s.handlers && s.handlers[h].pc.Auditing?
    ensures !BeginsStop(s, ev, Step(s, ev), s.handlers[h].session, child)
  {
    if BeginsStop(s, ev, Step(s, ev), s.handlers[h].session, child) {
      Exclusive(s, h, ev.h);
    }
  }

  /** In every run, an activate or restore that audits has its child: one on the
      binding it audits, which it started at `k` or found running there, which is
      its session's and alive to this moment unless it has ended by itself. */
  lemma {:induction false} AuditedChildRuns(events: seq<Event>, h: nat) returns (k: nat, child: Child)
    requires h in Run(events).handlers && Run(events).handlers[h].pc.Auditing?
    ensures k < |events|
    ensures var x, pc := Run(events).handlers[h].session, Run(events).handlers[h].pc;
            && child.binding == pc.b && pc.b.session == x
            && Runs(Run(events[..k + 1]), x, child)
            && (pc.started ==> events[k] == TakeChildrenLock(h, true) && child.id == Run(events[..k]).nextId)
            && (Runs(Run(events), x, child) || exists j: nat :: k < j < |events| && events[j] == ChildEnds(child.id))
  {
    hide Step, Invariant, Runs, IdsApart, BeginsStop;
    LastStep(events, h);
    var front, last := events[..|events| - 1], events[|events| - 1];
    var s, t, x := Run(front), Run(events), Run(events).handlers[h].session;
    StepOthers(s, last, h);
    if h in s.handlers && s.handlers[h].pc == t.handlers[h].pc {
      k, child := AuditedChildRuns(front, h);
      assert front[..k] == events[..k] && front[..k + 1] == events[..k + 1];
      IdsStayApart(front);
      if Runs(s, x, child) {
        ChildStep(s, last, x, child);
        NotStoppedWhileAudited(s, last, h, child);
        assert !Runs(t, x, child) ==> events[|front|] == ChildEnds(child.id);
      } else {
        var j: nat :| k < j < |front| && front[j] == ChildEnds(child.id);
        assert events[j] == ChildEnds(child.id);
      }
    } else {
      k := |events| - 1;
      assert events[..k + 1] == events;
      AuditBegins(s, last, h);
      child := t.children[x];
    }
  }
}
