/** What each request comes to: why a handler ends, and what is then true. */
module SessionsProgress {
  import opened Wrappers
  import opened BindingTables
  import opened Sessions
  import opened SessionsInvariant
  import opened SessionsSteps
  import opened SessionsRuns
  import opened SessionsRequests
  import opened SessionsRollback
  import opened SessionsChildren

  // ---- why a handler ends ----

  /** A grant that may not replace this binding: older, or as old and other. */
  predicate Stale(current: Option<Binding>, b: Binding) {
    current.Some? && (current.value.revision > b.revision
                      || (current.value.revision == b.revision && current.value.fingerprint != b.fingerprint))
  }

  /** The request cannot be served as its session stands. */
  predicate CannotServe(s: State, x: string, request: Request) {
    match request
    case Attach => Live(s, x)
    case Activate(revision) => Bd(s, x).None? || Bd(s, x).value.revision != revision
    case Reap(child) => x !in s.children || s.children[x].id != child
    case _ => false
  }

  /** The handler is turned away here, with nothing to undo. */
  predicate TurnedAway(s: State, ev: Event, h: nat)
    requires h in s.handlers
  {
    var x, pc := s.handlers[h].session, s.handlers[h].pc;
    match ev
    case Acquire(k, available) =>
      && k == h && pc.Waiting? && x in s.locks && s.locks[x].holder.None?
      && (!available || CannotServe(s, x, pc.request))
    case Proceed(k, ok, _, _) =>
      && k == h
      && (if pc.RestoreVerifying? then !ok || pc.claimed.session != x || Stale(Bd(s, x), pc.claimed)
          else !ok && (pc.Resolving? || pc.Issuing? || pc.Attaching? || pc.Verifying? || pc.DetachAuditing? || pc.ReapAuditing?))
    case _ => false
  }

  /** The handler comes to the end of what was asked here. */
  predicate Completes(s: State, ev: Event, h: nat)
    requires h in s.handlers
  {
    var x, pc := s.handlers[h].session, s.handlers[h].pc;
    match ev
    case Proceed(k, ok, _, _) =>
      k == h && ((ok && (pc.Attaching? || pc.Auditing? || pc.DetachAuditing?)) || (pc.Stopping? && pc.next.Reaping?))
    case TakeChildrenLock(k, _) =>
      k == h && s.childrenLock.None? && pc.StopQueued? && pc.next.Reaping? && x !in s.children
    case _ => false
  }

  lemma RollBackEnds(s: State, h: nat, previous: Option<Binding>, restart: bool)
    requires Invariant(s) && h in s.handlers
    ensures var t := RollBack(s, h, previous, restart);
            h in t.handlers && t.handlers[h].pc != Closing(Plain)
  {
    hide Remembered, Invariant, Forgotten;
    if previous.Some? {
      AlwaysRemembered(s, previous.value);
      SameHandlers(s, previous.value);
    }
  }

  lemma AfterStopEnds(s: State, h: nat, next: Then)
    requires Invariant(s) && h in s.handlers
    ensures var t := AfterStop(s, h, next);
            h in t.handlers && (t.handlers[h].pc == Closing(Plain) <==> next.Reaping?)
  {
    hide Remembered, Invariant, RollBack;
    match next
    case Replacing(b, _) => AlwaysRemembered(s, b); SameHandlers(s, b);
    case RollingBack(_, previous, restart) => RollBackEnds(s, h, previous, restart);
    case _ =>
  }

  lemma StoppedEnds(s: State, h: nat, ok: bool, text: string, grant: string)
    requires Invariant(s) && IsStopping(s, h)
    ensures var t := DoProceed(s, h, ok, text, grant);
            h in t.handlers && (t.handlers[h].pc == Closing(Plain) <==> s.handlers[h].pc.next.Reaping?)
  {
    hide Invariant, Acted, AfterStop, DoProceed;
    StopEnds(s, h);
    ActedKeeps(s, Stopped(s, h), h);
    AfterStopSame(s, h);
    AfterStopEnds(Stopped(s, h), h, s.handlers[h].pc.next);
  }

  lemma FailEnds(s: State, h: nat, b: Binding, previous: Option<Binding>, started: bool, replaced: bool)
    requires Invariant(s) && h in s.handlers
    ensures var t := Fail(s, h, b, previous, started, replaced);
            h in t.handlers && t.handlers[h].pc != Closing(Plain)
  {
    hide RollBack, Invariant;
    RollBackEnds(s, h, previous, replaced);
  }

  lemma ProceedEnds(s: State, h: nat, ok: bool, text: string, grant: string)
    requires Invariant(s) && h in s.handlers && !s.handlers[h].pc.Closing?
    ensures var t, ev := DoProceed(s, h, ok, text, grant), Proceed(h, ok, text, grant);
            h in t.handlers && (t.handlers[h].pc == Closing(Plain) <==> TurnedAway(s, ev, h) || Completes(s, ev, h))
  {
    hide Remembered, Invariant, AfterStop, Fail, Forgotten;
    match s.handlers[h].pc
    case Stopping(_, _) => StoppedEnds(s, h, ok, text, grant);
    case Attaching(b) => AlwaysRemembered(s, b); SameHandlers(s, b);
    case Verifying(b) => AlwaysRemembered(s, b); SameHandlers(s, b);
    case RestoreVerifying(claimed) => AlwaysRemembered(s, claimed); SameHandlers(s, claimed);
    case Auditing(b, previous, started, replaced) => FailEnds(s, h, b, previous, started, replaced);
    case _ =>
  }

  lemma TakeEnds(s: State, h: nat, ok: bool)
    requires Invariant(s) && h in s.handlers && !s.handlers[h].pc.Closing?
    ensures var t, ev := DoTakeChildrenLock(s, h, ok), TakeChildrenLock(h, ok);
            h in t.handlers && (t.handlers[h].pc == Closing(Plain) <==> Completes(s, ev, h))
  {
    hide Invariant, AfterStop, Fail;
    match s.handlers[h].pc
    case Starting(b, previous, replaced) => FailEnds(s, h, b, previous, true, replaced);
    case StopQueued(next) => AfterStopEnds(s, h, next);
    case _ =>
  }

  /** In every run a handler ends plainly exactly where it is turned away with
      nothing to undo, or comes to the end of what was asked. */
  lemma {:induction false} EndsPlainlyIff(events: seq<Event>, ev: Event, h: nat)
    requires h in Run(events).handlers && h in Step(Run(events), ev).handlers && !Run(events).handlers[h].pc.Closing?
    ensures Step(Run(events), ev).handlers[h].pc == Closing(Plain) <==>
            TurnedAway(Run(events), ev, h) || Completes(Run(events), ev, h)
  {
    hide Run, DoProceed, DoTakeChildrenLock, Invariant;
    RunKeeps(events);
    var s := Run(events);
    StepOthers(s, ev, h);
    match ev
    case Proceed(k, ok, text, grant) =>
      if k == h {
        ProceedEnds(s, h, ok, text, grant);
      }
    case TakeChildrenLock(k, ok) =>
      if k == h {
        TakeEnds(s, h, ok);
      }
    case _ =>
  }

  // ---- what is true then ----

  /** What a completed request has brought about: an attach the binding it made,
      an activate or restore a binding that its child runs on, a detach neither
      binding nor child, a reap no child. */
  ghost predicate Done(t: State, x: string, pc: Pc) {
    match pc
    case Attaching(b) => Bd(t, x) == Some(b) && b.session == x && !Live(t, x)
    case Auditing(b, _, _, _) =>
      b.session == x && (Bd(t, x).Some? ==> Bd(t, x) == Some(b)) && (Live(t, x) ==> t.children[x].binding == b)
    case DetachAuditing => Bd(t, x).None? && !Live(t, x)
    case Stopping(child, _) => x !in t.children && child.id !in t.alive
    case _ => x !in t.children
  }

  lemma {:induction false} CompletedIsDone(events: seq<Event>, ev: Event, h: nat)
    requires h in Run(events).handlers && Completes(Run(events), ev, h)
    ensures Done(Step(Run(events), ev), Run(events).handlers[h].session, Run(events).handlers[h].pc)
  {
    hide Run, Invariant, Remembered, Ordered;
    RunKeeps(events);
    var s := Run(events);
    var x := s.handlers[h].session;
    SessionFacts(s, h);
    ForgottenGone(s, x);
    match s.handlers[h].pc
    case Attaching(b) => RememberedThere(s, b);
    case _ =>
  }

  lemma ForgottenGone(s: State, x: string)
    requires Invariant(s)
    ensures Bd(Forgotten(s, x), x).None?
  {
    ForgottenEffect(s, x);
  }

  lemma RememberedThere(s: State, b: Binding)
    requires Invariant(s)
    ensures Remembered(s, b).Some?
    ensures var t := Remembered(s, b).value;
            Bd(t, b.session) == Some(b) && SameChildren(s, t) && t.handlers == s.handlers
            && t.childrenLock == s.childrenLock && t.locks == s.locks
  {
    hide LocksOk, SessionOk;
    InvariantPast(s);
    RememberedEffect(s, b);
  }

  // ---- the binding while its child is started and audited ----

  /** The binding a handler works on, once its session has it. */
  function WorksOn(pc: Pc): Option<Binding> {
    match pc
    case Starting(b, _, _) => Some(b)
    case Auditing(b, _, _, _) => Some(b)
    case _ => None
  }

  /** Its own steps leave the binding, and nobody else's but by eviction. */
  lemma BoundStep(s: State, ev: Event, h: nat)
    requires Invariant(s) && Invariant(Step(s, ev)) && h in s.handlers && h in Step(s, ev).handlers
    requires WorksOn(Step(s, ev).handlers[h].pc).Some?
    ensures var t, x, b := Step(s, ev), s.handlers[h].session, WorksOn(Step(s, ev).handlers[h].pc);
            && t.handlers[h].session == x
            && (Bd(t, x) == b || (WorksOn(s.handlers[h].pc) == b && (Bd(t, x) == Bd(s, x) || Evicts(s, t, x))))
  {
    hide DoProceed, DoTakeChildrenLock, Evicts, TableMoves, SessionOk, HandlerOk, MayReach, WorksOn;
    StepOthers(s, ev, h);
    ActorSegment(s, ev);
    var x := s.handlers[h].session;
    if Actor(s, ev) == Some(h) {
      OwnBound(s, ev, h);
    } else if Actor(s, ev).Some? {
      var k := Actor(s, ev).value;
      if s.handlers[k].session == x {
        OtherWaits(s, ev, h, k);
      } else {
        OthersKeepOrEvict(s, Step(s, ev), s.handlers[k].session, x);
      }
    } else {
      NotItsStep(s, ev, h);
    }
  }

  lemma NotItsStep(s: State, ev: Event, h: nat)
    requires h in s.handlers && h in Step(s, ev).handlers && Actor(s, ev).None?
    requires WorksOn(Step(s, ev).handlers[h].pc).Some?
    ensures Step(s, ev).handlers[h] == s.handlers[h]
  {
  }

  lemma OtherWaits(s: State, ev: Event, h: nat, k: nat)
    requires LocksOk(s) && h in s.handlers && k in s.handlers && h != k && s.handlers[h].session == s.handlers[k].session
    requires Actor(s, ev) == Some(k) && WorksOn(s.handlers[h].pc).Some?
    ensures Step(s, ev).bindings == s.bindings
  {
    Exclusive(s, h, k);
  }

  lemma OwnBound(s: State, ev: Event, h: nat)
    requires Invariant(s) && h in s.handlers && h in Step(s, ev).handlers && Actor(s, ev) == Some(h)
    requires WorksOn(Step(s, ev).handlers[h].pc).Some?
    ensures var t, x, b := Step(s, ev), s.handlers[h].session, WorksOn(Step(s, ev).handlers[h].pc);
            Bd(t, x) == b || (WorksOn(s.handlers[h].pc) == b && t.bindings == s.bindings)
  {
    hide DoProceed, DoTakeChildrenLock, Invariant;
    match ev
    case Proceed(_, ok, text, grant) => ProceedBound(s, h, ok, text, grant);
    case TakeChildrenLock(_, ok) => TakeBound(s, h, ok);
  }

  lemma AfterStopBound(s: State, h: nat, next: Then)
    requires Invariant(s) && h in s.handlers && ThenOk(s, s.handlers[h].session, next)
    ensures var t, x := AfterStop(s, h, next), s.handlers[h].session;
            h in t.handlers && (WorksOn(t.handlers[h].pc).Some? ==> Bd(t, x) == WorksOn(t.handlers[h].pc))
  {
    hide Remembered, Invariant;
    match next
    case Replacing(b, _) => RememberedThere(s, b);
    case RollingBack(_, previous, _) =>
      if previous.Some? {
        RememberedThere(s, previous.value);
      }
    case _ =>
  }

  lemma StoppedBound(s: State, h: nat, ok: bool, text: string, grant: string)
    requires Invariant(s) && IsStopping(s, h)
    ensures var t, x := DoProceed(s, h, ok, text, grant), s.handlers[h].session;
            h in t.handlers && (WorksOn(t.handlers[h].pc).Some? ==> Bd(t, x) == WorksOn(t.handlers[h].pc))
  {
    hide Invariant, Acted, AfterStop, DoProceed, HandlerOk;
    StopEnds(s, h);
    ActedKeeps(s, Stopped(s, h), h);
    AfterStopSame(s, h);
    QueuedThen(Stopped(s, h), h);
    AfterStopBound(Stopped(s, h), h, s.handlers[h].pc.next);
  }

  lemma QueuedThen(s: State, h: nat)
    requires Invariant(s) && h in s.handlers && s.handlers[h].pc.StopQueued?
    ensures ThenOk(s, s.handlers[h].session, s.handlers[h].pc.next)
  {
    SessionFacts(s, h);
  }

  lemma RestoreBound(s: State, h: nat, b: Binding)
    requires Invariant(s) && h in s.handlers && s.handlers[h].session == b.session
    ensures var t := DoRestore(s, h, b);
            h in t.handlers && (WorksOn(t.handlers[h].pc).Some? ==> WorksOn(t.handlers[h].pc) == Some(b) == Bd(t, b.session))
  {
    hide Remembered, Invariant;
    RememberedThere(s, b);
  }

  lemma VerifiedHere(s: State, h: nat)
    requires Invariant(s) && h in s.handlers && s.handlers[h].pc.Verifying?
    ensures s.handlers[h].pc.b.session == s.handlers[h].session
  {
    SessionFacts(s, h);
  }

  lemma ProceedBound(s: State, h: nat, ok: bool, text: string, grant: string)
    requires Invariant(s) && h in s.handlers
    ensures var t, x := DoProceed(s, h, ok, text, grant), s.handlers[h].session;
            h in t.handlers
            && (WorksOn(t.handlers[h].pc).Some? ==>
                  Bd(t, x) == WorksOn(t.handlers[h].pc)
                  || (WorksOn(s.handlers[h].pc) == WorksOn(t.handlers[h].pc) && t.bindings == s.bindings))
  {
    hide Remembered, Invariant, AfterStop, Fail, Forgotten, DoRestore;
    match s.handlers[h].pc
    case Stopping(_, _) => StoppedBound(s, h, ok, text, grant);
    case Attaching(b) => RememberedThere(s, b);
    case Verifying(b) => VerifiedHere(s, h); RememberedThere(s, b);
    case RestoreVerifying(claimed) =>
      if claimed.session == s.handlers[h].session {
        RestoreBound(s, h, claimed);
      }
    case Auditing(b, previous, started, replaced) => FailUnbound(s, h, b, previous, started, replaced);
    case _ =>
  }

  lemma FailUnbound(s: State, h: nat, b: Binding, previous: Option<Binding>, started: bool, replaced: bool)
    requires h in s.handlers
    ensures var t := Fail(s, h, b, previous, started, replaced);
            h in t.handlers && WorksOn(t.handlers[h].pc).None?
  {
  }

  lemma TakeBound(s: State, h: nat, ok: bool)
    requires Invariant(s) && h in s.handlers
    ensures var t, x := DoTakeChildrenLock(s, h, ok), s.handlers[h].session;
            h in t.handlers
            && (WorksOn(t.handlers[h].pc).Some? ==>
                  Bd(t, x) == WorksOn(t.handlers[h].pc)
                  || (WorksOn(s.handlers[h].pc) == WorksOn(t.handlers[h].pc) && t.bindings == s.bindings))
  {
    hide Invariant, AfterStop, Fail;
    match s.handlers[h].pc
    case Starting(b, previous, replaced) => FailUnbound(s, h, b, previous, true, replaced);
    case StopQueued(next) => QueuedThen(s, h); AfterStopBound(s, h, next);
    case _ =>
  }

  /** In every run, while an activate or restore starts or audits its child, its
      session has the binding it works on, unless another's took its place in a
      full table. */
  lemma {:induction false} BoundWhileAudited(events: seq<Event>, h: nat) returns (k: nat)
    requires h in Run(events).handlers && WorksOn(Run(events).handlers[h].pc).Some?
    ensures k < |events|
    ensures var s := Run(events);
            var x, b := s.handlers[h].session, WorksOn(s.handlers[h].pc);
            && Bd(Run(events[..k + 1]), x) == b
            && (Bd(s, x) == b || (Bd(s, x).None? && EvictedSince(events, k + 1, x)))
  {
    hide Step, EvictedSince, Invariant, WorksOn, Evicts, Bd;
    LastStep(events, h);
    var front, last := events[..|events| - 1], events[|events| - 1];
    var s, t, x := Run(front), Run(events), Run(events).handlers[h].session;
    StepOthers(s, last, h);
    WasThere(s, last, h);
    BoundStep(s, last, h);
    if Bd(t, x) == WorksOn(t.handlers[h].pc) {
      k := |events| - 1;
      assert events[..k + 1] == events;
    } else {
      k := BoundWhileAudited(front, h);
      assert front[..k + 1] == events[..k + 1];
      if Evicts(s, t, x) || EvictedSince(front, k + 1, x) {
        EvictedStill(events, k + 1, x);
      }
      if Evicts(s, t, x) {
        EvictedHasNone(s, t, x);
      }
    }
  }

  lemma EvictedHasNone(s: State, t: State, x: string)
    requires Evicts(s, t, x)
    ensures Bd(t, x).None?
  {
  }

  lemma WasThere(s: State, ev: Event, h: nat)
    requires h in Step(s, ev).handlers && WorksOn(Step(s, ev).handlers[h].pc).Some?
    ensures h in s.handlers
  {
    StepOthers(s, ev, h);
  }

  // ---- what an attach binds ----

  /** The root it was given and what its session was bound to, when its root was
      resolved. */
  lemma {:induction false} IssuesFor(events: seq<Event>, h: nat) returns (i: nat)
    requires h in Run(events).handlers && Run(events).handlers[h].pc.Issuing?
    ensures i < |events| && events[i].Proceed? && events[i].h == h && events[i].ok
    ensures var x, pc := Run(events).handlers[h].session, Run(events).handlers[h].pc;
            pc.root == events[i].text && pc.previous == Bd(Run(events[..i]), x)
  {
    hide Step, Invariant;
    LastStep(events, h);
    var front, last := events[..|events| - 1], events[|events| - 1];
    StepOthers(Run(front), last, h);
    if h in Run(front).handlers && Run(front).handlers[h].pc == Run(events).handlers[h].pc {
      i := IssuesFor(front, h);
      assert front[..i] == events[..i];
    } else {
      i := |events| - 1;
      IssuingFrom(Run(front), last, h);
    }
  }

  lemma IssuingFrom(s: State, ev: Event, h: nat)
    requires h in Step(s, ev).handlers && Step(s, ev).handlers[h].pc.Issuing?
    requires !(h in s.handlers && s.handlers[h].pc == Step(s, ev).handlers[h].pc)
    ensures ev.Proceed? && ev.h == h && ev.ok && h in s.handlers
    ensures Step(s, ev).handlers[h].pc == Issuing(Bd(s, s.handlers[h].session), ev.text)
  {
    hide Remembered, AfterStop, Fail, DoRestore;
    StepOthers(s, ev, h);
    if h in s.handlers {
      NoAttachAfter(s, h);
      forall b ensures Remembered(s, b).Some? ==> Remembered(s, b).value.handlers == s.handlers {
        SameHandlers(s, b);
      }
      if s.handlers[h].pc.Stopping? {
        NoAttachAfter(s.(alive := s.alive - {s.handlers[h].pc.child.id}, childrenLock := None), h);
      }
    }
  }

  predicate Attaches(pc: Pc) {
    pc.Issuing? || pc.Attaching?
  }

  /** Nothing a rollback, a stop or a restore goes on to is an attach. */
  lemma NoAttachAfter(s: State, h: nat)
    requires h in s.handlers
    ensures forall next :: h in AfterStop(s, h, next).handlers && !Attaches(AfterStop(s, h, next).handlers[h].pc)
    ensures forall b, previous, started, replaced ::
              var t := Fail(s, h, b, previous, started, replaced); h in t.handlers && !Attaches(t.handlers[h].pc)
    ensures forall b :: h in DoRestore(s, h, b).handlers && !Attaches(DoRestore(s, h, b).handlers[h].pc)
  {
  }

  lemma AttachingFrom(s: State, ev: Event, h: nat)
    requires h in Step(s, ev).handlers && Step(s, ev).handlers[h].pc.Attaching?
    requires !(h in s.handlers && s.handlers[h].pc == Step(s, ev).handlers[h].pc)
    ensures ev.Proceed? && ev.h == h && ev.ok && h in s.handlers && s.handlers[h].pc.Issuing?
    ensures var previous, b := s.handlers[h].pc.previous, Step(s, ev).handlers[h].pc.b;
            && b.session == s.handlers[h].session && b.root == s.handlers[h].pc.root
            && b.fingerprint == ev.text && b.grant == ev.grant
            && b.revision == (if previous.Some? then previous.value.revision + 1 else 1)
  {
    hide Remembered, AfterStop, Fail, DoRestore;
    StepOthers(s, ev, h);
    if h in s.handlers {
      NoAttachAfter(s, h);
      forall b ensures Remembered(s, b).Some? ==> Remembered(s, b).value.handlers == s.handlers {
        SameHandlers(s, b);
      }
      if s.handlers[h].pc.Stopping? {
        NoAttachAfter(s.(alive := s.alive - {s.handlers[h].pc.child.id}, childrenLock := None), h);
      }
    }
  }

  /** In every run, what an attach will bind is the root that was resolved for it,
      with the fingerprint and grant it was issued, one revision on from what its
      session was bound to. */
  lemma {:induction false} AttachesWhatWasIssued(events: seq<Event>, h: nat) returns (i: nat, j: nat)
    requires h in Run(events).handlers && Run(events).handlers[h].pc.Attaching?
    ensures i < j < |events|
    ensures events[i].Proceed? && events[i].h == h && events[i].ok && events[j].Proceed? && events[j].h == h && events[j].ok
    ensures var x, b := Run(events).handlers[h].session, Run(events).handlers[h].pc.b;
            var before := Bd(Run(events[..i]), x);
            && b.session == x && b.root == events[i].text
            && b.fingerprint == events[j].text && b.grant == events[j].grant
            && b.revision == (if before.Some? then before.value.revision + 1 else 1)
  {
    hide Step, Invariant;
    LastStep(events, h);
    var front, last := events[..|events| - 1], events[|events| - 1];
    StepOthers(Run(front), last, h);
    if h in Run(front).handlers && Run(front).handlers[h].pc == Run(events).handlers[h].pc {
      i, j := AttachesWhatWasIssued(front, h);
      assert front[..i] == events[..i];
    } else {
      j := |events| - 1;
      AttachingFrom(Run(front), last, h);
      i := IssuesFor(front, h);
      assert front[..i] == events[..i];
    }
  }
}
