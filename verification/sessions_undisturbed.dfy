/** Requests that nothing gets in the way of: from any reachable state each comes
    to its end, and the session is then as it asked. */
module SessionsUndisturbed {
  import opened Wrappers
  import opened BindingTables
  import opened Sessions
  import opened SessionsInvariant
  import opened SessionsSteps
  import opened SessionsRuns
  import opened SessionsChildren
  import opened SessionsProgress

  function Go(s: State, events: seq<Event>): State
    decreases |events|
  {
    if events == [] then s else Go(Step(s, events[0]), events[1..])
  }

  lemma {:induction false} RunGoes(events: seq<Event>, more: seq<Event>)
    ensures Run(events + more) == Go(Run(events), more)
    decreases |more|
  {
    if more == [] {
      assert events + more == events;
    } else {
      assert events + more == events + [more[0]] + more[1..];
      assert (events + [more[0]])[..|events|] == events;
      RunGoes(events + [more[0]], more[1..]);
    }
  }

  lemma GoOn(s: State, ev: Event, more: seq<Event>)
    ensures Go(s, [ev] + more) == Go(Step(s, ev), more)
  {
    assert ([ev] + more)[1..] == more;
  }

  /** A handler of x stands there, holding the lock unless it waits for it. */
  ghost predicate Stands(s: State, h: nat, x: string, pc: Pc) {
    && Invariant(s)
    && h in s.handlers && s.handlers[h] == Handler(x, pc)
    && x in s.locks && (if pc.Waiting? then s.locks[x].holder.None? else s.locks[x].holder == Some(h))
  }

  /** The session, its child and the children lock are as they were. */
  ghost predicate SameSession(s: State, t: State, x: string) {
    && SameChildren(s, t) && t.childrenLock == s.childrenLock && Bd(t, x) == Bd(s, x)
  }

  ghost predicate Room(s: State) {
    s.childrenLock.None? && |LiveSessions(s)| < MAX_ACTIVE_CHILD_SESSIONS
  }

  /** The request's handler is gone and the lock is free. */
  ghost predicate Over(s: State, h: nat, x: string) {
    h !in s.handlers && Unlocked(s, x)
  }

  // ---- the stages ----

  lemma Arrives(s: State, h: nat, x: string, request: Request)
    requires Invariant(s) && h !in s.handlers && Unlocked(s, x)
    ensures var t := Step(s, Arrive(h, x, request));
            Stands(t, h, x, Waiting(request)) && SameSession(s, t, x)
  {
    hide Invariant;
    StepKeeps(s, Arrive(h, x, request));
  }

  lemma Enters(s: State, h: nat, x: string, request: Request)
    requires Stands(s, h, x, Waiting(request)) && !CannotServe(s, x, request)
    ensures var t := Step(s, Acquire(h, true));
            && SameSession(s, t, x)
            && match request
               case Attach => Stands(t, h, x, Resolving)
               case Activate(_) => Stands(t, h, x, Verifying(Bd(s, x).value))
               case Restore(b) => Stands(t, h, x, RestoreVerifying(b))
               case Detach => Stands(t, h, x, StopQueued(Detaching))
               case Reap(child) => Stands(t, h, x, ReapAuditing(child))
  {
    hide Invariant;
    StepKeeps(s, Acquire(h, true));
  }

  lemma Resolves(s: State, h: nat, x: string, root: string, grant: string)
    requires Stands(s, h, x, Resolving)
    ensures var t := Step(s, Proceed(h, true, root, grant));
            Stands(t, h, x, Issuing(Bd(s, x), root)) && SameSession(s, t, x)
  {
    hide Invariant;
    StepKeeps(s, Proceed(h, true, root, grant));
  }

  lemma Issues(s: State, h: nat, x: string, previous: Option<Binding>, root: string, fingerprint: string, grant: string)
    requires Stands(s, h, x, Issuing(previous, root))
    ensures var t := Step(s, Proceed(h, true, fingerprint, grant));
            var revision := if previous.Some? then previous.value.revision + 1 else 1;
            Stands(t, h, x, Attaching(Binding(x, root, fingerprint, revision, grant))) && SameSession(s, t, x)
  {
    hide Invariant;
    StepKeeps(s, Proceed(h, true, fingerprint, grant));
  }

  lemma Attaches(s: State, h: nat, x: string, b: Binding)
    requires Stands(s, h, x, Attaching(b)) && b.session == x
    ensures var t := Step(s, Proceed(h, true, [], []));
            Stands(t, h, x, Closing(Plain)) && SameChildren(s, t) && Bd(t, x) == Some(b)
  {
    hide Invariant, Remembered;
    StepKeeps(s, Proceed(h, true, [], []));
    RememberedThere(s, b);
  }

  /** The grant is in order: the binding is remembered, and the child that runs
      on it is kept, or one is to be started. */
  lemma Verifies(s: State, h: nat, x: string, b: Binding)
    requires Stands(s, h, x, Verifying(b)) && Bd(s, x) == Some(b)
    ensures var t := Step(s, Proceed(h, true, [], []));
            && Bd(t, x) == Some(b) && SameChildren(s, t) && t.childrenLock == s.childrenLock
            && Stands(t, h, x, if Live(s, x) then Auditing(b, Some(b), false, false) else Starting(b, Some(b), false))
  {
    hide Invariant, Remembered;
    StepKeeps(s, Proceed(h, true, [], []));
    VerifiedHere(s, h);
    RememberedThere(s, b);
  }

  lemma Restores(s: State, h: nat, x: string, b: Binding)
    requires Stands(s, h, x, RestoreVerifying(b)) && b.session == x && !Stale(Bd(s, x), b)
    ensures var t := Step(s, Proceed(h, true, [], []));
            && SameChildren(s, t) && t.childrenLock == s.childrenLock
            && if Live(s, x) && Bd(s, x) != Some(b)
               then Bd(t, x) == Bd(s, x) && Stands(t, h, x, StopQueued(Replacing(b, Bd(s, x))))
               else Bd(t, x) == Some(b)
                    && Stands(t, h, x, if Live(s, x) then Auditing(b, Bd(s, x), false, false) else Starting(b, Bd(s, x), false))
  {
    hide Invariant, Remembered;
    StepKeeps(s, Proceed(h, true, [], []));
    RememberedThere(s, b);
  }

  lemma Starts(s: State, h: nat, x: string, b: Binding, previous: Option<Binding>, replaced: bool)
    requires Stands(s, h, x, Starting(b, previous, replaced)) && b.session == x && Room(s)
    ensures var t := Step(s, TakeChildrenLock(h, true));
            && Stands(t, h, x, Auditing(b, previous, true, replaced))
            && Runs(t, x, Child(s.nextId, b)) && Bd(t, x) == Bd(s, x) && t.childrenLock.None?
  {
    hide Invariant;
    StepKeeps(s, TakeChildrenLock(h, true));
  }

  lemma Restarts(s: State, h: nat, x: string, prior: Binding)
    requires Stands(s, h, x, Restarting(prior)) && prior.session == x && Room(s)
    ensures var t := Step(s, TakeChildrenLock(h, true));
            && Stands(t, h, x, Closing(RolledBack(Some(prior))))
            && Runs(t, x, Child(s.nextId, prior)) && Bd(t, x) == Bd(s, x) && t.childrenLock.None?
  {
    hide Invariant;
    StepKeeps(s, TakeChildrenLock(h, true));
  }

  lemma Audits(s: State, h: nat, x: string, b: Binding, previous: Option<Binding>, started: bool, replaced: bool, ok: bool)
    requires Stands(s, h, x, Auditing(b, previous, started, replaced)) && (ok || started)
    ensures var t := Step(s, Proceed(h, ok, [], []));
            && SameSession(s, t, x)
            && Stands(t, h, x, if ok then Closing(Plain) else StopQueued(RollingBack(b, previous, replaced)))
  {
    hide Invariant;
    StepKeeps(s, Proceed(h, ok, [], []));
  }

  /** The lock on the children is taken to stop this one. */
  lemma StopsChild(s: State, h: nat, x: string, next: Then)
    requires Stands(s, h, x, StopQueued(next)) && s.childrenLock.None? && x in s.children
    ensures var t := Step(s, TakeChildrenLock(h, true));
            && Stands(t, h, x, Stopping(s.children[x], next)) && Bd(t, x) == Bd(s, x)
            && x !in t.children && t.alive == s.alive && t.nextId == s.nextId
            && LiveSessions(t) == LiveSessions(s) - {x}
            && |LiveSessions(t)| <= (if Live(s, x) then MAX_ACTIVE_CHILD_SESSIONS - 1 else MAX_ACTIVE_CHILD_SESSIONS)
  {
    hide Invariant;
    StepKeeps(s, TakeChildrenLock(h, true));
    var t := Step(s, TakeChildrenLock(h, true));
    FewLive(s);
    FewLive(t);
    if Live(s, x) {
      assert x in LiveSessions(s);
    }
  }

  lemma FewLive(s: State)
    requires Invariant(s)
    ensures |LiveSessions(s)| <= MAX_ACTIVE_CHILD_SESSIONS
  {
  }

  /** The state as the stop ends, before what follows it. */
  ghost predicate StopOver(s: State, t: State, x: string, child: Child) {
    t.children == s.children && t.alive == s.alive - {child.id} && t.nextId == s.nextId && t.childrenLock.None?
  }

  lemma StopEndsThen(s: State, h: nat, x: string, child: Child, next: Then)
    requires Stands(s, h, x, Stopping(child, next))
    requires next.Replacing? || next.RollingBack? ==> next.b.session == x
    requires next.RollingBack? && next.previous.Some? ==> next.previous.value.session == x
    ensures var t := Step(s, Proceed(h, true, [], []));
            && StopOver(s, t, x, child) && LiveSessions(t) <= LiveSessions(s)
            && match next
               case Replacing(b, previous) => Stands(t, h, x, Starting(b, previous, true)) && Bd(t, x) == Some(b)
               case RollingBack(_, previous, restart) =>
                 Bd(t, x) == previous
                 && Stands(t, h, x, if restart && previous.Some? then Restarting(previous.value) else Closing(RolledBack(previous)))
               case Detaching => Stands(t, h, x, DetachAuditing)
               case Reaping(_) => Stands(t, h, x, Closing(Plain)) && Bd(t, x) == Bd(s, x)
  {
    hide Invariant, AfterStop, Remembered, Step, TableOk;
    var u := StopEnded(s, child);
    StepKeeps(s, Proceed(h, true, [], []));
    StopStep(s, h, x, child, next);
    EndsThen(s, h, child);
    AfterStopShape(u, h, x, next);
    SameLockThere(u, h, x, next);
    LiveAfterStop(s, child, AfterStop(u, h, next));
  }

  ghost function StopEnded(s: State, child: Child): State {
    s.(alive := s.alive - {child.id}, childrenLock := None)
  }

  lemma StopStep(s: State, h: nat, x: string, child: Child, next: Then)
    requires h in s.handlers && s.handlers[h] == Handler(x, Stopping(child, next))
    ensures Step(s, Proceed(h, true, [], [])) == AfterStop(StopEnded(s, child), h, next)
    ensures StopEnded(s, child).handlers == s.handlers && StopEnded(s, child).locks == s.locks
  {
    hide AfterStop;
  }

  lemma LiveAfterStop(s: State, child: Child, t: State)
    requires SameChildren(StopEnded(s, child), t)
    ensures LiveSessions(t) <= LiveSessions(s)
  {
  }

  lemma SameLockThere(s: State, h: nat, x: string, next: Then)
    requires h in s.handlers
    ensures AfterStop(s, h, next).locks == s.locks
  {
  }

  ghost predicate Remembers(s: State, b: Binding) {
    Remembered(s, b).Some? && Bd(Remembered(s, b).value, b.session) == Some(b)
  }

  /** With the stop over, the table can take any binding. */
  lemma EndsThen(s: State, h: nat, child: Child)
    requires Invariant(s) && IsStopping(s, h) && s.handlers[h].pc.child == child
    ensures TableOk(StopEnded(s, child))
    ensures forall b :: Remembers(StopEnded(s, child), b)
  {
    hide Invariant, Acted, Remembered;
    StopEnds(s, h);
    ActedKeeps(s, Stopped(s, h), h);
    TableOf(Stopped(s, h));
    forall b ensures Remembers(StopEnded(s, child), b) {
      RememberedThere(Stopped(s, h), b);
      RememberedAlike(Stopped(s, h), StopEnded(s, child), b);
    }
  }

  lemma TableOf(s: State)
    requires Invariant(s)
    ensures TableOk(s)
  {
  }

  lemma RememberedAlike(s: State, t: State, b: Binding)
    requires t.bindings == s.bindings && t.children == s.children && t.alive == s.alive
    ensures Remembers(s, b) == Remembers(t, b)
  {
    assert LiveSessions(s) == LiveSessions(t);
  }

  lemma AfterStopShape(u: State, h: nat, x: string, next: Then)
    requires h in u.handlers && u.handlers[h].session == x && TableOk(u)
    requires forall b :: Remembers(u, b)
    requires next.Replacing? || next.RollingBack? ==> next.b.session == x
    requires next.RollingBack? && next.previous.Some? ==> next.previous.value.session == x
    ensures var t := AfterStop(u, h, next);
            && SameChildren(u, t) && t.childrenLock == u.childrenLock
            && h in t.handlers && t.handlers[h].session == x
            && match next
               case Replacing(b, previous) => t.handlers[h].pc == Starting(b, previous, true) && Bd(t, x) == Some(b)
               case RollingBack(_, previous, restart) =>
                 Bd(t, x) == previous
                 && t.handlers[h].pc ==
                    (if restart && previous.Some? then Restarting(previous.value) else Closing(RolledBack(previous)))
               case Detaching => t.handlers[h].pc == DetachAuditing && Bd(t, x) == Bd(u, x)
               case Reaping(_) => t.handlers[h].pc == Closing(Plain) && Bd(t, x) == Bd(u, x)
  {
    hide Remembered;
    match next
    case Replacing(b, _) =>
      assert Remembers(u, b);
      SameHandlers(u, b);
      RememberedRest(u, b);
    case RollingBack(_, previous, _) =>
      if previous.Some? {
        assert Remembers(u, previous.value);
        SameHandlers(u, previous.value);
        RememberedRest(u, previous.value);
      } else {
        PopBound(u.bindings, x, x);
      }
    case _ =>
  }

  lemma RememberedRest(s: State, b: Binding)
    ensures Remembered(s, b).Some? ==>
              SameChildren(s, Remembered(s, b).value) && Remembered(s, b).value.childrenLock == s.childrenLock
              && Remembered(s, b).value.locks == s.locks
  {
  }

  lemma NothingToStop(s: State, h: nat, x: string)
    requires Stands(s, h, x, StopQueued(Detaching)) && s.childrenLock.None? && x !in s.children
    ensures var t := Step(s, TakeChildrenLock(h, true));
            Stands(t, h, x, DetachAuditing) && SameSession(s, t, x)
  {
    hide Invariant;
    StepKeeps(s, TakeChildrenLock(h, true));
  }

  lemma Detaches(s: State, h: nat, x: string)
    requires Stands(s, h, x, DetachAuditing)
    ensures var t := Step(s, Proceed(h, true, [], []));
            && Stands(t, h, x, Closing(Plain)) && SameChildren(s, t) && Bd(t, x).None?
  {
    hide Invariant;
    StepKeeps(s, Proceed(h, true, [], []));
    ForgottenGone(s, x);
  }

  lemma ReapAudited(s: State, h: nat, x: string, chosen: nat)
    requires Stands(s, h, x, ReapAuditing(chosen))
    ensures var t := Step(s, Proceed(h, true, [], []));
            Stands(t, h, x, StopQueued(Reaping(chosen))) && SameSession(s, t, x)
  {
    hide Invariant;
    StepKeeps(s, Proceed(h, true, [], []));
  }

  lemma Leaves(s: State, h: nat, x: string, outcome: Outcome)
    requires Stands(s, h, x, Closing(outcome))
    ensures var t := Step(s, Release(h));
            Over(t, h, x) && SameSession(s, t, x) && Invariant(t)
  {
    hide Invariant;
    StepKeeps(s, Release(h));
  }

  // ---- whole requests ----

  /** An attach binds its session to what it resolved and was issued, one
      revision on. */
  lemma {:induction false} UndisturbedAttach(events: seq<Event>, h: nat, x: string, root: string, fingerprint: string,
                                             grant: string)
    requires var s := Run(events); h !in s.handlers && Unlocked(s, x) && !Live(s, x)
    ensures var s := Run(events);
            var t := Run(events + [Arrive(h, x, Attach), Acquire(h, true), Proceed(h, true, root, []),
                                   Proceed(h, true, fingerprint, grant), Proceed(h, true, [], []), Release(h)]);
            && Over(t, h, x) && SameChildren(s, t)
            && Bd(t, x) == Some(Binding(x, root, fingerprint, if Bd(s, x).Some? then Bd(s, x).value.revision + 1 else 1, grant))
  {
    hide Run, Step, Stands;
    RunKeeps(events);
    var s0 := Run(events);
    Arrives(s0, h, x, Attach);
    var s1 := Step(s0, Arrive(h, x, Attach));
    Enters(s1, h, x, Attach);
    var s2 := Step(s1, Acquire(h, true));
    Resolves(s2, h, x, root, []);
    var s3 := Step(s2, Proceed(h, true, root, []));
    Issues(s3, h, x, Bd(s2, x), root, fingerprint, grant);
    var s4 := Step(s3, Proceed(h, true, fingerprint, grant));
    var b := Binding(x, root, fingerprint, if Bd(s2, x).Some? then Bd(s2, x).value.revision + 1 else 1, grant);
    Attaches(s4, h, x, b);
    var s5 := Step(s4, Proceed(h, true, [], []));
    Leaves(s5, h, x, Plain);
    var first := [Arrive(h, x, Attach), Acquire(h, true), Proceed(h, true, root, [])];
    var last := [Proceed(h, true, fingerprint, grant), Proceed(h, true, [], []), Release(h)];
    GoThree(s0, first[0], first[1], first[2], last);
    assert last == last + [];
    GoThree(s3, last[0], last[1], last[2], []);
    RunGoes(events, first + last);
    assert first + last == [Arrive(h, x, Attach), Acquire(h, true), Proceed(h, true, root, []),
                            Proceed(h, true, fingerprint, grant), Proceed(h, true, [], []), Release(h)];
  }

  /** An activate leaves its session's binding with a child that runs on it. */
  lemma {:induction false} UndisturbedActivate(events: seq<Event>, h: nat, x: string, b: Binding)
    requires var s := Run(events);
             h !in s.handlers && Unlocked(s, x) && Bd(s, x) == Some(b) && (Live(s, x) || Room(s))
    ensures var s := Run(events);
            var start := if Live(s, x) then [] else [TakeChildrenLock(h, true)];
            var t := Run(events + ([Arrive(h, x, Activate(b.revision)), Acquire(h, true), Proceed(h, true, [], [])]
                                   + (start + [Proceed(h, true, [], []), Release(h)])));
            && Over(t, h, x) && Bd(t, x) == Some(b)
            && x in t.children && t.children[x].binding == b && t.children[x].id in t.alive
            && (Live(s, x) ==> SameChildren(s, t))
  {
    hide Run, Step, Stands, Invariant, LiveSessions;
    RunKeeps(events);
    var s0 := Run(events);
    OwnSession(s0, x);
    Arrives(s0, h, x, Activate(b.revision));
    var s1 := Step(s0, Arrive(h, x, Activate(b.revision)));
    Enters(s1, h, x, Activate(b.revision));
    var s2 := Step(s1, Acquire(h, true));
    Verifies(s2, h, x, b);
    var s3 := Step(s2, Proceed(h, true, [], []));
    SameLive(s0, s3);
    var last := [Proceed(h, true, [], []), Release(h)];
    if Live(s0, x) {
      FinishesAudit(s3, h, x, b, Some(b), false, false);
      assert [] + last == last;
      RunGoes(events, [Arrive(h, x, Activate(b.revision)), Acquire(h, true), Proceed(h, true, [], [])] + last);
      GoThree(s0, Arrive(h, x, Activate(b.revision)), Acquire(h, true), Proceed(h, true, [], []), last);
    } else {
      Starts(s3, h, x, b, Some(b), false);
      var s4 := Step(s3, TakeChildrenLock(h, true));
      FinishesAudit(s4, h, x, b, Some(b), true, false);
      GoOn(s3, TakeChildrenLock(h, true), last);
      RunGoes(events, [Arrive(h, x, Activate(b.revision)), Acquire(h, true), Proceed(h, true, [], [])]
                      + ([TakeChildrenLock(h, true)] + last));
      GoThree(s0, Arrive(h, x, Activate(b.revision)), Acquire(h, true), Proceed(h, true, [], []),
              [TakeChildrenLock(h, true)] + last);
    }
  }

  lemma OwnSession(s: State, x: string)
    requires Invariant(s)
    ensures Bd(s, x).Some? ==> Bd(s, x).value.session == x
    ensures Live(s, x) && Bd(s, x).Some? ==> s.children[x].binding == Bd(s, x).value
  {
    assert SessionOk(s, x);
  }

  lemma SameLive(s: State, t: State)
    requires SameChildren(s, t) && t.childrenLock == s.childrenLock
    ensures LiveSessions(t) == LiveSessions(s) && (Room(s) <==> Room(t)) && forall x :: Live(s, x) == Live(t, x)
  {
    assert LiveSessions(t) == LiveSessions(s);
  }

  lemma GoThree(s: State, e1: Event, e2: Event, e3: Event, more: seq<Event>)
    ensures Go(s, [e1, e2, e3] + more) == Go(Step(Step(Step(s, e1), e2), e3), more)
  {
    assert [e1, e2, e3] + more == [e1] + ([e2] + ([e3] + more));
    GoOn(s, e1, [e2] + ([e3] + more));
    GoOn(Step(s, e1), e2, [e3] + more);
    GoOn(Step(Step(s, e1), e2), e3, more);
  }

  lemma FinishesAudit(s: State, h: nat, x: string, b: Binding, previous: Option<Binding>, started: bool, replaced: bool)
    requires Stands(s, h, x, Auditing(b, previous, started, replaced))
    ensures var t := Go(s, [Proceed(h, true, [], []), Release(h)]);
            Over(t, h, x) && SameSession(s, t, x)
  {
    hide Step, Stands, Invariant;
    Audits(s, h, x, b, previous, started, replaced, true);
    var t := Step(s, Proceed(h, true, [], []));
    Leaves(t, h, x, Plain);
    GoTwo(s, Proceed(h, true, [], []), Release(h), []);
    assert [Proceed(h, true, [], []), Release(h)] + [] == [Proceed(h, true, [], []), Release(h)];
  }

  /** The stop and start that a restore needs where another child runs, or the
      start alone where none does. */
  function ChildSteps(s: State, h: nat, x: string, b: Binding): seq<Event> {
    if !Live(s, x) then [TakeChildrenLock(h, true)]
    else if Bd(s, x) == Some(b) then []
    else [TakeChildrenLock(h, true), Proceed(h, true, [], []), TakeChildrenLock(h, true)]
  }

  /** From a verified grant on, the session gets the binding and a child on it,
      which is what the audit finds. */
  lemma RestoresChild(s: State, h: nat, x: string, b: Binding)
    requires Stands(s, h, x, RestoreVerifying(b)) && b.session == x && !Stale(Bd(s, x), b)
    requires s.childrenLock.None? && (Live(s, x) || Room(s))
    ensures var t := Go(s, [Proceed(h, true, [], [])] + ChildSteps(s, h, x, b));
            && Bd(t, x) == Some(b) && t.childrenLock.None?
            && x in t.children && Runs(t, x, t.children[x]) && t.children[x].binding == b
            && var replaced := Live(s, x) && Bd(s, x) != Some(b);
               Stands(t, h, x, Auditing(b, Bd(s, x), !Live(s, x) || replaced, replaced))
               && (replaced ==> s.children[x].id !in t.alive)
  {
    hide Step, Stands, Invariant, LiveSessions;
    InvariantOf(s, h, x, RestoreVerifying(b));
    OwnSession(s, x);
    Restores(s, h, x, b);
    var s1 := Step(s, Proceed(h, true, [], []));
    SameLive(s, s1);
    GoOn(s, Proceed(h, true, [], []), ChildSteps(s, h, x, b));
    if !Live(s, x) {
      Starts(s1, h, x, b, Bd(s, x), false);
      assert [TakeChildrenLock(h, true)][1..] == [];
    } else if Bd(s, x) != Some(b) {
      ReplacesChild(s1, h, x, b, Bd(s, x));
    }
  }

  lemma InvariantOf(s: State, h: nat, x: string, pc: Pc)
    requires Stands(s, h, x, pc)
    ensures Invariant(s)
  {
  }

  lemma ReplacesChild(s: State, h: nat, x: string, b: Binding, previous: Option<Binding>)
    requires Stands(s, h, x, StopQueued(Replacing(b, previous))) && b.session == x
    requires s.childrenLock.None? && Live(s, x)
    ensures var t := Go(s, [TakeChildrenLock(h, true), Proceed(h, true, [], []), TakeChildrenLock(h, true)]);
            && Bd(t, x) == Some(b) && t.childrenLock.None?
            && x in t.children && Runs(t, x, t.children[x]) && t.children[x].binding == b
            && Stands(t, h, x, Auditing(b, previous, true, true))
            && s.children[x].id !in t.alive
  {
    hide Step, Stands, Invariant, LiveSessions;
    var child, next := s.children[x], Replacing(b, previous);
    InvariantOf(s, h, x, StopQueued(next));
    StopsChild(s, h, x, next);
    var s1 := Step(s, TakeChildrenLock(h, true));
    StopEndsThen(s1, h, x, child, next);
    var s2 := Step(s1, Proceed(h, true, [], []));
    SubsetSize(LiveSessions(s2), LiveSessions(s1));
    Starts(s2, h, x, b, previous, true);
    StartedAlive(s2, h, x, b, previous, true);
    OldId(s, x);
    assert [TakeChildrenLock(h, true), Proceed(h, true, [], []), TakeChildrenLock(h, true)] ==
           [TakeChildrenLock(h, true), Proceed(h, true, [], []), TakeChildrenLock(h, true)] + [];
    GoThree(s, TakeChildrenLock(h, true), Proceed(h, true, [], []), TakeChildrenLock(h, true), []);
  }

  lemma StartedAlive(s: State, h: nat, x: string, b: Binding, previous: Option<Binding>, replaced: bool)
    requires Stands(s, h, x, Starting(b, previous, replaced)) && Room(s)
    ensures Step(s, TakeChildrenLock(h, true)).alive == s.alive + {s.nextId}
  {
  }

  lemma OldId(s: State, x: string)
    requires Invariant(s)
    ensures x in s.children ==> s.children[x].id < s.nextId
  {
    assert SessionOk(s, x);
  }

  /** A restore leaves its session bound to what its grant claims, with a child
      that runs on it; a child that ran on another binding is gone. */
  lemma {:induction false} UndisturbedRestore(events: seq<Event>, h: nat, b: Binding)
    requires var s, x := Run(events), b.session;
             && h !in s.handlers && Unlocked(s, x) && !Stale(Bd(s, x), b)
             && s.childrenLock.None? && (Live(s, x) || Room(s))
    ensures var s, x := Run(events), b.session;
            var t := Run(events + ([Arrive(h, x, Restore(b)), Acquire(h, true)]
                                   + (([Proceed(h, true, [], [])] + ChildSteps(s, h, x, b))
                                      + [Proceed(h, true, [], []), Release(h)])));
            && Over(t, h, x) && Bd(t, x) == Some(b)
            && x in t.children && t.children[x].binding == b && t.children[x].id in t.alive
            && (Live(s, x) && Bd(s, x) != Some(b) ==> s.children[x].id !in t.alive)
  {
    hide Run, Step, Stands, Invariant, LiveSessions;
    var x := b.session;
    RunKeeps(events);
    var s0 := Run(events);
    Arrives(s0, h, x, Restore(b));
    var s1 := Step(s0, Arrive(h, x, Restore(b)));
    Enters(s1, h, x, Restore(b));
    var s2 := Step(s1, Acquire(h, true));
    SameLive(s0, s2);
    RestoresChild(s2, h, x, b);
    var middle, last := [Proceed(h, true, [], [])] + ChildSteps(s0, h, x, b), [Proceed(h, true, [], []), Release(h)];
    var s3 := Go(s2, middle);
    var replaced := Live(s0, x) && Bd(s0, x) != Some(b);
    FinishesAudit(s3, h, x, b, Bd(s0, x), !Live(s0, x) || replaced, replaced);
    GoBoth(s2, middle, last);
    RunGoes(events, [Arrive(h, x, Restore(b)), Acquire(h, true)] + (middle + last));
    GoTwo(s0, Arrive(h, x, Restore(b)), Acquire(h, true), middle + last);
  }

  lemma {:induction false} GoBoth(s: State, a: seq<Event>, b: seq<Event>)
    ensures Go(s, a + b) == Go(Go(s, a), b)
    decreases |a|
  {
    if a == [] {
      assert a + b == b;
    } else {
      assert (a + b)[0] == a[0] && (a + b)[1..] == a[1..] + b;
      GoBoth(Step(s, a[0]), a[1..], b);
    }
  }

  lemma GoTwo(s: State, e1: Event, e2: Event, more: seq<Event>)
    ensures Go(s, [e1, e2] + more) == Go(Step(Step(s, e1), e2), more)
  {
    assert [e1, e2] + more == [e1] + ([e2] + more);
    GoOn(s, e1, [e2] + more);
    GoOn(Step(s, e1), e2, more);
  }

  /** A restore that replaced a child and could not be audited puts the binding
      back, with a child on it again. */
  lemma {:induction false} UndisturbedRollBack(events: seq<Event>, h: nat, b: Binding, prior: Binding)
    requires var s, x := Run(events), b.session;
             && h !in s.handlers && Unlocked(s, x) && !Stale(Bd(s, x), b)
             && s.childrenLock.None? && Live(s, x) && Bd(s, x) == Some(prior) && prior != b
    ensures var s, x := Run(events), b.session;
            var t := Run(events + ([Arrive(h, x, Restore(b)), Acquire(h, true)]
                                   + (([Proceed(h, true, [], [])] + ChildSteps(s, h, x, b))
                                      + [Proceed(h, false, [], []), TakeChildrenLock(h, true), Proceed(h, true, [], []),
                                         TakeChildrenLock(h, true), Release(h)])));
            && Over(t, h, x) && Bd(t, x) == Some(prior)
            && x in t.children && t.children[x].binding == prior && t.children[x].id in t.alive
  {
    hide Run, Step, Stands, Invariant, LiveSessions;
    var x := b.session;
    RunKeeps(events);
    var s0 := Run(events);
    OwnSession(s0, x);
    Arrives(s0, h, x, Restore(b));
    var s1 := Step(s0, Arrive(h, x, Restore(b)));
    Enters(s1, h, x, Restore(b));
    var s2 := Step(s1, Acquire(h, true));
    SameLive(s0, s2);
    RestoresChild(s2, h, x, b);
    var middle := [Proceed(h, true, [], [])] + ChildSteps(s0, h, x, b);
    var last := [Proceed(h, false, [], []), TakeChildrenLock(h, true), Proceed(h, true, [], []), TakeChildrenLock(h, true), Release(h)];
    var s3 := Go(s2, middle);
    RollsBackUndisturbed(s3, h, x, b, prior);
    GoBoth(s2, middle, last);
    RunGoes(events, [Arrive(h, x, Restore(b)), Acquire(h, true)] + (middle + last));
    GoTwo(s0, Arrive(h, x, Restore(b)), Acquire(h, true), middle + last);
  }

  lemma RollsBackUndisturbed(s: State, h: nat, x: string, b: Binding, prior: Binding)
    requires Stands(s, h, x, Auditing(b, Some(prior), true, true)) && b.session == x && prior.session == x
    requires s.childrenLock.None? && Live(s, x)
    ensures var t := Go(s, [Proceed(h, false, [], []), TakeChildrenLock(h, true), Proceed(h, true, [], []),
                            TakeChildrenLock(h, true), Release(h)]);
            && Over(t, h, x) && Bd(t, x) == Some(prior)
            && x in t.children && t.children[x].binding == prior && t.children[x].id in t.alive
  {
    hide Step, Stands, Invariant, LiveSessions;
    var next := RollingBack(b, Some(prior), true);
    Audits(s, h, x, b, Some(prior), true, true, false);
    var s1 := Step(s, Proceed(h, false, [], []));
    InvariantOf(s1, h, x, StopQueued(next));
    SameLive(s, s1);
    StopsChild(s1, h, x, next);
    var s2 := Step(s1, TakeChildrenLock(h, true));
    StopEndsThen(s2, h, x, s1.children[x], next);
    var s3 := Step(s2, Proceed(h, true, [], []));
    SubsetSize(LiveSessions(s3), LiveSessions(s2));
    Restarts(s3, h, x, prior);
    var s4 := Step(s3, TakeChildrenLock(h, true));
    Leaves(s4, h, x, RolledBack(Some(prior)));
    GoThree(s, Proceed(h, false, [], []), TakeChildrenLock(h, true), Proceed(h, true, [], []),
            [TakeChildrenLock(h, true), Release(h)]);
    assert [TakeChildrenLock(h, true), Release(h)] == [TakeChildrenLock(h, true), Release(h)] + [];
    GoTwo(s3, TakeChildrenLock(h, true), Release(h), []);
    assert [Proceed(h, false, [], []), TakeChildrenLock(h, true), Proceed(h, true, [], []), TakeChildrenLock(h, true), Release(h)]
           == [Proceed(h, false, [], []), TakeChildrenLock(h, true), Proceed(h, true, [], [])]
              + [TakeChildrenLock(h, true), Release(h)];
  }

  /** A detach leaves its session without binding and without child. */
  lemma {:induction false} UndisturbedDetach(events: seq<Event>, h: nat, x: string)
    requires var s := Run(events); h !in s.handlers && Unlocked(s, x) && s.childrenLock.None?
    ensures var s := Run(events);
            var stop := if x in s.children then [Proceed(h, true, [], [])] else [];
            var t := Run(events + ([Arrive(h, x, Detach), Acquire(h, true), TakeChildrenLock(h, true)]
                                   + (stop + [Proceed(h, true, [], []), Release(h)])));
            && Over(t, h, x) && Bd(t, x).None? && x !in t.children
            && (x in s.children ==> s.children[x].id !in t.alive)
  {
    hide Run, Step, Stands, Invariant, LiveSessions;
    RunKeeps(events);
    var s0 := Run(events);
    Arrives(s0, h, x, Detach);
    var s1 := Step(s0, Arrive(h, x, Detach));
    Enters(s1, h, x, Detach);
    var s2 := Step(s1, Acquire(h, true));
    var s3 := Step(s2, TakeChildrenLock(h, true));
    var last := [Proceed(h, true, [], []), Release(h)];
    var start := [Arrive(h, x, Detach), Acquire(h, true), TakeChildrenLock(h, true)];
    if x in s0.children {
      StopsChild(s2, h, x, Detaching);
      StopEndsThen(s3, h, x, s0.children[x], Detaching);
      var s4 := Step(s3, Proceed(h, true, [], []));
      FinishesDetach(s4, h, x);
      GoOn(s3, Proceed(h, true, [], []), last);
      RunGoes(events, start + ([Proceed(h, true, [], [])] + last));
      GoThree(s0, Arrive(h, x, Detach), Acquire(h, true), TakeChildrenLock(h, true), [Proceed(h, true, [], [])] + last);
    } else {
      NothingToStop(s2, h, x);
      FinishesDetach(s3, h, x);
      assert [] + last == last;
      RunGoes(events, start + last);
      GoThree(s0, Arrive(h, x, Detach), Acquire(h, true), TakeChildrenLock(h, true), last);
    }
  }

  lemma FinishesDetach(s: State, h: nat, x: string)
    requires Stands(s, h, x, DetachAuditing)
    ensures var t := Go(s, [Proceed(h, true, [], []), Release(h)]);
            Over(t, h, x) && SameChildren(s, t) && Bd(t, x).None?
  {
    hide Step, Stands, Invariant;
    Detaches(s, h, x);
    Leaves(Step(s, Proceed(h, true, [], [])), h, x, Plain);
    GoTwo(s, Proceed(h, true, [], []), Release(h), []);
    assert [Proceed(h, true, [], []), Release(h)] + [] == [Proceed(h, true, [], []), Release(h)];
  }

  /** A reap leaves its session without the child and with its binding. */
  lemma {:induction false} UndisturbedReap(events: seq<Event>, h: nat, x: string)
    requires var s := Run(events); h !in s.handlers && Unlocked(s, x) && s.childrenLock.None? && x in s.children
    ensures var s := Run(events);
            var t := Run(events + ([Arrive(h, x, Reap(s.children[x].id)), Acquire(h, true), Proceed(h, true, [], [])]
                                   + [TakeChildrenLock(h, true), Proceed(h, true, [], []), Release(h)]));
            && Over(t, h, x) && Bd(t, x) == Bd(s, x) && x !in t.children && s.children[x].id !in t.alive
  {
    hide Run, Step, Stands, Invariant, LiveSessions;
    RunKeeps(events);
    var s0 := Run(events);
    var child := s0.children[x];
    Arrives(s0, h, x, Reap(child.id));
    var s1 := Step(s0, Arrive(h, x, Reap(child.id)));
    Enters(s1, h, x, Reap(child.id));
    var s2 := Step(s1, Acquire(h, true));
    ReapAudited(s2, h, x, child.id);
    var s3 := Step(s2, Proceed(h, true, [], []));
    StopsChild(s3, h, x, Reaping(child.id));
    var s4 := Step(s3, TakeChildrenLock(h, true));
    StopEndsThen(s4, h, x, child, Reaping(child.id));
    var s5 := Step(s4, Proceed(h, true, [], []));
    Leaves(s5, h, x, Plain);
    var more := [TakeChildrenLock(h, true), Proceed(h, true, [], []), Release(h)];
    RunGoes(events, [Arrive(h, x, Reap(child.id)), Acquire(h, true), Proceed(h, true, [], [])] + more);
    GoThree(s0, Arrive(h, x, Reap(child.id)), Acquire(h, true), Proceed(h, true, [], []), more);
    assert more == more + [];
    GoThree(s3, TakeChildrenLock(h, true), Proceed(h, true, [], []), Release(h), []);
  }

  /** A child that ends by itself is forgotten once its callback has run, unless
      its session has another by then; nothing else changes. */
  lemma {:induction false} EndedChildLeaves(events: seq<Event>, x: string)
    requires x in Run(events).children
    ensures var s := Run(events);
            var id := s.children[x].id;
            Run(events + [ChildEnds(id), ChildCallback(x, id)]) ==
            s.(alive := s.alive - {id}, children := s.children - {x})
  {
    var s := Run(events);
    var id := s.children[x].id;
    RunGoes(events, [ChildEnds(id), ChildCallback(x, id)]);
    assert [ChildEnds(id), ChildCallback(x, id)] == [ChildEnds(id), ChildCallback(x, id)] + [];
    GoTwo(s, ChildEnds(id), ChildCallback(x, id), []);
    hide Run;
  }

  /** A handler that is cancelled while it waits for its session's lock is gone
      without a trace: the lock keeps its other users and its holder. */
  lemma {:induction false} CancelledWaiterLeaves(events: seq<Event>, h: nat)
    requires h in Run(events).handlers && Run(events).handlers[h].pc.Waiting?
    ensures var s, t := Run(events), Step(Run(events), Cancel(h));
            var x := s.handlers[h].session;
            && t.handlers == s.handlers - {h} && t == s.(handlers := t.handlers, locks := t.locks)
            && t.locks - {x} == s.locks - {x}
            && if exists k :: k != h && k in s.handlers && s.handlers[k].session == x
               then x in t.locks && t.locks[x].holder == s.locks[x].holder
               else x !in t.locks
  {
    hide Run, Step, Leave;
    RunKeeps(events);
    WaiterLeft(Run(events), h);
  }

  lemma WaiterLeft(s: State, h: nat)
    requires Invariant(s) && h in s.handlers && s.handlers[h].pc.Waiting?
    ensures var t, x := Step(s, Cancel(h)), s.handlers[h].session;
            && x in s.locks && t == Leave(s, h, s.locks[x].holder)
            && t.handlers == s.handlers - {h} && t == s.(handlers := t.handlers, locks := t.locks)
            && (x in t.locks <==> exists k :: k != h && k in s.handlers && s.handlers[k].session == x)
            && t.locks - {x} == s.locks - {x} && (x in t.locks ==> t.locks[x].holder == s.locks[x].holder)
  {
    var x := s.handlers[h].session;
    LeaveUsers(s, h, s.locks[x].holder);
    var t := Leave(s, h, s.locks[x].holder);
    if k :| k != h && k in s.handlers && s.handlers[k].session == x {
      assert k in Users(t, x);
    }
    if x in t.locks {
      var k :| k in Users(t, x);
      assert k != h && k in s.handlers;
    }
    hide Users, Invariant;
  }
}
