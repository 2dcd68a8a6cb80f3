/** The session manager over every run. */
module SessionsRuns {
  import opened Wrappers
  import opened BindingTables
  import opened Sessions
  import opened SessionsInvariant
  import opened SessionsSteps

  // ---- starting and stopping a child ----

  lemma ImageSize<S, T>(keys: set<S>, f: S -> T, image: set<T>)
    requires forall y | y in image :: exists x :: x in keys && f(x) == y
    ensures |image| <= |keys|
    decreases keys
  {
    if image != {} {
      var y :| y in image;
      var x :| x in keys && f(x) == y;
      forall z | z in image - {y} ensures exists w :: w in keys - {x} && f(w) == z {
        var w :| w in keys && f(w) == z;
        assert w in keys - {x};
      }
      ImageSize(keys - {x}, f, image - {y});
    }
  }

  /** With the children lock free, the live tasks are the registered ones. */
  lemma AliveAreLive(s: State)
    requires ChildrenOk(s) && s.childrenLock.None?
    ensures |s.alive| <= |LiveSessions(s)|
  {
    var f := (x: string) => if x in s.children then s.children[x].id else 0;
    forall id | id in s.alive ensures exists x :: x in LiveSessions(s) && f(x) == id {
      assert Accounted(s, id);
      var x :| x in s.children && s.children[x].id == id;
      assert x in LiveSessions(s) && f(x) == id;
    }
    ImageSize(LiveSessions(s), f, s.alive);
  }

  lemma StartedAccounted(s: State, h: nat, b: Binding, pc: Pc, id: nat)
    requires ChildrenOk(s) && s.childrenLock.None? && h in s.handlers && !Live(s, b.session)
    requires id in Started(s, b).alive
    ensures id < s.nextId + 1 && Accounted(At(Started(s, b), h, pc), id)
  {
    var t := At(Started(s, b), h, pc);
    if id == s.nextId {
      assert t.children[b.session].id == id;
    } else {
      AliveAreLive(s);
      assert Accounted(s, id);
      var x :| x in s.children && s.children[x].id == id;
      assert x != b.session;
      assert x in t.children && t.children[x].id == id;
    }
  }

  lemma StartedChildren(s: State, h: nat, b: Binding, pc: Pc)
    requires ChildrenOk(s) && s.childrenLock.None? && h in s.handlers && !pc.Stopping?
    requires !s.handlers[h].pc.Stopping? && !Live(s, b.session)
    requires |LiveSessions(s)| < MAX_ACTIVE_CHILD_SESSIONS
    requires forall x | x in s.children :: s.children[x].id < s.nextId
    ensures ChildrenOk(At(Started(s, b), h, pc))
  {
    var t := At(Started(s, b), h, pc);
    AliveAreLive(s);
    assert LiveSessions(t) <= LiveSessions(s) + {b.session};
    SubsetSize(LiveSessions(t), LiveSessions(s) + {b.session});
    forall id | id in t.alive ensures id < t.nextId && Accounted(t, id) {
      StartedAccounted(s, h, b, pc, id);
    }
    assert forall k: nat | IsStopping(t, k) :: IsStopping(s, k);
  }

  lemma ChildIds(s: State)
    requires Invariant(s)
    ensures forall x | x in s.children :: s.children[x].id < s.nextId
  {
    forall x | x in s.children ensures s.children[x].id < s.nextId {
      assert SessionOk(s, x);
    }
  }

  /** A change to one session's child leaves every other session alone. */
  lemma OnlyChild(s: State, t: State, x: string)
    requires t.bindings == s.bindings && t.history == s.history && t.locks == s.locks && s.nextId <= t.nextId
    requires forall y | y != x && y in t.children :: y in s.children && t.children[y] == s.children[y]
    requires OldOrNew(s, t) && forall y | y in s.children :: s.children[y].id < s.nextId
    ensures forall y | y != x :: Untouched(s, t, y)
  {
  }

  /** Starting a child on the binding the session has. */
  lemma StartOn(s: State, h: nat, b: Binding, pc: Pc)
    requires Invariant(s) && s.childrenLock.None? && h in s.handlers && s.handlers[h].session == b.session
    requires !s.handlers[h].pc.Waiting? && !s.handlers[h].pc.Stopping?
    requires pc.Auditing? || (pc.Closing? && pc.outcome == RolledBack(Some(b)))
    requires pc.Auditing? ==> pc.b == b && pc.started && Undoes(s, b.session, pc.previous)
    requires pc.Closing? ==> Undoes(s, b.session, Some(b))
    requires !Live(s, b.session) && BoundTo(s, b.session, b) && Newer(s, b.session, b)
    requires |LiveSessions(s)| < MAX_ACTIVE_CHILD_SESSIONS
    ensures Acted(s, At(Started(s, b), h, pc), h)
  {
    hide ChildrenOk, TableOk, Untouched, LocksOk, LiveSessions, Bd, Past;
    var t, x := At(Started(s, b), h, pc), b.session;
    ChildIds(s);
    StartedChildren(s, h, b, pc);
    OnlyChild(s, t, x);
    assert SessionOk(s, x);
    Held(s, h);
    SameView(s, t);
  }

  lemma SameView(s: State, t: State)
    requires t.bindings == s.bindings && t.history == s.history
    ensures TableOk(s) ==> TableOk(t)
    ensures forall x :: Bd(t, x) == Bd(s, x) && Past(t, x) == Past(s, x)
  {
  }

  lemma StopBeginsChildren(s: State, h: nat, x: string, pc: Pc)
    requires ChildrenOk(s) && s.childrenLock.None? && h in s.handlers && !s.handlers[h].pc.Stopping?
    requires x in s.children && pc.Stopping? && pc.child == s.children[x]
    ensures ChildrenOk(At(s.(children := s.children - {x}, childrenLock := Some(h)), h, pc))
  {
    var t := At(s.(children := s.children - {x}, childrenLock := Some(h)), h, pc);
    assert LiveSessions(t) <= LiveSessions(s);
    SubsetSize(LiveSessions(t), LiveSessions(s));
    forall id | id in t.alive ensures Accounted(t, id) {
      assert Accounted(s, id);
      var y :| y in s.children && s.children[y].id == id;
      if y != x {
        assert y in t.children && t.children[y].id == id;
      }
    }
    assert forall k: nat | IsStopping(t, k) :: k == h || IsStopping(s, k);
  }

  lemma StopBegins(s: State, h: nat, next: Then)
    requires Invariant(s) && s.childrenLock.None? && h in s.handlers
    requires s.handlers[h].pc == StopQueued(next) && s.handlers[h].session in s.children
    ensures Acted(s, DoTakeChildrenLock(s, h, true), h)
  {
    hide ChildrenOk, TableOk, Untouched, LocksOk, LiveSessions, Bd, Past;
    var t, x := DoTakeChildrenLock(s, h, true), s.handlers[h].session;
    assert SessionOk(s, x) && HandlerOk(s, h);
    ChildIds(s);
    StopBeginsChildren(s, h, x, Stopping(s.children[x], next));
    OnlyChild(s, t, x);
    Held(s, h);
    SameView(s, t);
  }

  /** The state in which a stop's task is over and its lock given back. */
  ghost function Stopped(s: State, h: nat): State
    requires IsStopping(s, h)
  {
    At(s.(alive := s.alive - {s.handlers[h].pc.child.id}, childrenLock := None), h,
       StopQueued(s.handlers[h].pc.next))
  }

  lemma StopEndsChildren(s: State, h: nat)
    requires ChildrenOk(s) && IsStopping(s, h)
    ensures ChildrenOk(Stopped(s, h))
  {
    var t := Stopped(s, h);
    assert LiveSessions(t) <= LiveSessions(s);
    SubsetSize(LiveSessions(t), LiveSessions(s));
    SubsetSize(t.alive, s.alive);
    forall id | id in t.alive ensures Accounted(t, id) {
      assert Accounted(s, id);
    }
    forall k: nat | IsStopping(t, k) ensures false {
      assert IsStopping(s, k);
    }
  }

  lemma StopEnds(s: State, h: nat)
    requires Invariant(s) && IsStopping(s, h)
    ensures Acted(s, Stopped(s, h), h)
    ensures !Live(Stopped(s, h), s.handlers[h].session)
  {
    hide ChildrenOk, TableOk, Untouched, LocksOk, LiveSessions, Bd, Past;
    var t, x := Stopped(s, h), s.handlers[h].session;
    assert SessionOk(s, x) && HandlerOk(s, h);
    ChildIds(s);
    StopEndsChildren(s, h);
    OnlyChild(s, t, x);
    Held(s, h);
    SameView(s, t);
  }

  // ---- the segments ----

  lemma RollBackKeeps(s: State, h: nat, b: Binding, previous: Option<Binding>, restart: bool)
    requires Invariant(s) && h in s.handlers
    requires !s.handlers[h].pc.Waiting? && !s.handlers[h].pc.Stopping?
    requires var x := s.handlers[h].session;
             && Undoes(s, x, previous)
             && (Live(s, x) ==> !restart && previous == Some(b) && RunsOn(s, x, b))
    ensures Acted(s, RollBack(s, h, previous, restart), h)
    ensures Bd(RollBack(s, h, previous, restart), s.handlers[h].session) == previous
  {
    var x := s.handlers[h].session;
    if previous.None? {
      ForgetOn(s, h, Closing(RolledBack(None)));
      ForgottenEffect(s, x);
    } else {
      InvariantPast(s);
      RememberedEffect(s, previous.value);
      var pc := if restart then Restarting(previous.value) else Closing(RolledBack(previous));
      RememberOn(s, h, previous.value, pc);
    }
  }

  lemma AfterStopKeeps(s: State, h: nat, next: Then)
    requires Invariant(s) && h in s.handlers && s.handlers[h].pc == StopQueued(next)
    requires !Live(s, s.handlers[h].session)
    ensures Acted(s, AfterStop(s, h, next), h)
  {
    assert HandlerOk(s, h) && SessionOk(s, s.handlers[h].session);
    match next
    case Replacing(b, previous) =>
      InvariantPast(s);
      RememberedEffect(s, b);
      RememberOn(s, h, b, Starting(b, previous, true));
    case RollingBack(b, previous, restart) => RollBackKeeps(s, h, b, previous, restart);
    case Detaching => MoveOn(s, h, DetachAuditing);
    case Reaping(_) => MoveOn(s, h, Closing(Plain));
  }

  lemma FailKeeps(s: State, h: nat, b: Binding, previous: Option<Binding>, started: bool, replaced: bool)
    requires Invariant(s) && h in s.handlers
    requires !s.handlers[h].pc.Waiting? && !s.handlers[h].pc.Stopping?
    requires PcOk(s, s.handlers[h].session, Auditing(b, previous, started, replaced))
    ensures Acted(s, Fail(s, h, b, previous, started, replaced), h)
  {
    if started {
      MoveOn(s, h, StopQueued(RollingBack(b, previous, replaced)));
    } else {
      RollBackKeeps(s, h, b, previous, replaced);
    }
  }

  lemma RestoreKeeps(s: State, h: nat, grant: Binding)
    requires Invariant(s) && h in s.handlers && s.handlers[h].pc.RestoreVerifying?
    requires grant.session == s.handlers[h].session
    ensures Acted(s, DoRestore(s, h, grant), h)
  {
    var x := s.handlers[h].session;
    assert HandlerOk(s, h) && SessionOk(s, x);
    var current := Bd(s, x);
    if current.Some? && (current.value.revision > grant.revision
        || (current.value.revision == grant.revision && current.value.fingerprint != grant.fingerprint)) {
      MoveOn(s, h, Closing(Plain));
    } else if Live(s, x) && current != Some(grant) {
      MoveOn(s, h, StopQueued(Replacing(grant, current)));
    } else {
      InvariantPast(s);
      RememberedEffect(s, grant);
      RememberOn(s, h, grant,
                 if Live(s, x) then Auditing(grant, current, false, false) else Starting(grant, current, false));
    }
  }

  lemma VerifiedKeeps(s: State, h: nat, b: Binding)
    requires Invariant(s) && h in s.handlers && s.handlers[h].pc == Verifying(b)
    ensures Acted(s, DoProceed(s, h, true, [], []), h)
  {
    var x := s.handlers[h].session;
    assert HandlerOk(s, h) && SessionOk(s, x);
    InvariantPast(s);
    RememberedEffect(s, b);
    RememberOn(s, h, b,
               if Live(s, x) then Auditing(b, Bd(s, x), false, false) else Starting(b, Bd(s, x), false));
  }

  lemma StoppedKeeps(s: State, h: nat)
    requires Invariant(s) && IsStopping(s, h)
    ensures Invariant(DoProceed(s, h, true, [], []))
  {
    var next := s.handlers[h].pc.next;
    StopEnds(s, h);
    ActedKeeps(s, Stopped(s, h), h);
    AfterStopKeeps(Stopped(s, h), h, next);
    ActedKeeps(Stopped(s, h), AfterStop(Stopped(s, h), h, next), h);
    AfterStopSame(s, h);
  }

  /** Where the handler stood does not matter to what follows a stop. */
  lemma AfterStopSame(s: State, h: nat)
    requires IsStopping(s, h)
    ensures forall ok, text, grant :: DoProceed(s, h, ok, text, grant) ==
              AfterStop(Stopped(s, h), h, s.handlers[h].pc.next)
  {
    var s1 := s.(alive := s.alive - {s.handlers[h].pc.child.id}, childrenLock := None);
    var s2 := Stopped(s, h);
    forall pc ensures At(s1, h, pc) == At(s2, h, pc) {
    }
    forall b, pc | Remembered(s1, b).Some?
      ensures Remembered(s2, b).Some? && At(Remembered(s1, b).value, h, pc) == At(Remembered(s2, b).value, h, pc)
    {
    }
  }

  lemma ProceedKeeps(s: State, h: nat, ok: bool, text: string, grant: string)
    requires Invariant(s) && h in s.handlers
    ensures Invariant(DoProceed(s, h, ok, text, grant))
  {
    hide Remembered, Settled, Ordered;
    var t, x := DoProceed(s, h, ok, text, grant), s.handlers[h].session;
    assert HandlerOk(s, h) && SessionOk(s, x);
    if t != s {
      match s.handlers[h].pc
      case Stopping(child, next) =>
        StoppedKeeps(s, h);
        AfterStopSame(s, h);
        assert t == DoProceed(s, h, true, [], []);
      case _ =>
        ProceedActs(s, h, ok, text, grant);
        ActedKeeps(s, t, h);
    }
  }

  lemma ProceedActs(s: State, h: nat, ok: bool, text: string, grant: string)
    requires Invariant(s) && h in s.handlers && !s.handlers[h].pc.Stopping?
    requires DoProceed(s, h, ok, text, grant) != s
    ensures Acted(s, DoProceed(s, h, ok, text, grant), h)
  {
    hide Remembered, Invariant, Acted, Forgotten, RollBack, Ordered, Untouched;
    var x := s.handlers[h].session;
    assert HandlerOk(s, h) && SessionOk(s, x) by { SessionFacts(s, h); }
    match s.handlers[h].pc
    case Resolving => MoveOn(s, h, if ok then Issuing(Bd(s, x), text) else Closing(Plain));
    case Issuing(previous, root) =>
      var revision := if previous.Some? then previous.value.revision + 1 else 1;
      MoveOn(s, h, if ok then Attaching(Binding(x, root, text, revision, grant)) else Closing(Plain));
    case Attaching(b) =>
      if ok {
        AttachedActs(s, h, b);
      } else {
        MoveOn(s, h, Closing(Plain));
      }
    case Verifying(b) =>
      if ok {
        VerifiedKeeps(s, h, b);
      } else {
        MoveOn(s, h, Closing(Plain));
      }
    case RestoreVerifying(claimed) =>
      if ok && claimed.session == x {
        RestoreKeeps(s, h, claimed);
      } else {
        MoveOn(s, h, Closing(Plain));
      }
    case Auditing(b, previous, started, replaced) =>
      if ok {
        MoveOn(s, h, Closing(Plain));
      } else {
        FailKeeps(s, h, b, previous, started, replaced);
      }
    case DetachAuditing =>
      if ok {
        ForgetOn(s, h, Closing(Plain));
      } else {
        MoveOn(s, h, Closing(Plain));
      }
    case ReapAuditing(chosen) => MoveOn(s, h, if ok then StopQueued(Reaping(chosen)) else Closing(Plain));
    case _ =>
  }

  lemma SessionFacts(s: State, h: nat)
    requires Invariant(s) && h in s.handlers
    ensures HandlerOk(s, h) && SessionOk(s, s.handlers[h].session)
  {
  }

  lemma AttachedActs(s: State, h: nat, b: Binding)
    requires Invariant(s) && h in s.handlers && s.handlers[h].pc == Attaching(b)
    ensures Remembered(s, b).Some? && Acted(s, At(Remembered(s, b).value, h, Closing(Plain)), h)
  {
    assert HandlerOk(s, h);
    InvariantPast(s);
    RememberedEffect(s, b);
    RememberOn(s, h, b, Closing(Plain));
  }

  lemma TakeKeeps(s: State, h: nat, ok: bool)
    requires Invariant(s) && h in s.handlers
    ensures Invariant(DoTakeChildrenLock(s, h, ok))
  {
    var t := DoTakeChildrenLock(s, h, ok);
    if t != s {
      TakeActs(s, h, ok);
      ActedKeeps(s, t, h);
    }
  }

  lemma TakeActs(s: State, h: nat, ok: bool)
    requires Invariant(s) && h in s.handlers && DoTakeChildrenLock(s, h, ok) != s
    ensures Acted(s, DoTakeChildrenLock(s, h, ok), h)
  {
    hide Remembered, Invariant, Acted, Forgotten, RollBack, Ordered, AfterStop, Started, Untouched;
    SessionFacts(s, h);
    var x := s.handlers[h].session;
    match s.handlers[h].pc
    case Starting(b, previous, replaced) =>
      if !ok || |LiveSessions(s)| >= MAX_ACTIVE_CHILD_SESSIONS {
        FailKeeps(s, h, b, previous, true, replaced);
      } else {
        StartOn(s, h, b, Auditing(b, previous, true, replaced));
      }
    case Restarting(prior) =>
      if !ok || |LiveSessions(s)| >= MAX_ACTIVE_CHILD_SESSIONS {
        MoveOn(s, h, Closing(RolledBack(Some(prior))));
      } else {
        StartOn(s, h, prior, Closing(RolledBack(Some(prior))));
      }
    case StopQueued(next) =>
      if x in s.children {
        StopBegins(s, h, next);
      } else {
        AfterStopKeeps(s, h, next);
      }
    case _ =>
  }

  lemma CancelActs(s: State, h: nat)
    requires Invariant(s) && h in s.handlers && Cancellable(s.handlers[h].pc)
    ensures Acted(s, At(s, h, Closing(Cancelled)), h)
  {
    SessionFacts(s, h);
    MoveOn(s, h, Closing(Cancelled));
  }

  // ---- locks ----

  ghost predicate OnlyLocks(s: State, t: State) {
    t == s.(locks := t.locks, handlers := t.handlers)
  }

  /** A step on the locks and handlers alone. */
  lemma LockStepKeeps(s: State, t: State)
    requires Invariant(s) && OnlyLocks(s, t) && LocksOk(t) && ChildrenOk(t)
    requires forall x | Unlocked(t, x) && !Unlocked(s, x) :: Settled(s, x)
    requires forall k | k in t.handlers ::
               (k in s.handlers && t.handlers[k] == s.handlers[k])
               || PcOk(s, t.handlers[k].session, t.handlers[k].pc)
    ensures Invariant(t)
  {
    hide LocksOk, ChildrenOk;
    SameView(s, t);
    forall x ensures SessionOk(t, x) {
      assert SessionOk(s, x);
    }
    forall k | k in t.handlers ensures HandlerOk(t, k) {
      if k in s.handlers && t.handlers[k] == s.handlers[k] {
        assert HandlerOk(s, k);
      }
      PcSame(s, t, t.handlers[k].session, t.handlers[k].pc);
    }
  }

  lemma PcSame(s: State, t: State, x: string, pc: Pc)
    requires OnlyLocks(s, t) && PcOk(s, x, pc)
    ensures PcOk(t, x, pc)
  {
    SameView(s, t);
  }

  lemma AcquireLocks(s: State, t: State, h: nat)
    requires LocksOk(s) && h in s.handlers && h in t.handlers && s.handlers[h].pc.Waiting?
    requires t.handlers == s.handlers[h := t.handlers[h]] && !t.handlers[h].pc.Waiting?
    requires t.handlers[h].session == s.handlers[h].session
    requires var x := s.handlers[h].session;
             s.locks[x].holder.None? && t.locks == s.locks[x := s.locks[x].(holder := Some(h))]
    ensures LocksOk(t)
  {
    forall y | y in t.locks ensures Users(t, y) == Users(s, y) {
    }
  }

  lemma FirstPcOk(s: State, x: string, request: Request)
    requires SessionOk(s, x) && Unlocked(s, x)
    ensures PcOk(s, x, FirstPc(s, x, request)) && PcOk(s, x, Closing(Plain))
    ensures !FirstPc(s, x, request).Waiting? && !FirstPc(s, x, request).Stopping?
  {
  }

  lemma AcquireKeeps(s: State, h: nat, available: bool)
    requires Invariant(s) && h in s.handlers && s.handlers[h].pc.Waiting?
    requires s.locks[s.handlers[h].session].holder.None?
    ensures Invariant(DoAcquire(s, h, available))
  {
    hide PcOk, FirstPc, SessionOk, TableOk, HandlerOk, ChildrenOk;
    var t, x := DoAcquire(s, h, available), s.handlers[h].session;
    FirstPcOk(s, x, s.handlers[h].pc.request);
    AcquireLocks(s, t, h);
    ChildrenCarried(s, t, h);
    LockStepKeeps(s, t);
  }

  lemma ArriveUsers(s: State, h: nat, x: string, request: Request)
    requires LocksOk(s) && h !in s.handlers
    ensures var t := DoArrive(s, h, x, request);
            && |Users(t, x)| == |Users(s, x)| + 1
            && (forall y | y != x :: Users(t, y) == Users(s, y))
            && (x !in s.locks ==> Users(s, x) == {})
  {
    var t := DoArrive(s, h, x, request);
    assert h !in Users(s, x);
    assert Users(t, x) == Users(s, x) + {h};
    forall y | y != x ensures Users(t, y) == Users(s, y) {
    }
  }

  lemma ArriveLock(s: State, h: nat, x: string, request: Request, y: string)
    requires LocksOk(s) && h !in s.handlers && y in DoArrive(s, h, x, request).locks
    ensures var t := DoArrive(s, h, x, request);
            && t.locks[y].users == |Users(t, y)| > 0
            && t.locks[y].holder == (if y in s.locks then s.locks[y].holder else None)
  {
    ArriveUsers(s, h, x, request);
    hide Users;
  }

  lemma ArriveLocks(s: State, h: nat, x: string, request: Request)
    requires LocksOk(s) && h !in s.handlers
    ensures LocksOk(DoArrive(s, h, x, request))
  {
    hide Users;
    var t := DoArrive(s, h, x, request);
    forall y | y in t.locks ensures t.locks[y].users == |Users(t, y)| > 0 {
      ArriveLock(s, h, x, request, y);
    }
    forall k | k in t.handlers
      ensures t.handlers[k].session in t.locks
      ensures t.locks[t.handlers[k].session].holder == Some(k) <==> !t.handlers[k].pc.Waiting?
    {
      ArriveLock(s, h, x, request, t.handlers[k].session);
    }
  }

  lemma ChildrenWithHandlers(s: State, t: State)
    requires ChildrenOk(s) && OnlyLocks(s, t)
    requires forall k: nat | IsStopping(s, k) :: IsStopping(t, k) && t.handlers[k] == s.handlers[k]
    requires forall k: nat | IsStopping(t, k) :: IsStopping(s, k)
    ensures ChildrenOk(t)
  {
    assert LiveSessions(t) == LiveSessions(s);
    forall id | id in t.alive ensures Accounted(t, id) {
      assert Accounted(s, id);
    }
  }

  lemma ArriveKeeps(s: State, h: nat, x: string, request: Request)
    requires Invariant(s) && h !in s.handlers
    ensures Invariant(DoArrive(s, h, x, request))
  {
    hide LocksOk, ChildrenOk, SessionOk, PcOk, TableOk, HandlerOk;
    var t := DoArrive(s, h, x, request);
    ArriveLocks(s, h, x, request);
    ChildrenWithHandlers(s, t);
    WaitingOk(s, x, Waiting(request));
    LockStepKeeps(s, t);
  }

  lemma LeaveUsers(s: State, h: nat, holder: Option<nat>)
    requires LocksOk(s) && h in s.handlers
    ensures var t, x := Leave(s, h, holder), s.handlers[h].session;
            && Users(t, x) == Users(s, x) - {h} && |Users(t, x)| == |Users(s, x)| - 1
            && (forall y | y != x :: Users(t, y) == Users(s, y))
            && (s.locks[x].users <= 1 <==> Users(t, x) == {})
  {
    var t, x := Leave(s, h, holder), s.handlers[h].session;
    assert h in Users(s, x);
    assert Users(t, x) == Users(s, x) - {h};
    forall y | y != x ensures Users(t, y) == Users(s, y) {
    }
  }

  lemma LeaveLocks(s: State, h: nat, holder: Option<nat>)
    requires LocksOk(s) && h in s.handlers
    requires s.handlers[h].pc.Waiting? ==> holder == s.locks[s.handlers[h].session].holder
    requires !s.handlers[h].pc.Waiting? ==> holder.None?
    ensures LocksOk(Leave(s, h, holder))
  {
    var t, x := Leave(s, h, holder), s.handlers[h].session;
    LeaveUsers(s, h, holder);
    forall k | k in t.handlers ensures t.handlers[k].session in t.locks {
      if s.handlers[k].session == x {
        assert k in Users(t, x);
      }
    }
    hide Leave;
    forall y | y in t.locks ensures t.locks[y].users == |Users(t, y)| > 0 {
      LeaveLock(s, h, holder, y);
    }
    forall k | k in t.handlers
      ensures t.locks[t.handlers[k].session].holder == Some(k) <==> !t.handlers[k].pc.Waiting?
    {
      LeaveLock(s, h, holder, t.handlers[k].session);
    }
    forall y | y in t.locks && t.locks[y].holder.Some?
      ensures t.locks[y].holder.value in t.handlers && t.handlers[t.locks[y].holder.value].session == y
    {
      LeaveLock(s, h, holder, y);
    }
  }

  lemma LeaveLock(s: State, h: nat, holder: Option<nat>, y: string)
    requires LocksOk(s) && h in s.handlers && y in Leave(s, h, holder).locks
    ensures var t, x := Leave(s, h, holder), s.handlers[h].session;
            && t.handlers == s.handlers - {h} && y in s.locks
            && t.locks[y] == (if y == x then Lock(s.locks[x].users - 1, holder) else s.locks[y])
            && (y == x ==> s.locks[x].users > 1)
  {
  }

  /** A waiter that is cancelled. */
  lemma LeaveKeeps(s: State, h: nat)
    requires Invariant(s) && h in s.handlers && s.handlers[h].pc.Waiting?
    ensures Invariant(Leave(s, h, s.locks[s.handlers[h].session].holder))
  {
    var x := s.handlers[h].session;
    var t := Leave(s, h, s.locks[x].holder);
    LeaveLocks(s, h, s.locks[x].holder);
    ChildrenWithHandlers(s, t);
    HolderStays(s, h);
    assert forall y :: Unlocked(t, y) ==> Unlocked(s, y);
    hide LocksOk, ChildrenOk, SessionOk, PcOk;
    LockStepKeeps(s, t);
  }

  /** While someone holds the lock, a waiter that leaves is not its last user. */
  lemma HolderStays(s: State, h: nat)
    requires LocksOk(s) && h in s.handlers && s.handlers[h].pc.Waiting?
    ensures s.locks[s.handlers[h].session].holder.Some? ==> s.locks[s.handlers[h].session].users > 1
  {
    var x := s.handlers[h].session;
    if s.locks[x].holder.Some? {
      var k := s.locks[x].holder.value;
      assert {h, k} <= Users(s, x);
      SubsetSize({h, k}, Users(s, x));
    }
  }

  lemma Released(s: State, h: nat)
    requires Invariant(s) && h in s.handlers && s.handlers[h].pc.Closing?
    ensures var t, x := DoRelease(s, h), s.handlers[h].session;
            && SessionOk(t, x) && Settled(t, x)
            && forall y | y != x :: Untouched(s, t, y)
  {
    var t, x := DoRelease(s, h), s.handlers[h].session;
    SessionFacts(s, h);
    if Bd(s, x).Some? {
      NewerOrder(s, x, Bd(s, x).value);
    }
    forall y | y != x ensures Untouched(s, t, y) {
    }
  }

  lemma HasLock(s: State, h: nat)
    requires LocksOk(s) && h in s.handlers
    ensures s.handlers[h].session in s.locks
  {
  }

  lemma ReleaseKeeps(s: State, h: nat)
    requires Invariant(s) && h in s.handlers && s.handlers[h].pc.Closing?
    ensures Invariant(DoRelease(s, h))
  {
    hide Untouched, Settled, PcOk, LocksOk, ChildrenOk;
    HasLock(s, h);
    var t, x := DoRelease(s, h), s.handlers[h].session;
    Released(s, h);
    LeaveLocks(s, h, None);
    ChildrenWithHandlers(s, Leave(s, h, None));
    ChildrenCopied(Leave(s, h, None), t);
    assert TableOk(t);
    forall y ensures SessionOk(t, y) {
      assert SessionOk(s, y);
      if y != x {
        FrameSession(s, t, y);
      }
    }
    forall k | k in t.handlers ensures HandlerOk(t, k) {
      assert HandlerOk(s, k) && t.handlers[k] == s.handlers[k];
      var y := s.handlers[k].session;
      if y == x {
        Exclusive(s, h, k);
        WaitingOk(t, y, s.handlers[k].pc);
      } else {
        assert SessionOk(s, y);
        FramePc(s, t, y, s.handlers[k].pc);
      }
    }
  }

  lemma WaitingOk(s: State, x: string, pc: Pc)
    requires pc.Waiting?
    ensures PcOk(s, x, pc)
  {
  }

  lemma ChildrenCopied(s: State, t: State)
    requires ChildrenOk(s) && t == s.(history := t.history)
    ensures ChildrenOk(t) && (LocksOk(s) ==> LocksOk(t))
  {
    forall id | id in t.alive ensures Accounted(t, id) {
      assert Accounted(s, id);
    }
    assert forall k: nat | IsStopping(t, k) :: IsStopping(s, k);
    assert LiveSessions(t) == LiveSessions(s);
    assert forall x :: Users(t, x) == Users(s, x);
  }

  // ---- children on their own ----

  lemma ChildGone(s: State, t: State)
    requires Invariant(s)
    requires t == s.(alive := t.alive, children := t.children)
    requires t.alive <= s.alive
    requires forall x | x in t.children :: x in s.children && t.children[x] == s.children[x]
    requires forall x | x in s.children && x !in t.children :: s.children[x].id !in t.alive
    ensures Invariant(t)
  {
    SameView(s, t);
    assert LiveSessions(t) <= LiveSessions(s);
    SubsetSize(LiveSessions(t), LiveSessions(s));
    SubsetSize(t.alive, s.alive);
    forall id | id in t.alive ensures Accounted(t, id) {
      assert Accounted(s, id);
    }
    assert forall k: nat | IsStopping(t, k) :: IsStopping(s, k);
    assert forall x :: Users(t, x) == Users(s, x);
    forall x ensures SessionOk(t, x) {
      assert SessionOk(s, x);
      FrameSession(s, t, x);
    }
    forall k | k in t.handlers ensures HandlerOk(t, k) {
      assert HandlerOk(s, k) && SessionOk(s, s.handlers[k].session);
      FramePc(s, t, s.handlers[k].session, s.handlers[k].pc);
    }
  }

  // ---- all steps, all runs ----

  lemma StepKeeps(s: State, ev: Event)
    requires Invariant(s)
    ensures Invariant(Step(s, ev))
  {
    hide DoArrive, DoProceed, DoTakeChildrenLock, DoAcquire, DoRelease, Leave, TableOk, ChildrenOk, SessionOk, HandlerOk;
    match ev
    case Arrive(h, x, request) =>
      if h !in s.handlers {
        ArriveKeeps(s, h, x, request);
      }
    case Acquire(h, available) =>
      if Step(s, ev) != s {
        AcquireKeeps(s, h, available);
      }
    case Proceed(h, ok, text, grant) =>
      if h in s.handlers {
        ProceedKeeps(s, h, ok, text, grant);
      }
    case TakeChildrenLock(h, ok) =>
      if h in s.handlers {
        TakeKeeps(s, h, ok);
      }
    case Cancel(h) =>
      if h in s.handlers && s.handlers[h].pc.Waiting? {
        LeaveKeeps(s, h);
      } else if h in s.handlers && Cancellable(s.handlers[h].pc) {
        CancelActs(s, h);
        ActedKeeps(s, Step(s, ev), h);
      }
    case Release(h) =>
      if Step(s, ev) != s {
        ReleaseKeeps(s, h);
      }
    case ChildEnds(id) => ChildGone(s, Step(s, ev));
    case ChildCallback(x, id) => ChildGone(s, Step(s, ev));
  }

  lemma InitiallyOk()
    ensures Invariant(Initial)
  {
    assert LiveSessions(Initial) == {};
  }

  lemma {:induction false} RunKeeps(events: seq<Event>)
    ensures Invariant(Run(events))
  {
    if events == [] {
      InitiallyOk();
    } else {
      RunKeeps(events[..|events| - 1]);
      StepKeeps(Run(events[..|events| - 1]), events[|events| - 1]);
    }
  }
}
