/** What holds in every run of the session manager. */
module SessionsTheorems {
  import opened Wrappers
  import opened BindingTables
  import opened Sessions
  import opened SessionsInvariant
  import opened SessionsSteps
  import opened SessionsRuns

  /** At most 8 child tasks are alive, the one being stopped included, and at
      most 64 sessions have a binding; remembering one more never raises, keeps
      it, and never drops a binding whose child is live. */
  lemma {:induction false} LimitsHold(events: seq<Event>, b: Binding)
    ensures var s := Run(events);
            && |s.alive| <= MAX_ACTIVE_CHILD_SESSIONS
            && |s.bindings| <= MAX_SESSION_BINDINGS
            && Remembered(s, b).Some?
            && |Remembered(s, b).value.bindings| <= MAX_SESSION_BINDINGS
            && Bd(Remembered(s, b).value, b.session) == Some(b)
            && forall x | Live(s, x) && x != b.session :: Bd(Remembered(s, b).value, x) == Bd(s, x)
  {
    RunKeeps(events);
    var s := Run(events);
    InvariantPast(s);
    RememberedEffect(s, b);
    forall x | Live(s, x) && x != b.session ensures Bd(Remembered(s, b).value, x) == Bd(s, x) {
      assert Untouched(s, Remembered(s, b).value, x);
    }
  }

  /** A live child runs on its session's binding, if the session has one; so
      does a child while a handler is stopping it. */
  lemma {:induction false} LiveChildRunsOnItsBinding(events: seq<Event>, x: string, h: nat)
    ensures var s := Run(events);
            && (Live(s, x) && Bd(s, x).Some? ==> s.children[x].binding == Bd(s, x).value)
            && (Bd(s, x).Some? && IsStopping(s, h) && s.handlers[h].session == x ==>
                  (s.handlers[h].pc.child.id in s.alive ==> s.handlers[h].pc.child.binding == Bd(s, x).value))
  {
    RunKeeps(events);
    assert SessionOk(Run(events), x);
    if IsStopping(Run(events), h) {
      assert HandlerOk(Run(events), h);
    }
  }

  /** Handlers of one session exclude each other, and the lock map has an entry
      exactly while some handler uses it. */
  lemma {:induction false} LocksExclude(events: seq<Event>, h: nat, k: nat, x: string)
    ensures var s := Run(events);
            && (h in s.handlers && k in s.handlers && s.handlers[h].session == s.handlers[k].session ==>
                  s.handlers[h].pc.Waiting? || s.handlers[k].pc.Waiting? || h == k)
            && (x in s.locks <==> exists j :: j in s.handlers && s.handlers[j].session == x)
            && (x in s.locks ==> s.locks[x].users == |Users(s, x)|)
  {
    RunKeeps(events);
    var s := Run(events);
    if h in s.handlers && k in s.handlers && h != k && s.handlers[h].session == s.handlers[k].session
       && !s.handlers[h].pc.Waiting? {
      Exclusive(s, h, k);
    }
    if x in s.locks {
      var j :| j in Users(s, x);
    }
  }

  /** No callback or other step loses a live child: each is the one its session
      has, or the one a handler is stopping. */
  lemma {:induction false} NoLiveChildIsLost(events: seq<Event>, id: nat)
    requires id in Run(events).alive
    ensures var s := Run(events);
            || (exists x :: x in s.children && s.children[x].id == id)
            || (exists h: nat :: IsStopping(s, h) && s.handlers[h].pc.child.id == id)
  {
    RunKeeps(events);
    var s := Run(events);
    assert Accounted(s, id);
    if !(exists x :: x in s.children && s.children[x].id == id) {
      assert IsStopping(s, s.childrenLock.value);
    }
  }

  // ---- revisions ----

  lemma RememberedPast(s: State, b: Binding, x: string)
    requires Remembered(s, b).Some?
    ensures var t := Remembered(s, b).value;
            Bd(t, x).Some? ==> Past(t, x) == Past(s, x)
  {
  }

  lemma ForgottenPast(s: State, y: string, x: string)
    requires TableOk(s)
    ensures Bd(Forgotten(s, y), x).Some? ==> Past(Forgotten(s, y), x) == Past(s, x)
  {
    PopBound(s.bindings, y, x);
  }

  lemma RollBackPast(s: State, h: nat, previous: Option<Binding>, restart: bool, x: string)
    requires TableOk(s) && h in s.handlers
    ensures var t := RollBack(s, h, previous, restart);
            Bd(t, x).Some? ==> Past(t, x) == Past(s, x)
  {
    if previous.None? {
      ForgottenPast(s, s.handlers[h].session, x);
    } else if Remembered(s, previous.value).Some? {
      RememberedPast(s, previous.value, x);
    }
  }

  lemma AfterStopPast(s: State, h: nat, next: Then, x: string)
    requires TableOk(s) && h in s.handlers
    ensures Bd(AfterStop(s, h, next), x).Some? ==> Past(AfterStop(s, h, next), x) == Past(s, x)
  {
    match next
    case Replacing(b, previous) =>
      if Remembered(s, b).Some? {
        RememberedPast(s, b, x);
      }
    case RollingBack(_, previous, restart) => RollBackPast(s, h, previous, restart, x);
    case _ =>
  }

  lemma ProceedPast(s: State, h: nat, ok: bool, text: string, grant: string, x: string)
    requires TableOk(s) && h in s.handlers
    ensures var t := DoProceed(s, h, ok, text, grant);
            Bd(t, x).Some? ==> Past(t, x) == Past(s, x)
  {
    hide Remembered, RollBack, AfterStop, Forgotten;
    match s.handlers[h].pc
    case Attaching(b) =>
      if Remembered(s, b).Some? {
        RememberedPast(s, b, x);
      }
    case Verifying(b) =>
      if Remembered(s, b).Some? {
        RememberedPast(s, b, x);
      }
    case RestoreVerifying(claimed) =>
      if Remembered(s, claimed).Some? {
        RememberedPast(s, claimed, x);
      }
    case Auditing(b, previous, started, replaced) => RollBackPast(s, h, previous, replaced, x);
    case Stopping(child, next) =>
      AfterStopPast(s.(alive := s.alive - {child.id}, childrenLock := None), h, next, x);
    case DetachAuditing => ForgottenPast(s, s.handlers[h].session, x);
    case _ =>
  }

  /** A step only adds to a session's history, as long as it stays bound. */
  lemma StepPast(s: State, ev: Event, x: string)
    requires TableOk(s)
    ensures Bd(Step(s, ev), x).Some? ==> Past(s, x) <= Past(Step(s, ev), x)
  {
    hide Remembered, RollBack, AfterStop, Forgotten, DoProceed;
    match ev
    case Proceed(h, ok, text, grant) =>
      if h in s.handlers {
        ProceedPast(s, h, ok, text, grant, x);
      }
    case TakeChildrenLock(h, ok) =>
      if h in s.handlers && s.handlers[h].pc.StopQueued? {
        AfterStopPast(s, h, s.handlers[h].pc.next, x);
      }
    case _ =>
  }

  /** `x` has a binding after every one of the steps. */
  ghost predicate StaysBound(events: seq<Event>, from: nat, x: string) {
    forall n | from <= n <= |events| :: Bd(Run(events[..n]), x).Some?
  }

  lemma RunLast(events: seq<Event>)
    requires events != []
    ensures Run(events) == Step(Run(events[..|events| - 1]), events[|events| - 1])
  {
  }

  lemma PrefixStaysBound(events: seq<Event>, from: nat, x: string)
    requires from < |events| && StaysBound(events, from, x)
    ensures StaysBound(events[..|events| - 1], from, x) && Bd(Run(events), x).Some?
  {
    hide Run;
    var before := events[..|events| - 1];
    forall n | from <= n <= |before| ensures Bd(Run(before[..n]), x).Some? {
      assert before[..n] == events[..n];
      assert Bd(Run(events[..n]), x).Some?;
    }
    assert events[..|events|] == events;
    assert Bd(Run(events[..|events|]), x).Some?;
  }

  lemma TableOkAfter(events: seq<Event>)
    ensures TableOk(Run(events))
  {
    hide Run, Step;
    RunKeeps(events);
  }

  lemma {:induction false} PastGrows(events: seq<Event>, from: nat, x: string)
    requires from <= |events| && StaysBound(events, from, x)
    ensures Past(Run(events[..from]), x) <= Past(Run(events), x)
    decreases |events|
  {
    hide Run, Step, StaysBound, TableOk, Past;
    if from == |events| {
      assert events[..from] == events;
    } else {
      var before := events[..|events| - 1];
      PrefixStaysBound(events, from, x);
      PastGrows(before, from, x);
      assert before[..from] == events[..from];
      TableOkAfter(before);
      RunLast(events);
      StepPast(Run(before), events[|events| - 1], x);
    }
  }

  /** Between a detach or an eviction and the next, the binding a session is
      left with never goes back in revision, and an equal revision means an
      equal fingerprint. */
  lemma {:induction false} RevisionsNeverGoBack(events: seq<Event>, from: nat, x: string)
    requires from <= |events| && StaysBound(events, from, x)
    requires Unlocked(Run(events[..from]), x) && Unlocked(Run(events), x)
    ensures Bd(Run(events), x).Some? && Bd(Run(events[..from]), x).Some?
    ensures Follows(Bd(Run(events), x).value, Bd(Run(events[..from]), x).value)
  {
    var s, t := Run(events[..from]), Run(events);
    assert events[..|events|] == events;
    assert Bd(Run(events[..|events|]), x).Some?;
    RunKeeps(events[..from]);
    RunKeeps(events);
    assert SessionOk(s, x) && SessionOk(t, x);
    PastGrows(events, from, x);
    assert Past(t, x)[|Past(s, x)| - 1] == Past(s, x)[|Past(s, x)| - 1];
  }
}
