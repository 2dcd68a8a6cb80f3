/** What every step of the session manager keeps. */
module SessionsInvariant {
  import opened Wrappers
  import opened BindingTables
  import opened Sessions

  /** `b` may follow `a`: never an older revision, and an equal revision only
      with an equal fingerprint. */
  predicate Follows(b: Binding, a: Binding) {
    b.revision > a.revision || (b.revision == a.revision && b.fingerprint == a.fingerprint)
  }

  ghost predicate Ordered(past: seq<Binding>) {
    forall i, j | 0 <= i <= j < |past| :: Follows(past[j], past[i])
  }

  ghost function Last(past: seq<Binding>): Option<Binding> {
    if past == [] then None else Some(past[|past| - 1])
  }

  /** The binding is the one the session had when its lock was last released. */
  ghost predicate Settled(s: State, x: string) {
    Bd(s, x) == Last(Past(s, x))
  }

  ghost predicate Unlocked(s: State, x: string) {
    x in s.locks ==> s.locks[x].holder.None?
  }

  // ---- one session ----

  ghost predicate SessionOk(s: State, x: string) {
    && (x in s.children ==> s.children[x].binding.session == x && s.children[x].id < s.nextId)
    && (Live(s, x) && Bd(s, x).Some? ==> Bd(s, x).value == s.children[x].binding)
    && (Bd(s, x).Some? ==> Bd(s, x).value.session == x)
    && (Past(s, x) != [] ==> Bd(s, x).Some?)
    && Ordered(Past(s, x))
    && (Unlocked(s, x) ==> Settled(s, x))
  }

  // ---- one handler ----

  /** Nothing was released since that `b` could not follow. */
  ghost predicate Newer(s: State, x: string, b: Binding) {
    b.session == x && (Past(s, x) != [] ==> Follows(b, Last(Past(s, x)).value))
  }

  /** `previous` is what the session had before, unless that was dropped. */
  ghost predicate Undoes(s: State, x: string, previous: Option<Binding>) {
    && (previous.Some? ==> previous.value.session == x)
    && (Past(s, x) != [] ==> previous == Last(Past(s, x)))
  }

  ghost predicate BoundTo(s: State, x: string, b: Binding) {
    Bd(s, x).Some? ==> Bd(s, x).value == b
  }

  ghost predicate RunsOn(s: State, x: string, b: Binding) {
    Live(s, x) ==> s.children[x].binding == b
  }

  /** The session's child, while it has one, is the one the reaper chose. */
  ghost predicate Chosen(s: State, x: string, chosen: nat) {
    x in s.children ==> s.children[x].id == chosen
  }

  ghost predicate ThenOk(s: State, x: string, next: Then) {
    match next
    case Replacing(b, previous) => Settled(s, x) && Newer(s, x, b) && Undoes(s, x, previous)
    case RollingBack(b, previous, _) =>
      BoundTo(s, x, b) && RunsOn(s, x, b) && Newer(s, x, b) && Undoes(s, x, previous)
    case Detaching => Settled(s, x)
    case Reaping(chosen) => Settled(s, x) && Chosen(s, x, chosen)
  }

  ghost predicate PcOk(s: State, x: string, pc: Pc) {
    match pc
    case Waiting(_) => true
    case Resolving => Settled(s, x) && !Live(s, x)
    case Issuing(previous, _) => Settled(s, x) && !Live(s, x) && Undoes(s, x, previous)
    case Attaching(b) => Settled(s, x) && !Live(s, x) && Newer(s, x, b)
    case Verifying(b) =>
      Settled(s, x) && b.session == x && BoundTo(s, x, b) && (Live(s, x) ==> Bd(s, x) == Some(b))
    case RestoreVerifying(_) => Settled(s, x)
    case Starting(b, previous, _) =>
      !Live(s, x) && BoundTo(s, x, b) && Newer(s, x, b) && Undoes(s, x, previous)
    case Auditing(b, previous, started, replaced) =>
      && BoundTo(s, x, b) && RunsOn(s, x, b) && Newer(s, x, b) && Undoes(s, x, previous)
      && (!started ==> previous == Some(b) && !replaced)
    case StopQueued(next) => ThenOk(s, x, next)
    case Stopping(child, next) =>
      && x !in s.children && ThenOk(s, x, next) && child.id < s.nextId
      && (child.id in s.alive ==> BoundTo(s, x, child.binding))
      && (child.id in s.alive && next.RollingBack? ==> child.binding == next.b)
      && (next.Reaping? ==> child.id == next.chosen)
    case Restarting(prior) =>
      !Live(s, x) && BoundTo(s, x, prior) && Newer(s, x, prior) && Undoes(s, x, Some(prior))
    case DetachAuditing => Settled(s, x) && !Live(s, x)
    case ReapAuditing(chosen) => Settled(s, x) && Chosen(s, x, chosen)
    case Closing(outcome) =>
      && (Bd(s, x).Some? ==> Newer(s, x, Bd(s, x).value))
      && (outcome.RolledBack? ==>
            && Undoes(s, x, outcome.previous)
            && (Bd(s, x).Some? ==> Bd(s, x) == outcome.previous)
            && (Live(s, x) ==> Some(s.children[x].binding) == outcome.previous))
  }

  ghost predicate HandlerOk(s: State, h: nat)
    requires h in s.handlers
  {
    PcOk(s, s.handlers[h].session, s.handlers[h].pc)
  }

  // ---- locks and children ----

  ghost function Users(s: State, x: string): set<nat> {
    set h | h in s.handlers && s.handlers[h].session == x
  }

  /** The lock map has an entry exactly while some handler uses it, counts its
      users, and is held by the one handler past waiting. */
  ghost predicate LocksOk(s: State) {
    && (forall h | h in s.handlers :: s.handlers[h].session in s.locks)
    && (forall x | x in s.locks :: s.locks[x].users == |Users(s, x)| > 0)
    && (forall h | h in s.handlers ::
          s.locks[s.handlers[h].session].holder == Some(h) <==> !s.handlers[h].pc.Waiting?)
    && (forall x | x in s.locks && s.locks[x].holder.Some? ::
          s.locks[x].holder.value in s.handlers && s.handlers[s.locks[x].holder.value].session == x)
  }

  ghost predicate IsStopping(s: State, h: nat) {
    h in s.handlers && s.handlers[h].pc.Stopping?
  }

  ghost predicate Accounted(s: State, id: nat) {
    || (exists x :: x in s.children && s.children[x].id == id)
    || (s.childrenLock.Some? && IsStopping(s, s.childrenLock.value)
        && s.handlers[s.childrenLock.value].pc.child.id == id)
  }

  ghost predicate ChildrenOk(s: State) {
    && |s.alive| <= MAX_ACTIVE_CHILD_SESSIONS
    && |LiveSessions(s)| <= MAX_ACTIVE_CHILD_SESSIONS
    && (forall id | id in s.alive :: id < s.nextId && Accounted(s, id))
    && (s.childrenLock.Some? ==> IsStopping(s, s.childrenLock.value))
    && (forall h: nat | IsStopping(s, h) :: s.childrenLock == Some(h))
  }

  ghost predicate TableOk(s: State) {
    Distinct(s.bindings) && |s.bindings| <= MAX_SESSION_BINDINGS
  }

  ghost predicate Invariant(s: State) {
    && TableOk(s)
    && LocksOk(s)
    && ChildrenOk(s)
    && (forall x :: SessionOk(s, x))
    && (forall h | h in s.handlers :: HandlerOk(s, h))
  }

  // ---- what a step may do to a session not its own ----

  ghost predicate Untouched(s: State, t: State, x: string) {
    && (x in t.children ==> x in s.children && t.children[x] == s.children[x])
    && (x in t.children && t.children[x].id in t.alive ==> s.children[x].id in s.alive)
    && ((Bd(t, x) == Bd(s, x) && Past(t, x) == Past(s, x))
        || (Bd(t, x).None? && Past(t, x) == [] && !Live(s, x)))
    && (Unlocked(t, x) ==> Unlocked(s, x))
    && s.nextId <= t.nextId
  }

  lemma FrameSession(s: State, t: State, x: string)
    requires SessionOk(s, x) && Untouched(s, t, x)
    ensures SessionOk(t, x)
  {
  }

  lemma FramePc(s: State, t: State, x: string, pc: Pc)
    requires SessionOk(s, x) && PcOk(s, x, pc) && Untouched(s, t, x)
    requires pc.Stopping? ==> (pc.child.id in t.alive ==> pc.child.id in s.alive)
    ensures PcOk(t, x, pc)
  {
  }

  // ---- the effect of remembering and forgetting ----

  ghost predicate OnlyBindings(s: State, t: State) {
    t == s.(bindings := t.bindings, history := t.history)
  }

  ghost predicate PastBound(s: State) {
    forall x :: Past(s, x) != [] ==> Bd(s, x).Some?
  }

  lemma SameHandlers(s: State, b: Binding)
    ensures Remembered(s, b).Some? ==> Remembered(s, b).value.handlers == s.handlers
  {
  }

  /** With this few live children, remembering never raises. */
  lemma RememberedEffect(s: State, b: Binding)
    requires TableOk(s) && |LiveSessions(s)| <= MAX_ACTIVE_CHILD_SESSIONS && PastBound(s)
    ensures Remembered(s, b).Some?
    ensures var t := Remembered(s, b).value;
            && OnlyBindings(s, t) && TableOk(t)
            && Bd(t, b.session) == Some(b) && Past(t, b.session) == Past(s, b.session)
            && PastBound(t)
            && forall x | x != b.session :: Untouched(s, t, x)
  {
    RememberKeeps(s.bindings, b, LiveSessions(s));
    var t := Remembered(s, b).value;
    forall x | x != b.session ensures Untouched(s, t, x) {
      assert Bd(t, x) == Bd(s, x) || (Bd(t, x).None? && x !in LiveSessions(s));
      if Bd(t, x).Some? {
        assert Past(t, x) == Past(s, x);
      }
    }
  }

  lemma ForgottenEffect(s: State, x: string)
    requires TableOk(s)
    ensures var t := Forgotten(s, x);
            && OnlyBindings(s, t) && TableOk(t)
            && Bd(t, x).None? && Past(t, x) == []
            && forall y | y != x :: Untouched(s, t, y)
  {
    PopBound(s.bindings, x, x);
    forall y | y != x ensures Untouched(s, Forgotten(s, x), y) {
      PopBound(s.bindings, x, y);
    }
  }
}
