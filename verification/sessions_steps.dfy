/** Each step of the session manager keeps the invariant. */
module SessionsSteps {
  import opened Wrappers
  import opened BindingTables
  import opened Sessions
  import opened SessionsInvariant

  ghost predicate OldOrNew(s: State, t: State) {
    forall id | id in t.alive :: id in s.alive || id >= s.nextId
  }

  /** A step of handler h, which holds its session's lock before and after. */
  ghost predicate Acted(s: State, t: State, h: nat) {
    && h in s.handlers && h in t.handlers
    && t.handlers == s.handlers[h := t.handlers[h]]
    && t.handlers[h].session == s.handlers[h].session
    && !s.handlers[h].pc.Waiting? && !t.handlers[h].pc.Waiting?
    && t.locks == s.locks
    && TableOk(t) && ChildrenOk(t) && OldOrNew(s, t)
    && SessionOk(t, s.handlers[h].session)
    && HandlerOk(t, h)
    && forall y | y != s.handlers[h].session :: Untouched(s, t, y)
  }

  lemma SameLocks(s: State, t: State, h: nat)
    requires LocksOk(s) && h in s.handlers && h in t.handlers
    requires t.handlers == s.handlers[h := t.handlers[h]]
    requires t.handlers[h].session == s.handlers[h].session
    requires !s.handlers[h].pc.Waiting? && !t.handlers[h].pc.Waiting? && t.locks == s.locks
    ensures LocksOk(t)
  {
    forall x | x in t.locks ensures Users(t, x) == Users(s, x) {
    }
  }

  /** Only one handler of a session is past waiting. */
  lemma Exclusive(s: State, h: nat, k: nat)
    requires LocksOk(s) && h in s.handlers && k in s.handlers && h != k
    requires s.handlers[h].session == s.handlers[k].session
    requires !s.handlers[h].pc.Waiting?
    ensures s.handlers[k].pc.Waiting?
  {
  }

  lemma OthersOk(s: State, t: State, h: nat, k: nat)
    requires Invariant(s) && Acted(s, t, h) && k in s.handlers && k != h
    ensures HandlerOk(t, k)
  {
    var y := s.handlers[k].session;
    if y == s.handlers[h].session {
      Exclusive(s, h, k);
    } else {
      assert SessionOk(s, y) && HandlerOk(s, k);
      FramePc(s, t, y, s.handlers[k].pc);
    }
  }

  lemma ActedKeeps(s: State, t: State, h: nat)
    requires Invariant(s) && Acted(s, t, h)
    ensures Invariant(t)
  {
    hide SessionOk, HandlerOk, Untouched, TableOk, ChildrenOk, OldOrNew;
    SameLocks(s, t, h);
    forall x ensures SessionOk(t, x) {
      if x != s.handlers[h].session {
        FrameSession(s, t, x);
      }
    }
    forall k | k in t.handlers ensures HandlerOk(t, k) {
      if k != h {
        OthersOk(s, t, h, k);
      }
    }
  }

  // ---- steps that leave the children alone ----

  lemma ChildrenCarried(s: State, t: State, h: nat)
    requires ChildrenOk(s) && h in s.handlers && h in t.handlers
    requires t.handlers == s.handlers[h := t.handlers[h]]
    requires !s.handlers[h].pc.Stopping? && !t.handlers[h].pc.Stopping?
    requires t.children == s.children && t.alive == s.alive && t.nextId == s.nextId
    requires t.childrenLock == s.childrenLock
    ensures ChildrenOk(t)
  {
    forall id | id in t.alive ensures Accounted(t, id) {
      assert Accounted(s, id);
    }
    assert forall k: nat | IsStopping(t, k) :: IsStopping(s, k);
  }

  /** Moving on without touching shared state. */
  lemma MoveOn(s: State, h: nat, pc: Pc)
    requires Invariant(s) && h in s.handlers && !s.handlers[h].pc.Waiting? && !pc.Waiting?
    requires !s.handlers[h].pc.Stopping? && !pc.Stopping?
    requires PcOk(s, s.handlers[h].session, pc)
    ensures Acted(s, At(s, h, pc), h)
  {
    hide LocksOk, ChildrenOk, PcOk, SessionOk;
    var t, x := At(s, h, pc), s.handlers[h].session;
    ChildrenCarried(s, t, h);
    assert SessionOk(s, x);
    FrameSession(s, t, x);
    FramePc(s, t, x, pc);
  }

  lemma InvariantPast(s: State)
    requires Invariant(s)
    ensures PastBound(s)
  {
    forall x ensures Past(s, x) != [] ==> Bd(s, x).Some? {
      assert SessionOk(s, x);
    }
  }

  /** Binding the session to `b` and moving on. */
  lemma RememberOn(s: State, h: nat, b: Binding, pc: Pc)
    requires Invariant(s) && h in s.handlers && s.handlers[h].session == b.session
    requires !s.handlers[h].pc.Waiting? && !pc.Waiting? && !s.handlers[h].pc.Stopping? && !pc.Stopping?
    requires Remembered(s, b).Some? ==>
               (var t := Remembered(s, b).value;
                OnlyBindings(s, t) && Bd(t, b.session) == Some(b) && Past(t, b.session) == Past(s, b.session) ==>
                  PcOk(At(t, h, pc), b.session, pc))
    requires RunsOn(s, b.session, b)
    ensures Remembered(s, b).Some? && Acted(s, At(Remembered(s, b).value, h, pc), h)
  {
    var x := b.session;
    InvariantPast(s);
    RememberedEffect(s, b);
    var t0 := Remembered(s, b).value;
    var t := At(t0, h, pc);
    ChildrenCarried(s, t, h);
    assert SessionOk(s, x);
    Held(s, h);
    assert SessionOk(t, x);
    OthersStay(s, t0, h, pc);
  }

  lemma Held(s: State, h: nat)
    requires LocksOk(s) && h in s.handlers && !s.handlers[h].pc.Waiting?
    ensures !Unlocked(s, s.handlers[h].session)
  {
  }

  lemma OthersStay(s: State, t0: State, h: nat, pc: Pc)
    requires h in s.handlers && t0.handlers == s.handlers
    requires forall y | y != s.handlers[h].session :: Untouched(s, t0, y)
    ensures forall y | y != s.handlers[h].session :: Untouched(s, At(t0, h, pc), y)
  {
    forall y | y != s.handlers[h].session ensures Untouched(s, At(t0, h, pc), y) {
      assert Untouched(s, t0, y);
    }
  }

  lemma ForgetOn(s: State, h: nat, pc: Pc)
    requires Invariant(s) && h in s.handlers && pc.Closing?
    requires !s.handlers[h].pc.Waiting? && !s.handlers[h].pc.Stopping?
    requires pc.outcome.RolledBack? ==> pc.outcome.previous.None? && !Live(s, s.handlers[h].session)
    ensures Acted(s, At(Forgotten(s, s.handlers[h].session), h, pc), h)
  {
    hide Untouched, ChildrenOk, LocksOk;
    var x := s.handlers[h].session;
    ForgottenEffect(s, x);
    var t0 := Forgotten(s, x);
    var t := At(t0, h, pc);
    ChildrenCarried(s, t, h);
    assert SessionOk(s, x);
    Held(s, h);
    OthersStay(s, t0, h, pc);
  }

  /** Every binding a session was released with since it last had none could be
      followed by its latest, and so by anything that may follow that. */
  lemma NewerOrder(s: State, x: string, b: Binding)
    requires SessionOk(s, x) && Newer(s, x, b)
    ensures Ordered(Past(s, x) + [b])
  {
    var past := Past(s, x);
    var all := past + [b];
    forall i, j | 0 <= i <= j < |all| ensures Follows(all[j], all[i]) {
      if j == |past| && i < |past| {
        assert Follows(past[|past| - 1], past[i]);
      }
    }
  }
}
