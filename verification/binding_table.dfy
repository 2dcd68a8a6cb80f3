/** The bindings of the machine-control session: an OrderedDict with the most
    recently used last, and at most MAX_SESSION_BINDINGS of them. */
module BindingTables {
  import opened Wrappers

  const MAX_SESSION_BINDINGS := 64
  const MAX_ACTIVE_CHILD_SESSIONS := 8

  datatype Binding = Binding(session: string, root: string, fingerprint: string, revision: nat, grant: string)

  type Table = seq<Binding>

  predicate Distinct(t: Table) {
    forall i, j | 0 <= i < j < |t| :: t[i].session != t[j].session
  }

  /** _session_bindings.get(session). */
  function Bound(t: Table, session: string): Option<Binding> {
    if t == [] then None
    else if t[0].session == session then Some(t[0])
    else Bound(t[1..], session)
  }

  /** _session_bindings.pop(session, None). */
  function Pop(t: Table, session: string): Table {
    if t == [] then []
    else if t[0].session == session then t[1..]
    else [t[0]] + Pop(t[1..], session)
  }

  /** The oldest binding whose session has no live child. */
  function Victim(t: Table, live: set<string>): Option<string> {
    if t == [] then None
    else if t[0].session !in live then Some(t[0].session)
    else Victim(t[1..], live)
  }

  /** _remember_binding; None where it raises. */
  function Remember(t: Table, b: Binding, live: set<string>): Option<Table> {
    Trim(Pop(t, b.session) + [b], live)
  }

  function Trim(t: Table, live: set<string>): Option<Table>
    decreases |t|
  {
    if |t| <= MAX_SESSION_BINDINGS then Some(t)
    else
      var session :- Victim(t, live);
      VictimPops(t, live);
      Trim(Pop(t, session), live)
  }

  class BindingTable {
    var bindings: Table

    constructor ()
      ensures bindings == []
    {
      bindings := [];
    }

    /** _remember_binding: the inner loop looks for the first binding it may
        drop, and raising is what is left when it finds none. */
    method RememberBinding(b: Binding, live: set<string>) returns (raised: bool)
      requires Distinct(bindings)
      modifies this
      ensures raised <==> Remember(old(bindings), b, live).None?
      ensures !raised ==> Some(bindings) == Remember(old(bindings), b, live)
    {
      bindings := Pop(bindings, b.session) + [b];
      while |bindings| > MAX_SESSION_BINDINGS
        invariant Trim(bindings, live) == Remember(old(bindings), b, live)
        decreases |bindings|
      {
        var i := 0;
        while i < |bindings| && bindings[i].session in live
          invariant 0 <= i <= |bindings|
          invariant Victim(bindings, live) == Victim(bindings[i..], live)
        {
          assert bindings[i..][1..] == bindings[i + 1..];
          i := i + 1;
        }
        if i == |bindings| {
          return true;
        }
        assert Victim(bindings, live) == Some(bindings[i].session);
        VictimPops(bindings, live);
        bindings := Pop(bindings, bindings[i].session);
      }
      return false;
    }
  }

  // ---- lookups and removals ----

  lemma {:induction false} BoundFinds(t: Table, session: string)
    ensures Bound(t, session).Some? <==> exists i | 0 <= i < |t| :: t[i].session == session
    ensures Bound(t, session).Some? ==> Bound(t, session).value in t && Bound(t, session).value.session == session
  {
    if t != [] && t[0].session != session {
      BoundFinds(t[1..], session);
      assert forall i | 0 <= i < |t[1..]| :: t[1..][i] == t[i + 1];
    }
  }

  lemma {:induction false} PopBound(t: Table, session: string, other: string)
    requires Distinct(t)
    ensures Distinct(Pop(t, session))
    ensures Bound(Pop(t, session), other) == if other == session then None else Bound(t, other)
    ensures |Pop(t, session)| == |t| - if Bound(t, session).Some? then 1 else 0
    ensures forall b | b in Pop(t, session) :: b in t && b.session != session
  {
    if t != [] {
      assert t == [t[0]] + t[1..];
      if t[0].session == session {
        BoundFinds(t[1..], session);
      } else {
        PopBound(t[1..], session, other);
        var rest := Pop(t[1..], session);
        assert Pop(t, session)[1..] == rest;
        forall i | 0 <= i < |rest| ensures rest[i].session != t[0].session {
          assert rest[i] in t[1..];
        }
      }
    }
  }

  lemma {:induction false} VictimPops(t: Table, live: set<string>)
    ensures Victim(t, live).Some? ==>
              |Pop(t, Victim(t, live).value)| == |t| - 1 && Victim(t, live).value !in live
  {
    if t != [] && t[0].session in live {
      VictimPops(t[1..], live);
    }
  }

  lemma {:induction false} BoundAppended(t: Table, b: Binding, other: string)
    requires Bound(t, b.session).None?
    ensures Bound(t + [b], other) == if other == b.session then Some(b) else Bound(t, other)
  {
    if t == [] {
      assert t + [b] == [b];
    } else {
      assert (t + [b])[1..] == t[1..] + [b];
      BoundAppended(t[1..], b, other);
    }
  }

  ghost function Sessions(t: Table): set<string> {
    set b | b in t :: b.session
  }

  lemma {:induction false} SessionCount(t: Table)
    requires Distinct(t)
    ensures |Sessions(t)| == |t|
  {
    if t != [] {
      var last := |t| - 1;
      SessionCount(t[..last]);
      assert t == t[..last] + [t[last]];
      assert Sessions(t) == Sessions(t[..last]) + {t[last].session};
    }
  }

  /** Among more bindings than live sessions, the first that is not live comes
      before the last binding. */
  lemma {:induction false} VictimBeforeLast(t: Table, live: set<string>)
    requires Distinct(t) && |t| > |live| + 1
    ensures Victim(t, live).Some? && Victim(t, live).value != t[|t| - 1].session
  {
    var front := t[..|t| - 1];
    SessionCount(front);
    if forall i | 0 <= i < |front| :: front[i].session in live {
      assert Sessions(front) <= live;
      SubsetSize(Sessions(front), live);
      assert false;
    }
    var i :| 0 <= i < |front| && front[i].session !in live;
    VictimFirst(t, live, i);
  }

  lemma SubsetSize<T>(a: set<T>, b: set<T>)
    requires a <= b
    ensures |a| <= |b|
  {
    assert |b| == |a| + |b - a|;
  }

  lemma {:induction false} VictimFirst(t: Table, live: set<string>, i: nat)
    requires i < |t| && t[i].session !in live
    ensures Victim(t, live).Some? && exists j | 0 <= j <= i :: t[j].session == Victim(t, live).value
  {
    if t[0].session in live {
      VictimFirst(t[1..], live, i - 1);
      var j :| 0 <= j <= i - 1 && t[1..][j].session == Victim(t[1..], live).value;
      assert t[j + 1] == t[1..][j];
    }
  }

  /** Everything the session handlers rely on: remembering never raises with
      this few live children, keeps the limit, keeps the new binding and every
      live session's, and drops others only whole. */
  lemma RememberKeeps(t: Table, b: Binding, live: set<string>)
    requires Distinct(t) && |t| <= MAX_SESSION_BINDINGS && |live| <= MAX_ACTIVE_CHILD_SESSIONS
    ensures Remember(t, b, live).Some?
    ensures var u := Remember(t, b, live).value;
            && Distinct(u)
            && |u| <= MAX_SESSION_BINDINGS
            && Bound(u, b.session) == Some(b)
            && (forall s | s != b.session :: Bound(u, s) == Bound(t, s) || (Bound(u, s).None? && s !in live))
  {
    var popped := Pop(t, b.session);
    var added := popped + [b];
    PopBound(t, b.session, b.session);
    BoundFinds(popped, b.session);
    forall i | 0 <= i < |popped| ensures popped[i].session != b.session {
      assert popped[i] in popped;
    }
    forall s ensures Bound(added, s) == if s == b.session then Some(b) else Bound(t, s) {
      PopBound(t, b.session, s);
      BoundAppended(popped, b, s);
    }
    if |added| > MAX_SESSION_BINDINGS {
      VictimBeforeLast(added, live);
      VictimPops(added, live);
      var victim := Victim(added, live).value;
      forall s ensures Bound(Pop(added, victim), s) == if s == victim then None else Bound(added, s) {
        PopBound(added, victim, s);
      }
      PopBound(added, victim, victim);
      assert Trim(Pop(added, victim), live) == Some(Pop(added, victim));
    }
  }

  // ---- what one more binding can push out ----

  /** `u` is `t` with one binding more and x's, for which it had to make room,
      gone. */
  ghost predicate PushesOut(t: Table, u: Table, x: string) {
    && |t| == MAX_SESSION_BINDINGS && Bound(t, x).Some? && Bound(u, x).None?
    && exists b: Binding | Bound(t, b.session).None? && b.session != x :: u == Pop(t, x) + [b]
  }

  lemma {:induction false} PopMissing(t: Table, session: string)
    requires Bound(t, session).None?
    ensures Pop(t, session) == t
  {
    if t != [] {
      PopMissing(t[1..], session);
    }
  }

  lemma {:induction false} PopAppended(t: Table, b: Binding, session: string)
    requires Bound(t, session).Some?
    ensures Pop(t + [b], session) == Pop(t, session) + [b]
  {
    assert (t + [b])[0] == t[0] && (t + [b])[1..] == t[1..] + [b];
    if t[0].session != session {
      PopAppended(t[1..], b, session);
    }
  }

  lemma {:induction false} VictimIsBound(t: Table, live: set<string>)
    requires Victim(t, live).Some?
    ensures Bound(t, Victim(t, live).value).Some?
  {
    if t[0].session in live {
      VictimIsBound(t[1..], live);
    }
  }

  /** Remembering one session's binding leaves another's, or pushes it out of a
      full table. */
  lemma RememberKeepsOrPushesOut(t: Table, b: Binding, live: set<string>, x: string)
    requires Distinct(t) && |t| <= MAX_SESSION_BINDINGS && |live| <= MAX_ACTIVE_CHILD_SESSIONS && x != b.session
    ensures Remember(t, b, live).Some?
    ensures var u := Remember(t, b, live).value;
            Bound(u, x) == Bound(t, x) || (PushesOut(t, u, x) && x !in live)
  {
    hide Pop, Bound;
    RememberKeeps(t, b, live);
    var u := Remember(t, b, live).value;
    PopBound(t, b.session, b.session);
    PopBound(t, b.session, x);
    var popped := Pop(t, b.session);
    var added := popped + [b];
    BoundAppended(popped, b, x);
    if |added| > MAX_SESSION_BINDINGS {
      if Bound(u, x) != Bound(t, x) {
        PopMissing(t, b.session);
        VictimPops(added, live);
        VictimIsBound(added, live);
        AppendedDistinct(popped, b);
        var victim := Victim(added, live).value;
        PopBound(added, victim, x);
        assert Trim(Pop(added, victim), live) == Some(Pop(added, victim));
        assert u == Pop(added, victim);
        assert victim == x;
        PopAppended(t, b, x);
        assert u == Pop(t, x) + [b];
      }
    }
  }

  lemma AppendedDistinct(t: Table, b: Binding)
    requires Distinct(t) && Bound(t, b.session).None?
    ensures Distinct(t + [b])
  {
    BoundFinds(t, b.session);
  }

  // ---- the whole table after one more ----

  /** `u` is `t` without the binding of x, if it has one. */
  ghost predicate IsWithout(t: Table, u: Table, x: string) {
    || (u == t && forall c | c in t :: c.session != x)
    || exists k :: 0 <= k < |t| && t[k].session == x && u == t[..k] + t[k + 1..]
  }

  lemma {:induction false} PopsFirst(t: Table, x: string) returns (k: nat)
    ensures k <= |t| && forall i | 0 <= i < k :: t[i].session != x
    ensures if k == |t| then Pop(t, x) == t else t[k].session == x && Pop(t, x) == t[..k] + t[k + 1..]
  {
    k := 0;
    if t != [] && t[0].session != x {
      var n := PopsFirst(t[1..], x);
      k := n + 1;
      assert forall i | 1 <= i < |t| :: t[i] == t[1..][i - 1];
      FirstKept(t, n);
    }
  }

  lemma FirstKept(t: Table, n: nat)
    requires t != [] && n < |t|
    ensures n == |t| - 1 ==> [t[0]] + t[1..] == t
    ensures n < |t| - 1 ==> [t[0]] + (t[1..][..n] + t[1..][n + 1..]) == t[..n + 1] + t[n + 2..]
  {
  }

  lemma PopIsWithout(t: Table, x: string)
    ensures IsWithout(t, Pop(t, x), x)
  {
    hide Pop;
    var k := PopsFirst(t, x);
  }

  /** The oldest whose session has no live child. */
  ghost predicate OldestFree(t: Table, i: nat, live: set<string>)
    requires i < |t|
  {
    t[i].session !in live && forall j | 0 <= j < i :: t[j].session in live
  }

  lemma {:induction false} VictimIsOldest(t: Table, live: set<string>) returns (i: nat)
    requires Victim(t, live).Some?
    ensures i < |t| && OldestFree(t, i, live) && t[i].session == Victim(t, live).value
  {
    i := 0;
    if t[0].session in live {
      var k := VictimIsOldest(t[1..], live);
      i := k + 1;
      assert t[i] == t[1..][k];
      forall j | 0 <= j < i ensures t[j].session in live {
        assert j > 0 ==> t[j] == t[1..][j - 1];
      }
    }
  }

  lemma PopAt(t: Table, i: nat)
    requires Distinct(t) && i < |t|
    ensures Pop(t, t[i].session) == t[..i] + t[i + 1..]
  {
    hide Pop;
    var k := PopsFirst(t, t[i].session);
  }

  /** The new binding goes to the end, the others keep their order, and of 64
      others the oldest whose session has no live child makes room. */
  lemma RememberIs(t: Table, b: Binding, live: set<string>) returns (others: Table)
    requires Distinct(t) && |t| <= MAX_SESSION_BINDINGS && |live| <= MAX_ACTIVE_CHILD_SESSIONS
    ensures IsWithout(t, others, b.session)
    ensures |others| < 64 ==> Remember(t, b, live) == Some(others + [b])
    ensures |others| == 64 ==>
              exists i: nat :: i < 64 && OldestFree(others, i, live)
                               && Remember(t, b, live) == Some(others[..i] + others[i + 1..] + [b])
  {
    hide Pop;
    others := Pop(t, b.session);
    PopIsWithout(t, b.session);
    PopBound(t, b.session, b.session);
    if |others| == 64 {
      var added := others + [b];
      AppendedDistinct(others, b);
      VictimBeforeLast(added, live);
      var i := VictimIsOldest(added, live);
      VictimPops(added, live);
      PopAt(added, i);
      assert i < 64;
      assert forall j | 0 <= j < 64 :: others[j] == added[j];
      assert OldestFree(others, i, live);
      assert added[..i] + added[i + 1..] == others[..i] + others[i + 1..] + [b];
      assert Trim(Pop(added, added[i].session), live) == Some(Pop(added, added[i].session));
    }
  }
}
