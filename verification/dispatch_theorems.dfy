/** What the admission counters keep in every run. */
module DispatchTheorems {
  import opened Dispatch

  /** Admitted, not started yet and not cancelled. */
  ghost function Waiting(s: State): set<nat> {
    set id | id in s.requests && s.requests[id] == Created(false)
  }

  /** Being handled and still counted: not let go by a drain. */
  ghost function Counted(s: State): set<nat> {
    set id | id in s.requests && s.requests[id].Handling? && s.requests[id].generation == s.generation
  }

  /** The counters count the requests they stand for. */
  ghost predicate CountersOk(s: State) {
    && s.queueDepth >= |Waiting(s)|
    && (s.session.Open? ==> s.queueDepth == |Waiting(s)|)
    && (!s.session.Open? ==> Waiting(s) == {})
    && s.inFlight == |Counted(s)|
    && s.pending == s.queueDepth + s.inFlight <= s.maxConcurrent
    && (s.session.Closed? ==> s.pending == 0)
  }

  /** No request waits on a semaphore; while a session is open, its semaphore
      has the permits its counted requests do not hold. */
  ghost predicate SemaphoreOk(s: State) {
    && s.semaphore in s.slots
    && (forall k | k in s.slots :: k <= s.semaphore)
    && (forall id | id in s.requests :: !s.requests[id].Blocked?)
    && (forall id | id in s.requests && s.requests[id].Handling? ::
          && s.requests[id].semaphore in s.slots
          && s.requests[id].generation <= s.generation
          && (!s.session.Closed? ==>
                (s.requests[id].generation == s.generation <==> s.requests[id].semaphore == s.semaphore)))
    && (!s.session.Closed? ==> s.slots[s.semaphore] == s.maxConcurrent - s.inFlight)
  }

  ghost predicate Invariant(s: State) {
    CountersOk(s) && SemaphoreOk(s) && (s.detaching ==> s.pending == 0 && s.tasks == {})
  }

  lemma Removed(a: set<nat>, b: set<nat>, id: nat)
    requires id in a && b == a - {id}
    ensures |b| == |a| - 1
  {
  }

  lemma Added(a: set<nat>, b: set<nat>, id: nat)
    requires id !in a && b == a + {id}
    ensures |b| == |a| + 1
  {
  }

  lemma FrameKeeps(s: State, id: nat)
    requires Invariant(s) && id !in s.requests
    ensures Invariant(DoFrame(s, id))
  {
    var t := DoFrame(s, id);
    if Admits(s) {
      Added(Waiting(s), Waiting(t), id);
      assert Counted(t) == Counted(s);
    }
  }

  /** A counted request that runs finds a permit: the semaphore is never what
      it waits for. */
  lemma FindsPermit(s: State, id: nat)
    requires Invariant(s) && id in s.requests && s.requests[id] == Created(false)
    ensures s.session.Open? && s.slots[s.semaphore] > 0
  {
    assert id in Waiting(s);
  }

  lemma RunKeeps(s: State, id: nat)
    requires Invariant(s) && id in s.requests && s.requests[id].Created?
    ensures Invariant(DoRun(s, id))
  {
    var t := DoRun(s, id);
    if s.requests[id].cancelled {
      assert Waiting(t) == Waiting(s);
      assert Counted(t) == Counted(s);
    } else {
      FindsPermit(s, id);
      Removed(Waiting(s), Waiting(t), id);
      Added(Counted(s), Counted(t), id);
    }
  }

  lemma FinishCounts(s: State, id: nat, responds: bool)
    requires id in s.requests && s.requests[id].Handling? && s.requests[id].semaphore in s.slots
    ensures var t := DoFinish(s, id, responds);
            && Waiting(t) == Waiting(s)
            && |Counted(t)| == |Counted(s)| - (if s.requests[id].generation == s.generation then 1 else 0)
            && (s.requests[id].generation == s.generation ==> |Counted(s)| > 0)
  {
    var t := DoFinish(s, id, responds);
    if s.requests[id].generation == s.generation {
      Removed(Counted(s), Counted(t), id);
    } else {
      assert Counted(t) == Counted(s);
    }
  }

  lemma FinishKeeps(s: State, id: nat, responds: bool)
    requires Invariant(s) && id in s.requests && s.requests[id].Handling? && s.requests[id].semaphore in s.slots
    ensures Invariant(DoFinish(s, id, responds))
  {
    FinishCounts(s, id, responds);
    hide Waiting, Counted;
    var t := DoFinish(s, id, responds);
    assert CountersOk(t);
    assert SemaphoreOk(t) by { FinishSemaphore(s, id, responds); }
  }

  lemma FinishSemaphore(s: State, id: nat, responds: bool)
    requires SemaphoreOk(s)
    requires id in s.requests && s.requests[id].Handling? && s.requests[id].semaphore in s.slots
    ensures SemaphoreOk(DoFinish(s, id, responds))
  {
  }

  lemma DrainKeeps(s: State)
    requires Invariant(s)
    ensures Invariant(DoEndDrain(s)) || !s.session.Draining?
    ensures !s.session.Closed? && (forall id | id in Waiting(s) :: id in s.tasks) ==> Invariant(DoBeginDrain(s))
  {
    if s.session.Draining? {
      var t := DoEndDrain(s);
      assert Waiting(t) == Waiting(s) && Counted(t) == {};
    }
    if !s.session.Closed? && (forall id | id in Waiting(s) :: id in s.tasks) {
      var t := DoBeginDrain(s);
      assert Waiting(t) == {};
      assert Counted(t) == Counted(s);
    }
  }

  lemma OpenKeeps(s: State, maxConcurrent: nat)
    requires Invariant(s) && s.session.Closed?
    ensures Invariant(DoOpen(s, maxConcurrent))
  {
    var t := DoOpen(s, maxConcurrent);
    assert Waiting(t) == Waiting(s);
    assert Counted(t) == Counted(s) == {};
    forall id | id in s.requests && s.requests[id].Handling? ensures s.requests[id].generation < s.generation {
      assert id !in Counted(s);
    }
  }

  /** The tasks a drain cancels include every waiting request. */
  ghost predicate TasksOk(s: State) {
    forall id | id in Waiting(s) :: id in s.tasks
  }

  lemma StepKeeps(s: State, ev: Event)
    requires Invariant(s) && TasksOk(s)
    ensures Invariant(Step(s, ev)) && TasksOk(Step(s, ev))
  {
    hide CountersOk, SemaphoreOk, DoFinish, DoRun, DoFrame, DoBeginDrain, DoEndDrain, DoOpen;
    match ev
    case OpenSession(m) =>
      if s.session.Closed? {
        OpenKeeps(s, m);
        OpenTasks(s, m);
      }
    case Frame(id) =>
      if id !in s.requests {
        FrameKeeps(s, id);
        FrameTasks(s, id);
      }
    case Run(id) =>
      if id in s.requests && s.requests[id].Created? {
        RunKeeps(s, id);
        RunTasks(s, id);
      }
    case Unblock(id) => NoneBlocked(s);
    case CancelBlocked(id) => NoneBlocked(s);
    case Finish(id, responds) =>
      if Step(s, ev) != s {
        FinishKeeps(s, id, responds);
        FinishTasks(s, id, responds);
      }
    case Sent(id, cut) =>
      if Step(s, ev) != s {
        SentKeeps(s, id, cut);
      }
    case BeginDrain =>
      DrainKeeps(s);
      BeginDrainTasks(s);
    case EndDrain =>
      DrainKeeps(s);
      EndDrainTasks(s);
    case BeginDetach => DetachKeeps(s, true);
    case AbandonDetach => DetachKeeps(s, false);
  }

  lemma OpenTasks(s: State, m: nat)
    requires TasksOk(s)
    ensures TasksOk(DoOpen(s, m))
  {
    assert Waiting(DoOpen(s, m)) == Waiting(s);
  }

  lemma FrameTasks(s: State, id: nat)
    requires TasksOk(s)
    ensures TasksOk(DoFrame(s, id))
  {
    assert Waiting(DoFrame(s, id)) <= Waiting(s) + {id};
  }

  lemma RunTasks(s: State, id: nat)
    requires TasksOk(s) && id in s.requests && s.requests[id].Created?
    ensures TasksOk(DoRun(s, id))
  {
    assert Waiting(DoRun(s, id)) <= Waiting(s) - {id};
  }

  lemma FinishTasks(s: State, id: nat, responds: bool)
    requires TasksOk(s) && id in s.requests && s.requests[id].Handling? && s.requests[id].semaphore in s.slots
    ensures TasksOk(DoFinish(s, id, responds))
  {
    assert Waiting(DoFinish(s, id, responds)) <= Waiting(s) - {id};
  }

  lemma BeginDrainTasks(s: State)
    requires TasksOk(s)
    ensures TasksOk(DoBeginDrain(s))
  {
    assert Waiting(DoBeginDrain(s)) == {};
  }

  lemma EndDrainTasks(s: State)
    requires Invariant(s)
    ensures s.session.Draining? ==> TasksOk(DoEndDrain(s))
  {
    assert Waiting(DoEndDrain(s)) == Waiting(s);
  }

  lemma NoneBlocked(s: State)
    requires Invariant(s)
    ensures forall id | id in s.requests :: !s.requests[id].Blocked?
  {
  }

  lemma SentKeeps(s: State, id: nat, cut: bool)
    requires Invariant(s) && TasksOk(s) && id in s.requests && s.requests[id].Sending?
    ensures Invariant(DoSent(s, id, cut)) && TasksOk(DoSent(s, id, cut))
  {
    assert Waiting(DoSent(s, id, cut)) == Waiting(s);
    assert Counted(DoSent(s, id, cut)) == Counted(s);
  }

  lemma DetachKeeps(s: State, detaching: bool)
    requires Invariant(s) && TasksOk(s)
    ensures var t := s.(detaching := detaching);
            (detaching ==> Idle(s)) ==> Invariant(t) && TasksOk(t)
  {
    var t := s.(detaching := detaching);
    assert Waiting(t) == Waiting(s) && Counted(t) == Counted(s);
  }

  lemma {:induction false} AfterKeeps(events: seq<Event>)
    ensures Invariant(After(events)) && TasksOk(After(events))
  {
    if events == [] {
      assert Waiting(Initial) == {} && Counted(Initial) == {};
    } else {
      AfterKeeps(events[..|events| - 1]);
      StepKeeps(After(events[..|events| - 1]), events[|events| - 1]);
    }
  }

  // ---- every run ----

  /** Pending is queued plus in flight, within the limit, and each counter
      counts the requests it stands for. */
  lemma {:induction false} CountersAreTrue(events: seq<Event>)
    ensures var s := After(events);
            && s.pending == s.queueDepth + s.inFlight <= s.maxConcurrent
            && s.inFlight == |Counted(s)| && s.queueDepth >= |Waiting(s)|
            && (s.session.Open? ==> s.queueDepth == |Waiting(s)|)
  {
    AfterKeeps(events);
  }

  /** No admitted request ever waits on the session's semaphore. */
  lemma {:induction false} NeverBlocks(events: seq<Event>, id: nat)
    ensures id in After(events).requests ==> !After(events).requests[id].Blocked?
  {
    AfterKeeps(events);
  }

  /** A counted request that ends takes exactly one off pending, so the floor
      at zero never fires; one that was let go changes no counter of the
      session that runs by then. */
  lemma {:induction false} SettlesExactly(events: seq<Event>, id: nat, responds: bool)
    requires id in After(events).requests && After(events).requests[id].Handling?
    ensures var s := After(events);
            var t := Step(s, Finish(id, responds));
            if s.requests[id].generation == s.generation
            then t.pending == s.pending - 1 >= 0 && t.inFlight == s.inFlight - 1 >= 0 && t.queueDepth == s.queueDepth
            else (t.pending, t.inFlight, t.queueDepth) == (s.pending, s.inFlight, s.queueDepth)
                 && AvailableCapacity(t) == AvailableCapacity(s)
  {
    AfterKeeps(events);
    var s := After(events);
    if s.requests[id].generation == s.generation {
      assert id in Counted(s);
    }
  }

  /** Generations never go back, so a request once let go stays let go. */
  lemma {:induction false} GenerationNeverGoesBack(events: seq<Event>, more: seq<Event>)
    ensures After(events).generation <= After(events + more).generation
  {
    if more == [] {
      assert events + more == events;
    } else {
      var last := |more| - 1;
      GenerationNeverGoesBack(events, more[..last]);
      var all := events + more;
      assert all[..|all| - 1] == events + more[..last];
      StepGeneration(After(events + more[..last]), all[|all| - 1]);
    }
  }

  lemma StepGeneration(s: State, ev: Event)
    ensures s.generation <= Step(s, ev).generation
  {
  }

  /** Frames arriving one after another, nothing else happening. */
  function FeedFrames(s: State, ids: seq<nat>): State
    decreases |ids|
  {
    if ids == [] then s else FeedFrames(Step(s, Frame(ids[0])), ids[1..])
  }

  predicate Reads(s: State) {
    s.session.Open? && !s.detaching
  }

  lemma {:induction false} FeedNothing(s: State, ids: seq<nat>)
    requires !Reads(s)
    ensures FeedFrames(s, ids) == s
    decreases |ids|
  {
    if ids != [] {
      FeedNothing(s, ids[1..]);
    }
  }

  lemma {:induction false} FeedCount(s: State, ids: seq<nat>)
    requires Invariant(s) && Reads(s)
    requires forall i | 0 <= i < |ids| :: ids[i] !in s.requests
    requires forall i, j | 0 <= i < j < |ids| :: ids[i] != ids[j]
    ensures FeedFrames(s, ids).admitted - s.admitted ==
            if |ids| <= AvailableCapacity(s) then |ids| else AvailableCapacity(s)
    decreases |ids|
  {
    if ids != [] {
      var t := Step(s, Frame(ids[0]));
      FrameKeeps(s, ids[0]);
      assert forall i | 0 <= i < |ids[1..]| :: ids[1..][i] == ids[i + 1];
      FeedCount(t, ids[1..]);
    }
  }

  /** How many of the next frames are admitted: as many as the reported capacity
      while the session reads and is not being detached, none otherwise. So the
      report is exact, for any number of frames, exactly if it reads frames or
      reports none free. */
  lemma {:induction false} CapacityIsExact(events: seq<Event>, ids: seq<nat>)
    requires forall i | 0 <= i < |ids| :: ids[i] !in After(events).requests
    requires forall i, j | 0 <= i < j < |ids| :: ids[i] != ids[j]
    ensures var s := After(events);
            var admitted := FeedFrames(s, ids).admitted - s.admitted;
            var reported := if |ids| <= AvailableCapacity(s) then |ids| else AvailableCapacity(s);
            && admitted == (if Reads(s) then reported else 0)
            && (ids != [] ==> (admitted == reported <==> Reads(s) || AvailableCapacity(s) == 0))
  {
    AfterKeeps(events);
    if Reads(After(events)) {
      FeedCount(After(events), ids);
    } else {
      FeedNothing(After(events), ids);
    }
  }

  /** A child being detached still reports its slots as free. */
  lemma DetachingReportsFreeSlots(id: nat)
    ensures var s := After([OpenSession(2), BeginDetach]);
            s.session.Open? && AvailableCapacity(s) == 2 && FeedFrames(s, [id]).admitted == s.admitted
  {
    var events := [OpenSession(2), BeginDetach];
    assert events[..1] == [OpenSession(2)] && [OpenSession(2)][..0] == [];
    assert After([OpenSession(2)]) == Step(Initial, OpenSession(2));
    FeedNothing(After(events), [id]);
  }

  /** A finish leaves a STATUS due exactly if it has a response and takes the
      capacity from none to one. */
  lemma {:induction false} StatusAtTheEdge(events: seq<Event>, id: nat, responds: bool)
    requires id in After(events).requests && After(events).requests[id].Handling?
    ensures var s := After(events);
            var t := Step(s, Finish(id, responds));
            id in t.requests && t.requests[id] == Sending(true)
            <==> responds && AvailableCapacity(s) == 0 && AvailableCapacity(t) == 1
  {
    AfterKeeps(events);
    var s := After(events);
    if s.requests[id].generation == s.generation {
      assert id in Counted(s);
    }
  }

  ghost predicate AtEdge(events: seq<Event>, i: nat)
    requires i < |events|
  {
    AvailableCapacity(After(events[..i])) == 0 && AvailableCapacity(After(events[..i + 1])) == 1
  }

  lemma StillSending(s: State, ev: Event, id: nat)
    requires id in Step(s, ev).requests && Step(s, ev).requests[id].Sending?
    requires !(id in s.requests && s.requests[id] == Step(s, ev).requests[id])
    ensures id in s.requests && s.requests[id].Handling? && ev == Finish(id, true)
  {
  }

  /** Whatever happens in between, a response being sent has a STATUS after it
      exactly if its request's finish was at that edge. */
  lemma {:induction false} StatusFollowsItsEdge(events: seq<Event>, id: nat) returns (i: nat)
    requires id in After(events).requests && After(events).requests[id].Sending?
    ensures i < |events| && events[i] == Finish(id, true)
    ensures After(events).requests[id].statusDue <==> AtEdge(events, i)
    ensures var s := After(events);
            && Step(s, Sent(id, false)).statuses == s.statuses + (if AtEdge(events, i) then 1 else 0)
            && Step(s, Sent(id, true)).statuses == s.statuses
  {
    var front, last := events[..|events| - 1], events[|events| - 1];
    if id in After(front).requests && After(front).requests[id] == After(events).requests[id] {
      i := StatusFollowsItsEdge(front, id);
      assert front[..i] == events[..i] && front[..i + 1] == events[..i + 1];
    } else {
      i := |events| - 1;
      StillSending(After(front), last, id);
      assert events[..i + 1] == events;
      StatusAtTheEdge(front, id, true);
    }
  }

  /** A request that ends at the edge without a response leaves the platform
      unaware of the free slot until the next tick. */
  lemma EdgeWithoutStatus(id: nat)
    ensures var events := [OpenSession(1), Frame(id), Run(id), Finish(id, false)];
            AtEdge(events, 3) && After(events).statuses == 0 && After(events).requests == map[]
  {
    var events := [OpenSession(1), Frame(id), Run(id), Finish(id, false)];
    assert events[..4] == events;
    assert events[..3] == [OpenSession(1), Frame(id), Run(id)];
    assert events[..3][..2] == [OpenSession(1), Frame(id)];
    assert [OpenSession(1), Frame(id)][..1] == [OpenSession(1)];
    assert [OpenSession(1)][..0] == [];
    var begun := Step(Initial, OpenSession(1));
    assert After([OpenSession(1)]) == begun;
    var framed := Step(begun, Frame(id));
    assert After([OpenSession(1), Frame(id)]) == framed;
    var running := Step(framed, Run(id));
    assert After(events[..3]) == running;
    assert running.requests == map[id := Handling(0, 1)];
    assert After(events) == Step(running, Finish(id, false));
  }

  // ---- a child that is being detached ----

  /** A drain ended with this request not over, and it has not ended since. */
  ghost predicate LetGo(events: seq<Event>, id: nat, i: nat) {
    && i < |events| && events[i] == EndDrain && After(events[..i]).session.Draining?
    && forall n | i <= n <= |events| :: id in After(events[..n]).requests
  }

  lemma TaskStep(s: State, ev: Event, id: nat)
    requires id in Step(s, ev).requests && id !in Step(s, ev).tasks
    ensures id in s.requests && (id in s.tasks ==> ev == EndDrain && s.session.Draining?)
  {
  }

  lemma StillThere(events: seq<Event>, id: nat, i: nat)
    requires events != [] && id in After(events).requests
    requires var front := |events| - 1;
             LetGo(events[..front], id, i)
             || (i == front && events[i] == EndDrain && After(events[..i]).session.Draining?
                 && id in After(events[..i]).requests)
    ensures LetGo(events, id, i)
  {
    hide After;
    var front := events[..|events| - 1];
    assert events[..|events|] == events;
    forall n | i <= n <= |events| ensures id in After(events[..n]).requests {
      if n < |events| && i < |front| {
        assert front[..n] == events[..n];
      }
    }
    if i < |front| {
      assert front[..i] == events[..i];
    }
  }

  /** A request that is not over is one of the session's tasks, or was let go by
      a drain. */
  lemma {:induction false} TaskOrLetGo(events: seq<Event>, id: nat) returns (i: nat)
    requires id in After(events).requests && id !in After(events).tasks
    ensures LetGo(events, id, i)
  {
    hide Step;
    var front, last := events[..|events| - 1], events[|events| - 1];
    TaskStep(After(front), last, id);
    if id in After(front).tasks {
      i := |front|;
    } else {
      i := TaskOrLetGo(front, id);
    }
    StillThere(events, id, i);
  }

  /** A child the reaper has chosen has no request, admitted, running or being
      answered, from the moment it is chosen until it is stopped or the detach is
      given up, but for those an earlier drain let go; and it admits none. */
  lemma {:induction false} DetachedChildIsIdle(events: seq<Event>, id: nat)
    requires After(events).detaching
    ensures var s := After(events);
            && s.tasks == {} && s.pending == 0 && Waiting(s) == {} && Counted(s) == {}
            && (id in s.requests ==> exists i :: LetGo(events, id, i))
            && !Admits(s)
            && Step(s, Frame(id)) == s
  {
    hide LetGo;
    AfterKeeps(events);
    if id in After(events).requests {
      var i := TaskOrLetGo(events, id);
    }
  }

  // ---- requests that nothing gets in the way of ----

  lemma After1(events: seq<Event>, ev: Event)
    ensures After(events + [ev]) == Step(After(events), ev)
  {
    assert (events + [ev])[..|events|] == events;
  }

  /** A child that was spared admits frames again. */
  lemma {:induction false} SparedAdmitsAgain(events: seq<Event>, id: nat)
    requires var s := After(events); s.detaching && s.session.Open? && s.maxConcurrent > 0 && id !in s.requests
    ensures var t := After(events + [AbandonDetach] + [Frame(id)]);
            id in t.requests && id in t.tasks && t.pending == 1
  {
    AfterKeeps(events);
    After1(events, AbandonDetach);
    After1(events + [AbandonDetach], Frame(id));
    hide After;
  }

  /** A request that is admitted runs, is answered and is over; it gives back all
      it took, and a STATUS follows its response if it had taken the last slot. */
  lemma {:induction false} UndisturbedRequest(events: seq<Event>, id: nat)
    requires var s := After(events); s.session.Open? && !s.detaching && AvailableCapacity(s) > 0 && id !in s.requests
    ensures var s := After(events);
            var t := After(events + [Frame(id)] + [Run(id)] + [Finish(id, true)] + [Sent(id, false)]);
            && id in After(events + [Frame(id)]).tasks
            && After(events + [Frame(id)] + [Run(id)]).requests[id] == Handling(s.generation, s.semaphore)
            && t.requests == s.requests && t.tasks == s.tasks - {id}
            && (t.pending, t.queueDepth, t.inFlight) == (s.pending, s.queueDepth, s.inFlight)
            && t.slots == s.slots && t.generation == s.generation && t.admitted == s.admitted + 1
            && t.statuses == s.statuses + (if AvailableCapacity(s) == 1 then 1 else 0)
  {
    AfterKeeps(events);
    After1(events, Frame(id));
    After1(events + [Frame(id)], Run(id));
    After1(events + [Frame(id)] + [Run(id)], Finish(id, true));
    After1(events + [Frame(id)] + [Run(id)] + [Finish(id, true)], Sent(id, false));
    hide After, Waiting, Counted;
    var s := After(events);
    var running := Step(Step(s, Frame(id)), Run(id));
    assert running.slots == s.slots[s.semaphore := s.slots[s.semaphore] - 1];
    assert s.slots[s.semaphore := s.slots[s.semaphore] - 1][s.semaphore := s.slots[s.semaphore]] == s.slots;
  }

  /** A drain ends the session with nothing counted, in a new generation: the
      requests that waited never run, and those still handled count no more. */
  lemma {:induction false} DrainLetsGo(events: seq<Event>, id: nat)
    requires var s := After(events); !s.session.Closed? && id in s.requests
    ensures var s := After(events);
            var t := After(events + [BeginDrain] + [EndDrain]);
            && t.session.Closed? && t.tasks == {} && t.pending == t.queueDepth == t.inFlight == 0
            && t.generation == s.generation + 1 && id in t.requests && id !in Counted(t)
            && (s.requests[id].Created? ==> t.requests[id] == Created(true) && Step(t, Run(id)).requests == t.requests - {id})
            && (!s.requests[id].Created? ==> t.requests[id] == s.requests[id])
  {
    AfterKeeps(events);
    After1(events, BeginDrain);
    After1(events + [BeginDrain], EndDrain);
    AfterKeeps(events + [BeginDrain] + [EndDrain]);
    hide After;
    if After(events).requests[id] == Created(false) {
      assert id in Waiting(After(events));
    }
  }
}
