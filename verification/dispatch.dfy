/** Request admission and the counters behind it. A step runs from one await of
    a request, of the frame reader or of a drain to the next. */
module Dispatch {
  // Where a request stands. The generation and the semaphore are the ones its
  // coroutine saw when it first ran. One that responds has its response to send,
  // and after it the STATUS that is due, if one is.
  datatype Request =
    | Created(cancelled: bool)
    | Blocked(generation: nat, semaphore: nat)
    | Handling(generation: nat, semaphore: nat)
    | Sending(statusDue: bool)

  datatype Session = Open | Draining | Closed

  datatype State = State(
    session: Session,
    maxConcurrent: nat,
    pending: int,
    queueDepth: int,
    inFlight: int,
    generation: nat,
    semaphore: nat,
    slots: map<nat, int>,
    requests: map<nat, Request>,
    tasks: set<nat>,
    detaching: bool,
    admitted: nat,
    statuses: nat)

  const Initial := State(Closed, 0, 0, 0, 0, 0, 0, map[0 := 0], map[], {}, false, 0, 0)

  datatype Event =
    | OpenSession(maxConcurrent: nat)
    | Frame(id: nat)
    | Run(id: nat)
    | Unblock(id: nat)
    | CancelBlocked(id: nat)
    | Finish(id: nat, responds: bool)
    | Sent(id: nat, cut: bool)
    | BeginDrain
    | EndDrain
    | BeginDetach
    | AbandonDetach

  /** What _on_frame does with a request at this moment. */
  predicate Admits(s: State) {
    s.session.Open? && !s.detaching && s.pending < s.maxConcurrent
  }

  /** Free request slots, floored at 0. */
  function AvailableCapacity(s: State): int {
    var occupied := if s.pending > s.inFlight + s.queueDepth then s.pending else s.inFlight + s.queueDepth;
    if s.maxConcurrent - occupied > 0 then s.maxConcurrent - occupied else 0
  }

  /** Whether an idle child may be detached (_idle_since, clock aside). */
  predicate Idle(s: State) {
    s.pending == 0 && s.tasks == {}
  }

  function DoFrame(s: State, id: nat): State {
    if !Admits(s) then s
    else s.(pending := s.pending + 1, queueDepth := s.queueDepth + 1,
            requests := s.requests[id := Created(false)], tasks := s.tasks + {id},
            admitted := s.admitted + 1)
  }

  /** The request is over. */
  function Gone(s: State, id: nat): State {
    s.(requests := s.requests - {id}, tasks := s.tasks - {id})
  }

  /** The semaphore is taken: the credit moves from queue to in flight. */
  function Take(s: State, id: nat, generation: nat, semaphore: nat): State
    requires semaphore in s.slots
  {
    var t := s.(slots := s.slots[semaphore := s.slots[semaphore] - 1],
                requests := s.requests[id := Handling(generation, semaphore)]);
    if generation == s.generation then t.(queueDepth := t.queueDepth - 1, inFlight := t.inFlight + 1) else t
  }

  /** The coroutine's first segment. One cancelled before it never runs. */
  function DoRun(s: State, id: nat): State
    requires id in s.requests && s.requests[id].Created?
  {
    if s.requests[id].cancelled then Gone(s, id)
    else if s.semaphore in s.slots && s.slots[s.semaphore] > 0 then Take(s, id, s.generation, s.semaphore)
    else s.(requests := s.requests[id := Blocked(s.generation, s.semaphore)])
  }

  /** What every counted request settles when it ends. */
  function Settle(s: State): State {
    s.(pending := if s.pending - 1 > 0 then s.pending - 1 else 0)
  }

  function DoCancelBlocked(s: State, id: nat): State
    requires id in s.requests && s.requests[id].Blocked?
  {
    var t := Gone(s, id);
    if s.requests[id].generation == s.generation then Settle(t.(queueDepth := t.queueDepth - 1)) else t
  }

  /** was_full_after_decrement: the request that ends here found the session
      full. */
  predicate WasFull(s: State, id: nat)
    requires id in s.requests && s.requests[id].Handling?
  {
    s.requests[id].generation == s.generation
    && (s.pending >= s.maxConcurrent || s.inFlight == s.maxConcurrent)
  }

  function DoFinish(s: State, id: nat, responds: bool): State
    requires id in s.requests && s.requests[id].Handling? && s.requests[id].semaphore in s.slots
  {
    var r := s.requests[id];
    var freed := s.(slots := s.slots[r.semaphore := s.slots[r.semaphore] + 1]);
    var t := if responds then freed.(requests := freed.requests[id := Sending(WasFull(s, id))]) else Gone(freed, id);
    if r.generation == s.generation then Settle(t.(inFlight := t.inFlight - 1)) else t
  }

  /** The response is sent, or failed to be, or was cut by a cancel; only a cut
      takes the STATUS with it. */
  function DoSent(s: State, id: nat, cut: bool): State
    requires id in s.requests && s.requests[id].Sending?
  {
    var t := Gone(s, id);
    if s.requests[id].statusDue && !cut then t.(statuses := t.statuses + 1) else t
  }

  /** _cancel_dispatch_requests, with the reader no longer reading. */
  function DoBeginDrain(s: State): State {
    s.(session := Draining,
       requests := map id | id in s.requests ::
         if s.requests[id].Created? && id in s.tasks then Created(true) else s.requests[id])
  }

  function DoEndDrain(s: State): State {
    s.(session := Closed, generation := s.generation + 1, tasks := {}, pending := 0, queueDepth := 0, inFlight := 0)
  }

  function DoOpen(s: State, maxConcurrent: nat): State {
    s.(session := Open, maxConcurrent := maxConcurrent, pending := 0, queueDepth := 0, inFlight := 0,
       semaphore := s.semaphore + 1, slots := s.slots[s.semaphore + 1 := maxConcurrent])
  }

  function Step(s: State, ev: Event): State {
    match ev
    case OpenSession(m) => if s.session.Closed? then DoOpen(s, m) else s
    case Frame(id) => if id in s.requests then s else DoFrame(s, id)
    case Run(id) => if id in s.requests && s.requests[id].Created? then DoRun(s, id) else s
    case Unblock(id) =>
      if id in s.requests && s.requests[id].Blocked? && s.requests[id].semaphore in s.slots
         && s.slots[s.requests[id].semaphore] > 0
      then Take(s, id, s.requests[id].generation, s.requests[id].semaphore) else s
    case CancelBlocked(id) => if id in s.requests && s.requests[id].Blocked? then DoCancelBlocked(s, id) else s
    case Finish(id, responds) =>
      if id in s.requests && s.requests[id].Handling? && s.requests[id].semaphore in s.slots
      then DoFinish(s, id, responds) else s
    case Sent(id, cut) => if id in s.requests && s.requests[id].Sending? then DoSent(s, id, cut) else s
    case BeginDrain => if s.session.Closed? then s else DoBeginDrain(s)
    case EndDrain => if s.session.Draining? then DoEndDrain(s) else s
    case BeginDetach => if Idle(s) then s.(detaching := true) else s
    case AbandonDetach => s.(detaching := false)
  }

  function After(events: seq<Event>): State {
    if events == [] then Initial
    else Step(After(events[..|events| - 1]), events[|events| - 1])
  }

  // ---- the counters in place ----

  /** The counters of a ShimDaemon, updated in place. */
  class Dispatcher {
    var pendingRequests: int
    var queueDepth: int
    var inFlight: int
    var dispatchGeneration: nat
    var maxConcurrent: nat
    var detaching: bool

    /** The counters show those of `s`. */
    ghost predicate Shows(s: State)
      reads this
    {
      && pendingRequests == s.pending && queueDepth == s.queueDepth && inFlight == s.inFlight
      && dispatchGeneration == s.generation && maxConcurrent == s.maxConcurrent && detaching == s.detaching
    }

    constructor ()
      ensures Shows(Initial)
    {
      pendingRequests, queueDepth, inFlight := 0, 0, 0;
      dispatchGeneration, maxConcurrent, detaching := 0, 0, false;
    }

    /** _on_frame, from the two refusals on. */
    method OnFrame(ghost s: State, ghost id: nat) returns (admitted: bool)
      requires Shows(s) && s.session.Open? && id !in s.requests
      modifies this
      ensures admitted == Admits(s) && Shows(Step(s, Frame(id)))
    {
      if detaching {
        return false;
      }
      if pendingRequests >= maxConcurrent {
        return false;
      }
      pendingRequests := pendingRequests + 1;
      queueDepth := queueDepth + 1;
      return true;
    }

    /** The request's `finally` blocks, once it held the semaphore, and what
        follows them: whether a STATUS is due after the response. */
    method FinishDispatch(ghost s: State, ghost id: nat, generation: nat, responds: bool)
      returns (statusDue: bool)
      requires Shows(s) && id in s.requests && s.requests[id].Handling? && s.requests[id].semaphore in s.slots
      requires generation == s.requests[id].generation
      modifies this
      ensures Shows(Step(s, Finish(id, responds)))
      ensures var t := Step(s, Finish(id, responds));
              statusDue <==> id in t.requests && t.requests[id] == Sending(true)
    {
      var wasFull := false;
      if generation == dispatchGeneration {
        wasFull := pendingRequests >= maxConcurrent || inFlight == maxConcurrent;
        inFlight := inFlight - 1;
      }
      if generation == dispatchGeneration {
        pendingRequests := if pendingRequests - 1 > 0 then pendingRequests - 1 else 0;
      }
      if !responds {
        return false;
      }
      return wasFull;
    }

    /** The end of _drain_dispatch_tasks. */
    method ClearCounters(ghost s: State)
      requires Shows(s) && s.session.Draining?
      modifies this
      ensures Shows(Step(s, EndDrain))
    {
      dispatchGeneration := dispatchGeneration + 1;
      pendingRequests, queueDepth, inFlight := 0, 0, 0;
    }

    /** _available_capacity. */
    method Capacity(ghost s: State) returns (free: int)
      requires Shows(s)
      ensures free == AvailableCapacity(s)
    {
      var occupied := if pendingRequests > inFlight + queueDepth then pendingRequests else inFlight + queueDepth;
      free := maxConcurrent - occupied;
      if free < 0 {
        free := 0;
      }
    }
  }
}
