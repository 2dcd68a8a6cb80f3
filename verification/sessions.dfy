/** The machine-control session manager as a step system. A step runs from one
    await to the next; between two steps any other handler may run. */
module Sessions {
  import opened Wrappers
  import opened BindingTables

  // A child session's task, started on one binding.
  datatype Child = Child(id: nat, binding: Binding)

  datatype Request =
    | Attach
    | Activate(revision: nat)
    | Restore(claimed: Binding)
    | Detach
    | Reap(child: nat)

  // How a handler got to releasing its lock.
  datatype Outcome = Plain | RolledBack(previous: Option<Binding>) | Cancelled

  // What follows a stop of the session's child.
  datatype Then =
    | Replacing(b: Binding, previous: Option<Binding>)
    | RollingBack(b: Binding, previous: Option<Binding>, restart: bool)
    | Detaching
    | Reaping(chosen: nat)

  // Where a handler is suspended.
  datatype Pc =
    | Waiting(request: Request)
    | Resolving
    | Issuing(previous: Option<Binding>, root: string)
    | Attaching(b: Binding)
    | Verifying(b: Binding)
    | RestoreVerifying(claimed: Binding)
    | Starting(b: Binding, previous: Option<Binding>, replaced: bool)
    | Auditing(b: Binding, previous: Option<Binding>, started: bool, replaced: bool)
    | StopQueued(next: Then)
    | Stopping(child: Child, next: Then)
    | Restarting(prior: Binding)
    | DetachAuditing
    | ReapAuditing(chosen: nat)
    | Closing(outcome: Outcome)

  datatype Handler = Handler(session: string, pc: Pc)

  datatype Lock = Lock(users: nat, holder: Option<nat>)

  // `history` lists, for each session, the bindings it had when its lock was
  // released since it last had none.
  datatype State = State(
    bindings: Table,
    children: map<string, Child>,
    alive: set<nat>,
    nextId: nat,
    childrenLock: Option<nat>,
    locks: map<string, Lock>,
    handlers: map<nat, Handler>,
    history: map<string, seq<Binding>>)

  const Initial := State([], map[], {}, 0, None, map[], map[], map[])

  datatype Event =
    | Arrive(h: nat, session: string, request: Request)
    | Acquire(h: nat, available: bool)
    | Proceed(h: nat, ok: bool, text: string, grant: string)
    | TakeChildrenLock(h: nat, ok: bool)
    | Cancel(h: nat)
    | Release(h: nat)
    | ChildEnds(id: nat)
    | ChildCallback(session: string, id: nat)

  function Bd(s: State, x: string): Option<Binding> {
    Bound(s.bindings, x)
  }

  predicate Live(s: State, x: string) {
    x in s.children && s.children[x].id in s.alive
  }

  function LiveSessions(s: State): set<string> {
    set x | x in s.children && s.children[x].id in s.alive
  }

  function Past(s: State, x: string): seq<Binding> {
    if x in s.history then s.history[x] else []
  }

  // ---- the segments' effects ----

  function At(s: State, h: nat, pc: Pc): State
    requires h in s.handlers
  {
    s.(handlers := s.handlers[h := s.handlers[h].(pc := pc)])
  }

  /** _remember_binding, or None where it raises. A session that loses its
      binding starts a new history. */
  function Remembered(s: State, b: Binding): Option<State> {
    var t :- Remember(s.bindings, b, LiveSessions(s));
    Some(s.(bindings := t, history := map x | x in s.history && Bound(t, x).Some? :: s.history[x]))
  }

  function Forgotten(s: State, x: string): State {
    s.(bindings := Pop(s.bindings, x), history := s.history - {x})
  }

  function Started(s: State, b: Binding): State {
    s.(children := s.children[b.session := Child(s.nextId, b)],
       alive := s.alive + {s.nextId},
       nextId := s.nextId + 1)
  }

  /** Puts the previous binding back, and its child too where one was
      replaced. */
  function RollBack(s: State, h: nat, previous: Option<Binding>, restart: bool): State
    requires h in s.handlers
  {
    if previous.None? then
      At(Forgotten(s, s.handlers[h].session), h, Closing(RolledBack(None)))
    else
      match Remembered(s, previous.value)
      case None => At(s, h, Closing(Plain))
      case Some(t) =>
        At(t, h, if restart then Restarting(previous.value) else Closing(RolledBack(previous)))
  }

  /** The rest of the segment in which a stop ended. */
  function AfterStop(s: State, h: nat, next: Then): State
    requires h in s.handlers
  {
    match next
    case Replacing(b, previous) =>
      (match Remembered(s, b)
       case None => At(s, h, Closing(Plain))
       case Some(t) => At(t, h, Starting(b, previous, true)))
    case RollingBack(_, previous, restart) => RollBack(s, h, previous, restart)
    case Detaching => At(s, h, DetachAuditing)
    case Reaping(_) => At(s, h, Closing(Plain))
  }

  /** An activate or restore whose audit or start raised. */
  function Fail(s: State, h: nat, b: Binding, previous: Option<Binding>, started: bool, replaced: bool): State
    requires h in s.handlers
  {
    if started then At(s, h, StopQueued(RollingBack(b, previous, replaced)))
    else RollBack(s, h, previous, replaced)
  }

  // ---- the steps ----

  /** _session_lock, entered: one user of the session's lock more. */
  function DoArrive(s: State, h: nat, x: string, request: Request): State {
    s.(handlers := s.handlers[h := Handler(x, Waiting(request))],
       locks := s.locks[x := if x in s.locks then s.locks[x].(users := s.locks[x].users + 1) else Lock(1, None)])
  }

  /** Where a handler goes once it has its session's lock. */
  function FirstPc(s: State, x: string, request: Request): Pc {
    match request
    case Attach => if Live(s, x) then Closing(Plain) else Resolving
    case Activate(revision) =>
      if Bd(s, x).Some? && Bd(s, x).value.revision == revision then Verifying(Bd(s, x).value)
      else Closing(Plain)
    case Restore(claimed) => RestoreVerifying(claimed)
    case Detach => StopQueued(Detaching)
    case Reap(child) => if x in s.children && s.children[x].id == child then ReapAuditing(child) else Closing(Plain)
  }

  function DoAcquire(s: State, h: nat, available: bool): State
    requires h in s.handlers && s.handlers[h].pc.Waiting? && s.handlers[h].session in s.locks
  {
    var x := s.handlers[h].session;
    At(s.(locks := s.locks[x := s.locks[x].(holder := Some(h))]), h,
       if available then FirstPc(s, x, s.handlers[h].pc.request) else Closing(Plain))
  }

  /** The restore handler's checks once its grant is verified. */
  function DoRestore(s: State, h: nat, grant: Binding): State
    requires h in s.handlers
  {
    var x := s.handlers[h].session;
    var current := Bd(s, x);
    if current.Some? && current.value.revision > grant.revision then At(s, h, Closing(Plain))
    else if current.Some? && current.value.revision == grant.revision
         && current.value.fingerprint != grant.fingerprint then At(s, h, Closing(Plain))
    else if Live(s, x) && current != Some(grant) then At(s, h, StopQueued(Replacing(grant, current)))
    else match Remembered(s, grant)
      case None => At(s, h, Closing(Plain))
      case Some(t) =>
        At(t, h, if Live(s, x) then Auditing(grant, current, false, false) else Starting(grant, current, false))
  }

  /** The await a handler is suspended at ends: `ok` unless it raised, with
      what it returned (a root or a fingerprint, and a signed grant). */
  function DoProceed(s: State, h: nat, ok: bool, text: string, grant: string): State
    requires h in s.handlers
  {
    var x := s.handlers[h].session;
    match s.handlers[h].pc
    case Resolving => At(s, h, if ok then Issuing(Bd(s, x), text) else Closing(Plain))
    case Issuing(previous, root) =>
      var revision := if previous.Some? then previous.value.revision + 1 else 1;
      At(s, h, if ok then Attaching(Binding(x, root, text, revision, grant)) else Closing(Plain))
    case Attaching(b) =>
      if !ok then At(s, h, Closing(Plain))
      else (match Remembered(s, b)
            case None => At(s, h, Closing(Plain))
            case Some(t) => At(t, h, Closing(Plain)))
    case Verifying(b) =>
      if !ok then At(s, h, Closing(Plain))
      else (match Remembered(s, b)
            case None => At(s, h, Closing(Plain))
            case Some(t) =>
              At(t, h, if Live(s, x) then Auditing(b, Bd(s, x), false, false) else Starting(b, Bd(s, x), false)))
    case RestoreVerifying(claimed) =>
      if ok && claimed.session == x then DoRestore(s, h, claimed) else At(s, h, Closing(Plain))
    case Auditing(b, previous, started, replaced) =>
      if ok then At(s, h, Closing(Plain)) else Fail(s, h, b, previous, started, replaced)
    case Stopping(child, next) =>
      AfterStop(s.(alive := s.alive - {child.id}, childrenLock := None), h, next)
    case DetachAuditing => if ok then At(Forgotten(s, x), h, Closing(Plain)) else At(s, h, Closing(Plain))
    case ReapAuditing(chosen) => At(s, h, if ok then StopQueued(Reaping(chosen)) else Closing(Plain))
    case _ => s
  }

  /** A handler waiting for _children_lock gets it. Starting a child awaits
      nothing, so it gives the lock back at once. */
  function DoTakeChildrenLock(s: State, h: nat, ok: bool): State
    requires h in s.handlers
  {
    var x := s.handlers[h].session;
    if s.childrenLock.Some? then s
    else match s.handlers[h].pc
      case Starting(b, previous, replaced) =>
        if !ok || |LiveSessions(s)| >= MAX_ACTIVE_CHILD_SESSIONS then Fail(s, h, b, previous, true, replaced)
        else At(Started(s, b), h, Auditing(b, previous, true, replaced))
      case Restarting(prior) =>
        if !ok || |LiveSessions(s)| >= MAX_ACTIVE_CHILD_SESSIONS then At(s, h, Closing(RolledBack(Some(prior))))
        else At(Started(s, prior), h, Closing(RolledBack(Some(prior))))
      case StopQueued(next) =>
        if x !in s.children then AfterStop(s, h, next)
        else At(s.(children := s.children - {x}, childrenLock := Some(h)), h, Stopping(s.children[x], next))
      case _ => s
  }

  /** The handler is gone: one user of its lock less. */
  function Leave(s: State, h: nat, holder: Option<nat>): State
    requires h in s.handlers && s.handlers[h].session in s.locks
  {
    var x := s.handlers[h].session;
    var users := s.locks[x].users;
    s.(handlers := s.handlers - {h},
       locks := if users <= 1 then s.locks - {x} else s.locks[x := Lock(users - 1, holder)])
  }

  function DoRelease(s: State, h: nat): State
    requires h in s.handlers && s.handlers[h].session in s.locks
  {
    var x := s.handlers[h].session;
    var t := Leave(s, h, None);
    if Bd(s, x).None? then t else t.(history := t.history[x := Past(s, x) + [Bd(s, x).value]])
  }

  predicate Cancellable(pc: Pc) {
    !pc.Waiting? && !pc.Stopping? && !pc.Closing?
  }

  /** One step. An event that cannot happen changes nothing. */
  function Step(s: State, ev: Event): State {
    match ev
    case Arrive(h, x, request) => if h in s.handlers then s else DoArrive(s, h, x, request)
    case Acquire(h, available) =>
      if h in s.handlers && s.handlers[h].pc.Waiting? && s.handlers[h].session in s.locks
         && s.locks[s.handlers[h].session].holder.None?
      then DoAcquire(s, h, available) else s
    case Proceed(h, ok, text, grant) => if h in s.handlers then DoProceed(s, h, ok, text, grant) else s
    case TakeChildrenLock(h, ok) => if h in s.handlers then DoTakeChildrenLock(s, h, ok) else s
    case Cancel(h) =>
      if h in s.handlers && s.handlers[h].pc.Waiting? && s.handlers[h].session in s.locks
      then Leave(s, h, s.locks[s.handlers[h].session].holder)
      else if h in s.handlers && Cancellable(s.handlers[h].pc) then At(s, h, Closing(Cancelled))
      else s
    case Release(h) =>
      if h in s.handlers && s.handlers[h].pc.Closing? && s.handlers[h].session in s.locks
      then DoRelease(s, h) else s
    case ChildEnds(id) => s.(alive := s.alive - {id})
    case ChildCallback(x, id) =>
      if x in s.children && s.children[x].id == id && id !in s.alive
      then s.(children := s.children - {x}) else s
  }

  function Run(events: seq<Event>): State {
    if events == [] then Initial
    else Step(Run(events[..|events| - 1]), events[|events| - 1])
  }
}
