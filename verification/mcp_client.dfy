/** The JSON-RPC client of the computer-use driver: requests waiting for their
    replies, the reader that hands replies out, and the driver going away. */
module McpClient {
  import opened Wrappers

  type Id = nat

  // An id as json.loads gives it; a bool is an int to Python.
  datatype WireId = IntId(n: int) | BoolId(b: bool) | OtherId

  // The error of a reply counts only if it is an object, and its code has to
  // read as an int.
  datatype Body = Result(value: string) | Error(code: int, text: string) | BadError

  // One line from the driver: a reply, or anything else (a request or
  // notification of its own, or no JSON object at all).
  datatype Message = Response(id: WireId, body: Body) | OtherMessage

  datatype Failure = Closed(reason: string) | Refused(code: int, text: string)

  // A request's future.
  datatype Future = Waiting | Given(value: string) | Failed(why: Failure) | Cancelled

  // Where a request() call is suspended, or how it ended: with what its future
  // held, or without (the send failed, or it timed out or was cancelled).
  datatype Call = Sending | Awaiting | Notifying | Returned(value: string) | Raised(why: Failure) | Dropped

  // `reading` is false once the reader has stopped; the driver being found
  // gone follows, but not at once.
  datatype Client = Client(
    nextId: Id, pending: set<Id>, futures: map<Id, Future>, calls: map<Id, Call>,
    closed: Option<string>, reading: bool)

  const Fresh := Client(0, {}, map[], map[], None, true)

  // What happens between two suspensions: a request begins, its send ends or
  // is cancelled, it wakes with its reply, gives up waiting, or has told the
  // driver so; the reader takes a line; or the driver is gone.
  datatype Event =
    | Begin
    | Sent(id: Id, failed: bool, broken: bool)
    | SendCancelled(id: Id)
    | Wake(id: Id)
    | GiveUp(id: Id)
    | Notified(id: Id)
    | Line(message: Message)
    | Gone(reason: string)

  /** The pending request an id stands for. */
  function Key(id: WireId): Option<int> {
    match id
    case IntId(n) => Some(n)
    case BoolId(b) => Some(if b then 1 else 0)
    case OtherId => None
  }

  function AsFuture(body: Body): Future
    requires !body.BadError?
  {
    match body
    case Result(value) => Given(value)
    case Error(code, text) => Failed(Refused(code, text))
  }

  function CloseOnce(closed: Option<string>, reason: string): Option<string> {
    if closed.None? then Some(reason) else closed
  }

  function FailAll(futures: map<Id, Future>, pending: set<Id>, why: Failure): map<Id, Future> {
    map id | id in futures :: if id in pending && futures[id].Waiting? then Failed(why) else futures[id]
  }

  /** _fail_pending, with the error already noted as the reason for closing. */
  function FailPending(c: Client, reason: string): Client {
    var closed := CloseOnce(c.closed, reason);
    c.(closed := closed, futures := FailAll(c.futures, c.pending, Closed(closed.value)), reading := false)
  }

  function CallIs(c: Client, id: Id, call: Call): bool {
    id in c.calls && c.calls[id] == call && id in c.futures
  }

  /** The end of request(): whatever happened, the id is no longer pending. */
  function End(c: Client, id: Id, call: Call): Client {
    c.(pending := c.pending - {id}, calls := c.calls[id := call])
  }

  /** What request() does with a future that is done. */
  function Outcome(f: Future): Call
    requires !f.Waiting?
  {
    match f
    case Given(value) => Returned(value)
    case Failed(why) => Raised(why)
    case Cancelled => Dropped
  }

  function Dispatch(c: Client, m: Message): Client {
    if !c.reading || m.OtherMessage? || Key(m.id).None? || Key(m.id).value < 0 then c
    else
      var id := Key(m.id).value;
      if id !in c.pending || id !in c.futures || !c.futures[id].Waiting? then c
      else if m.body.BadError? then c.(reading := false)
      else c.(futures := c.futures[id := AsFuture(m.body)])
  }

  function Step(c: Client, ev: Event): Client {
    match ev
    case Begin =>
      if c.closed.Some? then c
      else
        var id := c.nextId + 1;
        c.(nextId := id, pending := c.pending + {id}, futures := c.futures[id := Waiting], calls := c.calls[id := Sending])
    case Sent(id, failed, broken) =>
      if !CallIs(c, id, Sending) then c
      else if !failed then c.(calls := c.calls[id := Awaiting])
      else
        End(if broken then c.(closed := CloseOnce(c.closed, "the driver closed its input")) else c, id, Dropped)
    case SendCancelled(id) =>
      if CallIs(c, id, Sending) then c.(calls := c.calls[id := Notifying]) else c
    case Wake(id) =>
      if CallIs(c, id, Awaiting) && !c.futures[id].Waiting? then
        End(c, id, Outcome(c.futures[id]))
      else c
    case GiveUp(id) =>
      if !CallIs(c, id, Awaiting) then c
      else
        c.(calls := c.calls[id := Notifying],
           futures := if c.futures[id].Waiting? then c.futures[id := Cancelled] else c.futures)
    case Notified(id) => if CallIs(c, id, Notifying) then End(c, id, Dropped) else c
    case Line(m) => Dispatch(c, m)
    case Gone(reason) => FailPending(c, reason)
  }

  function Run(events: seq<Event>): Client {
    if events == [] then Fresh else Step(Run(events[..|events| - 1]), events[|events| - 1])
  }

  predicate Over(call: Call) {
    call.Returned? || call.Raised? || call.Dropped?
  }

  ghost predicate Consistent(c: Client) {
    && c.futures.Keys == c.calls.Keys
    && (forall id | id in c.calls :: 0 < id <= c.nextId)
    && (forall id | id in c.calls :: id in c.pending <==> !Over(c.calls[id]))
    && (forall id | id in c.pending :: id in c.calls)
    && (forall id | id in c.calls && (c.calls[id].Returned? || c.calls[id].Raised?) ::
          !c.futures[id].Waiting? && c.calls[id] == Outcome(c.futures[id]))
  }

  lemma EndConsistent(c: Client, id: Id, call: Call)
    requires Consistent(c) && id in c.calls && Over(call)
    requires call.Dropped? || (!c.futures[id].Waiting? && call == Outcome(c.futures[id]))
    ensures Consistent(End(c, id, call))
  {
  }

  lemma FailConsistent(c: Client, reason: string)
    requires Consistent(c)
    ensures Consistent(FailPending(c, reason))
  {
  }

  lemma DispatchConsistent(c: Client, m: Message)
    requires Consistent(c)
    ensures Consistent(Dispatch(c, m))
  {
  }

  lemma ClosedConsistent(c: Client, closed: Option<string>)
    requires Consistent(c)
    ensures Consistent(c.(closed := closed))
  {
  }

  lemma StepConsistent(c: Client, ev: Event)
    requires Consistent(c)
    ensures Consistent(Step(c, ev))
  {
    hide FailPending, Dispatch, End;
    match ev
    case Sent(id, failed, broken) =>
      if CallIs(c, id, Sending) && failed {
        var closed := if broken then CloseOnce(c.closed, "the driver closed its input") else c.closed;
        ClosedConsistent(c, closed);
        EndConsistent(c.(closed := closed), id, Dropped);
      }
    case Wake(id) =>
      if CallIs(c, id, Awaiting) && !c.futures[id].Waiting? {
        EndConsistent(c, id, Outcome(c.futures[id]));
      }
    case Notified(id) =>
      if CallIs(c, id, Notifying) {
        EndConsistent(c, id, Dropped);
      }
    case Line(m) => DispatchConsistent(c, m);
    case Gone(reason) => FailConsistent(c, reason);
    case _ =>
  }

  /** Exactly the requests that have not ended are pending: nothing leaks, and
      what a request returns is what its own future was given. */
  lemma {:induction false} PendingIsUnfinished(events: seq<Event>)
    ensures Consistent(Run(events))
  {
    if events != [] {
      PendingIsUnfinished(events[..|events| - 1]);
      StepConsistent(Run(events[..|events| - 1]), events[|events| - 1]);
    }
  }

  // ---- a request resolves at most once, by its own reply ----

  lemma StepSettled(c: Client, ev: Event, id: Id)
    requires Consistent(c) && id in c.futures && !c.futures[id].Waiting?
    ensures id in Step(c, ev).futures && Step(c, ev).futures[id] == c.futures[id]
  {
  }

  /** Whatever a request's future holds first it holds for good. */
  lemma {:induction false} ResolvesOnce(events: seq<Event>, from: nat, id: Id)
    requires from <= |events|
    requires id in Run(events[..from]).futures && !Run(events[..from]).futures[id].Waiting?
    ensures id in Run(events).futures && Run(events).futures[id] == Run(events[..from]).futures[id]
    decreases |events|
  {
    if from == |events| {
      assert events[..from] == events;
    } else {
      var before := events[..|events| - 1];
      assert before[..from] == events[..from];
      ResolvesOnce(before, from, id);
      PendingIsUnfinished(before);
      StepSettled(Run(before), events[|events| - 1], id);
    }
  }

  /** Resolved by the driver: with a result or with an error. */
  predicate Answered(f: Future) {
    f.Given? || (f.Failed? && f.why.Refused?)
  }

  /** What this reply says: its result, or its error. */
  ghost predicate Says(m: Message, f: Future) {
    m.Response?
    && match f
       case Given(value) => m.body == Result(value)
       case Failed(Refused(code, text)) => m.body == Error(code, text)
       case _ => false
  }

  /** The i-th event hands request `id` this: a reply that names it and says so,
      read while it waits. */
  ghost predicate HandsOver(events: seq<Event>, i: nat, id: Id, f: Future)
    requires i < |events|
  {
    && events[i].Line? && Says(events[i].message, f) && Key(events[i].message.id) == Some(id)
    && Run(events[..i]).reading && id in Run(events[..i]).pending
    && id in Run(events[..i]).futures && Run(events[..i]).futures[id].Waiting?
  }

  lemma StepAnswers(c: Client, ev: Event, id: Id)
    requires Consistent(c) && id in Step(c, ev).futures && Answered(Step(c, ev).futures[id])
    requires !(id in c.futures && c.futures[id] == Step(c, ev).futures[id])
    ensures ev.Line? && Says(ev.message, Step(c, ev).futures[id]) && Key(ev.message.id) == Some(id)
    ensures c.reading && id in c.pending && id in c.futures && c.futures[id].Waiting?
  {
  }

  /** A request that the driver resolved was handed its result by a reply with
      its own id that says that result, read while it waited; its error likewise. */
  lemma {:induction false} OnlyItsOwnReply(events: seq<Event>, id: Id) returns (i: nat)
    requires id in Run(events).futures && Answered(Run(events).futures[id])
    ensures i < |events| && HandsOver(events, i, id, Run(events).futures[id])
  {
    hide Step, Consistent, Says;
    assert events != [];
    var before := events[..|events| - 1];
    PendingIsUnfinished(before);
    if id in Run(before).futures && Run(before).futures[id] == Run(events).futures[id] {
      i := OnlyItsOwnReply(before, id);
      assert before[..i] == events[..i];
    } else {
      i := |events| - 1;
      StepAnswers(Run(before), events[i], id);
    }
  }

  lemma StepHands(c: Client, m: Message, id: Id, f: Future)
    requires Consistent(c) && c.reading && id in c.futures && c.futures[id].Waiting? && id in c.pending
    requires Says(m, f) && Key(m.id) == Some(id)
    ensures id in Step(c, Line(m)).futures && Step(c, Line(m)).futures[id] == f
  {
  }

  /** A request has this result, or this error of the driver's, exactly if a
      reply that names it said so while it waited. */
  lemma {:induction false} AnsweredIff(events: seq<Event>, id: Id, f: Future)
    requires Answered(f)
    ensures id in Run(events).futures && Run(events).futures[id] == f <==>
            exists i :: 0 <= i < |events| && HandsOver(events, i, id, f)
  {
    hide Step, Says, Consistent;
    if id in Run(events).futures && Run(events).futures[id] == f {
      var i := OnlyItsOwnReply(events, id);
    }
    if i :| 0 <= i < |events| && HandsOver(events, i, id, f) {
      PendingIsUnfinished(events[..i]);
      StepHands(Run(events[..i]), events[i].message, id, f);
      assert events[..i + 1][..i] == events[..i];
      ResolvesOnce(events, i + 1, id);
    }
  }

  // ---- how a call ends ----

  /** Where request() is after one more step: its send ends before it waits, it
      waits until its future is done or it gives up, and it tells the driver when
      it does. */
  ghost predicate Moves(before: Call, after: Call, ev: Event, id: Id, f: Future) {
    || after == before
    || (before.Sending? && ev.Sent? && ev.id == id && (if ev.failed then after.Dropped? else after.Awaiting?))
    || (before.Sending? && ev == SendCancelled(id) && after.Notifying?)
    || (before.Awaiting? && ev == GiveUp(id) && after.Notifying?)
    || (before.Notifying? && ev == Notified(id) && after.Dropped?)
    || (before.Awaiting? && ev == Wake(id) && EndsWith(after, f))
  }

  /** A call that ends with what its future holds: returned, raised or, where the
      wait was cancelled, neither. */
  ghost predicate EndsWith(call: Call, f: Future) {
    match f
    case Waiting => false
    case Given(value) => call == Returned(value)
    case Failed(why) => call == Raised(why)
    case Cancelled => call == Dropped
  }

  /** What the next step makes of a waiting request's future: the answer of a
      reply that names it, the reason for closing if the driver is gone, a
      cancelled future if the request gives up; and nothing else moves it. */
  lemma {:induction false} FutureMoves(events: seq<Event>, ev: Event, id: Id)
    requires id in Run(events).futures && Run(events).futures[id].Waiting?
    ensures var c, d := Run(events), Step(Run(events), ev);
            && id in d.futures && id in c.calls
            && match ev
               case Line(m) =>
                 if m.Response? && Key(m.id) == Some(id) && c.reading && id in c.pending && !m.body.BadError?
                 then Says(m, d.futures[id]) else d.futures[id].Waiting?
               case Gone(reason) =>
                 if id in c.pending
                 then d.futures[id] == Failed(Closed(if c.closed.Some? then c.closed.value else reason))
                 else d.futures[id].Waiting?
               case GiveUp(k) => d.futures[id] == if k == id && c.calls[id].Awaiting? then Cancelled else Waiting
               case _ => d.futures[id].Waiting?
  {
    hide Run;
    PendingIsUnfinished(events);
  }

  /** The call moves only so, and does so when it can. */
  lemma {:induction false} CallMoves(events: seq<Event>, ev: Event, id: Id)
    requires id in Run(events).calls
    ensures var c, d := Run(events), Step(Run(events), ev);
            && id in d.calls && id in c.futures && Moves(c.calls[id], d.calls[id], ev, id, c.futures[id])
            && (d.calls[id] == c.calls[id] <==>
                  match c.calls[id]
                  case Sending => !(ev.Sent? && ev.id == id) && ev != SendCancelled(id)
                  case Awaiting => ev != GiveUp(id) && !(ev == Wake(id) && !c.futures[id].Waiting?)
                  case Notifying => ev != Notified(id)
                  case _ => true)
  {
    hide Run;
    PendingIsUnfinished(events);
  }

  /** What a request returns, or the error of the driver's it raises, is what a
      reply to it said: a result only where it said one, an error likewise. */
  lemma {:induction false} EndsByItsOwnReply(events: seq<Event>, id: Id) returns (i: nat)
    requires id in Run(events).calls
    requires var call := Run(events).calls[id]; call.Returned? || (call.Raised? && call.why.Refused?)
    ensures i < |events| && events[i].Line? && events[i].message.Response?
    ensures match Run(events).calls[id]
            case Returned(value) => HandsOver(events, i, id, Given(value)) && events[i].message.body == Result(value)
            case Raised(Refused(code, text)) =>
              HandsOver(events, i, id, Failed(Refused(code, text))) && events[i].message.body == Error(code, text)
            case _ => false
  {
    PendingIsUnfinished(events);
    hide Step;
    i := OnlyItsOwnReply(events, id);
  }

  /** Left to itself, a request that is sent and answered returns the result or
      raises the error, and is no longer pending. */
  lemma AnsweredRequestEnds(events: seq<Event>, wire: WireId, body: Body)
    requires Run(events).closed.None? && Run(events).reading
    requires wire == IntId(Run(events).nextId + 1) && !body.BadError?
    ensures var id := Run(events).nextId + 1;
            var t := Run(events + [Begin, Sent(id, false, false), Line(Response(wire, body)), Wake(id)]);
            && id !in Run(events).calls && id in t.calls && id !in t.pending
            && t.calls[id] == match body
                              case Result(value) => Returned(value)
                              case Error(code, text) => Raised(Refused(code, text))
  {
    hide Run, Consistent, Step;
    var c, id := Run(events), Run(events).nextId + 1;
    PendingIsUnfinished(events);
    RunMore(events, Begin);
    RunMore(events + [Begin], Sent(id, false, false));
    RunMore(events + [Begin] + [Sent(id, false, false)], Line(Response(wire, body)));
    RunMore(events + [Begin] + [Sent(id, false, false)] + [Line(Response(wire, body))], Wake(id));
    assert events + [Begin, Sent(id, false, false), Line(Response(wire, body)), Wake(id)] ==
           events + [Begin] + [Sent(id, false, false)] + [Line(Response(wire, body))] + [Wake(id)];
    var sent := SentOff(c);
    AnswerEnds(sent, id, body);
    FreshId(c);
  }

  lemma SentOff(c: Client) returns (sent: Client)
    requires c.closed.None?
    ensures var id := c.nextId + 1;
            && sent == Step(Step(c, Begin), Sent(id, false, false))
            && sent.reading == c.reading && id in sent.pending
            && id in sent.futures && sent.futures[id].Waiting? && id in sent.calls && sent.calls[id].Awaiting?
  {
    sent := Step(Step(c, Begin), Sent(c.nextId + 1, false, false));
  }

  lemma AnswerEnds(c: Client, id: Id, body: Body)
    requires c.reading && id in c.pending && !body.BadError?
    requires id in c.futures && c.futures[id].Waiting? && id in c.calls && c.calls[id].Awaiting?
    ensures var d := Step(Step(c, Line(Response(IntId(id), body))), Wake(id));
            && id in d.calls && id !in d.pending
            && d.calls[id] == match body
                              case Result(value) => Returned(value)
                              case Error(code, text) => Raised(Refused(code, text))
  {
  }

  lemma FreshId(c: Client)
    requires Consistent(c)
    ensures c.nextId + 1 !in c.calls
  {
  }

  lemma RunMore(events: seq<Event>, ev: Event)
    ensures Run(events + [ev]) == Step(Run(events), ev)
  {
    assert (events + [ev])[..|events|] == events;
  }

  /** An id names a request exactly when it is that number, except that `true`
      also names the first. */
  lemma NamesItself(wire: WireId, id: Id)
    ensures Key(wire) == Some(id) <==> wire == IntId(id) || (id == 0 && wire == BoolId(false)) || (id == 1 && wire == BoolId(true))
  {
  }

  /** So the first request can be answered by an id it was not sent with. */
  lemma TrueAnswersTheFirst(value: string)
    ensures var events := [Begin, Line(Response(BoolId(true), Result(value)))];
            1 in Run(events).futures && Run(events).futures[1] == Given(value)
  {
    var events := [Begin, Line(Response(BoolId(true), Result(value)))];
    assert events[..1] == [Begin] && [Begin][..0] == [];
    assert Run([Begin]) == Step(Fresh, Begin);
  }

  /** A reply to a request that no longer waits changes nothing, and one to a
      request that does touches no other. */
  lemma {:induction false} RepliesKeepApart(events: seq<Event>, m: Message, other: Id)
    requires m.Response? && other in Run(events).futures && Key(m.id) != Some(other)
    ensures Step(Run(events), Line(m)).futures[other] == Run(events).futures[other]
    ensures (forall id: nat | Key(m.id) == Some(id) && id in Run(events).futures :: !Run(events).futures[id].Waiting?)
            ==> Step(Run(events), Line(m)) == Run(events)
  {
  }

  // ---- once the driver is gone ----

  ghost predicate Drained(c: Client) {
    c.closed.Some? && forall id | id in c.pending && id in c.futures :: !c.futures[id].Waiting?
  }

  lemma StepDrained(c: Client, ev: Event)
    requires Consistent(c) && Drained(c)
    ensures Drained(Step(c, ev)) && Step(c, ev).nextId == c.nextId
  {
  }

  /** Once pending requests have been failed, none is left waiting and no later
      one can start to. */
  lemma {:induction false} NoneWaitsAfter(events: seq<Event>, from: nat)
    requires from < |events| && events[from].Gone?
    ensures Drained(Run(events)) && Run(events).nextId == Run(events[..from]).nextId
    ensures forall id | id in Run(events).calls && Run(events).calls[id].Awaiting? ::
              id in Run(events).futures && Run(events).futures[id] != Waiting
    decreases |events|
  {
    var before := events[..|events| - 1];
    PendingIsUnfinished(before);
    PendingIsUnfinished(events);
    if from == |events| - 1 {
      assert events[..from] == before;
    } else {
      assert before[..from] == events[..from];
      NoneWaitsAfter(before, from);
      StepDrained(Run(before), events[|events| - 1]);
    }
  }

  lemma ClosedStep(c: Client, ev: Event, id: Id)
    requires Consistent(c)
    requires id in c.futures && c.futures[id].Failed? && c.futures[id].why.Closed? ==> c.closed == Some(c.futures[id].why.reason)
    ensures var d := Step(c, ev);
            && (id in d.futures && d.futures[id].Failed? && d.futures[id].why.Closed? ==> d.closed == Some(d.futures[id].why.reason))
            && d.closed ==
               if c.closed.Some? then c.closed
               else if ev.Gone? then Some(ev.reason)
               else if ev.Sent? && ev.failed && ev.broken && ev.id in c.calls && c.calls[ev.id].Sending?
               then Some("the driver closed its input")
               else None
  {
  }

  /** The driver is taken for gone exactly once a send found its input closed or
      the reader said so; the first such reason is the one kept, and the one that
      every request failed for it raises. */
  lemma {:induction false} FirstReasonStays(events: seq<Event>, id: Id)
    ensures Run(events).closed == FirstReason(events)
    ensures id in Run(events).futures && Run(events).futures[id].Failed? && Run(events).futures[id].why.Closed? ==>
              Run(events).closed == Some(Run(events).futures[id].why.reason)
  {
    hide Step;
    if events != [] {
      var front, last := events[..|events| - 1], events[|events| - 1];
      FirstReasonStays(front, id);
      PendingIsUnfinished(front);
      ClosedStep(Run(front), last, id);
    }
  }

  /** The reason an event gives for closing, if it gives one. */
  ghost function ReasonGiven(events: seq<Event>): Option<string>
    requires events != []
  {
    var before, last := events[..|events| - 1], events[|events| - 1];
    if last.Gone? then Some(last.reason)
    else if last.Sent? && last.failed && last.broken && last.id in Run(before).calls && Run(before).calls[last.id].Sending?
    then Some("the driver closed its input")
    else None
  }

  ghost function FirstReason(events: seq<Event>): Option<string> {
    if events == [] then None
    else
      var earlier := FirstReason(events[..|events| - 1]);
      if earlier.Some? then earlier else ReasonGiven(events)
  }

  /** The reader stops only once the driver is gone or a reply to a waiting
      request has an error that cannot be read. */
  lemma {:induction false} ReaderStopsIff(events: seq<Event>, ev: Event)
    ensures Step(Run(events), ev).reading <==>
            && Run(events).reading && !ev.Gone?
            && !(ev.Line? && ev.message.Response? && ev.message.body.BadError?
                 && exists id: Id :: Key(ev.message.id) == Some(id) && id in Run(events).pending && id in Run(events).futures
                                     && Run(events).futures[id].Waiting?)
  {
    hide Run;
    PendingIsUnfinished(events);
  }

  // ---- the client ----

  lemma FailedAll(settled: map<Id, Future>, pending: map<Id, Future>, after: map<Id, Future>, why: Failure)
    requires after.Keys == pending.Keys
    requires forall id | id in pending :: after[id] == if pending[id].Waiting? then Failed(why) else pending[id]
    ensures settled + after == FailAll(settled + pending, pending.Keys, why)
  {
  }

  class StdioMcpClient {
    var nextId: Id
    var pending: map<Id, Future>
    var closedError: Option<string>
    var reading: bool
    // The futures of requests that are no longer pending, and where each
    // request() is.
    ghost var settled: map<Id, Future>
    ghost var calls: map<Id, Call>

    ghost function Contents(): Client
      reads this
    {
      Client(nextId, pending.Keys, settled + pending, calls, closedError, reading)
    }

    ghost predicate Valid()
      reads this
    {
      Consistent(Contents())
    }

    constructor ()
      ensures Contents() == Fresh
    {
      nextId, pending, closedError, reading := 0, map[], None, true;
      settled, calls := map[], map[];
    }

    /** The start of request(): its id, or None when the client is closed. */
    method BeginRequest() returns (id: Option<Id>)
      modifies this
      ensures Contents() == Step(old(Contents()), Begin)
      ensures id == if old(closedError).Some? then None else Some(nextId)
    {
      if closedError.Some? {
        return None;
      }
      nextId := nextId + 1;
      pending := pending[nextId := Waiting];
      calls := calls[nextId := Sending];
      return Some(nextId);
    }

    /** The `finally` of request(), at the end of every way through it. */
    method PopPending(id: Id, ghost call: Call)
      requires id in pending
      modifies this`pending, this`settled, this`calls
      ensures Contents() == End(old(Contents()), id, call)
    {
      settled := settled[id := pending[id]];
      calls := calls[id := call];
      pending := pending - {id};
      assert settled + pending == old(settled + pending);
    }

    /** request() once its line is sent, or sending it failed. */
    method AfterSend(id: Id, failed: bool, broken: bool)
      requires Valid() && CallIs(Contents(), id, Sending)
      modifies this
      ensures Valid() && Contents() == Step(old(Contents()), Sent(id, failed, broken))
    {
      StepConsistent(Contents(), Sent(id, failed, broken));
      hide Consistent;
      InPending(Contents(), id);
      if !failed {
        calls := calls[id := Awaiting];
        return;
      }
      if broken && closedError.None? {
        closedError := Some("the driver closed its input");
      }
      PopPending(id, Dropped);
    }

    /** request() once its future is done: what it returns or raises. */
    method AfterWait(id: Id) returns (call: Call)
      requires Valid() && CallIs(Contents(), id, Awaiting) && id in pending && pending[id] != Waiting
      modifies this
      ensures Valid() && Contents() == Step(old(Contents()), Wake(id))
      ensures call == Outcome(old(pending)[id])
    {
      StepConsistent(Contents(), Wake(id));
      call := Outcome(pending[id]);
      PopPending(id, call);
    }

    /** request() timed out or cancelled: wait_for cancels the future if it is
        not done, and the driver is told; the id is pending until it has been. */
    method AbandonWait(id: Id)
      requires Valid() && CallIs(Contents(), id, Awaiting)
      modifies this
      ensures Valid() && Contents() == Step(old(Contents()), GiveUp(id))
    {
      hide Consistent;
      StepConsistent(Contents(), GiveUp(id));
      InPending(Contents(), id);
      if pending[id].Waiting? {
        pending := pending[id := Cancelled];
        assert settled + pending == old(settled + pending)[id := Cancelled];
      }
      calls := calls[id := Notifying];
      assert Contents() == Step(old(Contents()), GiveUp(id));
    }

    /** _closed and _fail_pending. */
    method FailEverything(reason: string)
      modifies this
      ensures Contents() == FailPending(old(Contents()), reason)
    {
      hide FailAll;
      if closedError.None? {
        closedError := Some(reason);
      }
      reading := false;
      var futures := FailFutures(pending, Closed(closedError.value));
      FailedAll(settled, pending, futures, Closed(closedError.value));
      pending := futures;
    }

    /** Every pending future that is not done gets the error. */
    static method FailFutures(before: map<Id, Future>, why: Failure) returns (futures: map<Id, Future>)
      ensures futures.Keys == before.Keys
      ensures forall id | id in before :: futures[id] == if before[id].Waiting? then Failed(why) else before[id]
    {
      futures := before;
      var todo := before.Keys;
      while todo != {}
        invariant futures.Keys == before.Keys && todo <= before.Keys
        invariant forall id | id in before ::
                    futures[id] == if before[id].Waiting? && id !in todo then Failed(why) else before[id]
        decreases |todo|
      {
        var id :| id in todo;
        if futures[id].Waiting? {
          futures := futures[id := Failed(why)];
        }
        todo := todo - {id};
      }
    }

    /** The reader's _dispatch of one line. */
    method DispatchLine(m: Message)
      requires Valid()
      modifies this
      ensures Valid() && Contents() == Dispatch(old(Contents()), m)
    {
      hide Consistent;
      StepConsistent(Contents(), Line(m));
      if !reading || m.OtherMessage? {
        return;
      }
      var key := Key(m.id);
      if key.None? || key.value < 0 || key.value !in pending || !pending[key.value].Waiting? {
        return;
      }
      if m.body.BadError? {
        reading := false;
        return;
      }
      pending := pending[key.value := AsFuture(m.body)];
      assert settled + pending == old(settled + pending)[key.value := AsFuture(m.body)];
      assert Contents() == Dispatch(old(Contents()), m);
    }
  }

  lemma InPending(c: Client, id: Id)
    requires Consistent(c) && id in c.calls && !Over(c.calls[id])
    ensures id in c.pending
  {
  }
}
