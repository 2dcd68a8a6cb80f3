/** A recording, and the reviews that remove its steps or hide their values. */
module Reviews {
  import opened Wrappers

  datatype Value = Value(raw: Option<string>, kind: string, isParameter: Option<bool>)

  // `hinted` says whether the step's role or label looks like a secret's;
  // `floor` stands for the fields that are always there and no review touches.
  datatype Step = Step(number: int, value: Value, redacted: bool, hinted: bool, floor: string)

  datatype Review = Review(remove: set<int>, hide_: set<int>)

  // What a session holds: the steps in order, those that reviews removed, and
  // whether it is stopped.
  datatype Recording = Recording(steps: seq<Step>, removed: set<int>, stopped: bool)

  // ---- hiding one value ----

  function Hidden(step: Step): Step {
    step.(value := Value(None, "secret", step.value.isParameter), redacted := true)
  }

  predicate LooksLikeSecret(step: Step) {
    step.value.kind == "secret" || step.hinted
  }

  function RedactStep(step: Step): Step {
    if LooksLikeSecret(step) then Hidden(step) else step
  }

  /** Redacting again changes nothing, and it does not matter whether a value
      was hidden by a review before it is redacted or after. */
  lemma HidingSettles(step: Step)
    ensures Hidden(Hidden(step)) == Hidden(step)
    ensures RedactStep(Hidden(step)) == Hidden(step) == Hidden(RedactStep(step))
    ensures RedactStep(RedactStep(step)) == RedactStep(step)
  {
  }

  /** What hiding a step's value leaves of it: no raw value, a secret's kind and
      the mark that it is redacted; everything else as it was. */
  ghost predicate HidesOnly(before: Step, after: Step) {
    && after.value.raw.None? && after.value.kind == "secret" && after.redacted
    && after.value.isParameter == before.value.isParameter
    && after.number == before.number && after.hinted == before.hinted && after.floor == before.floor
  }

  /** A step is shown as it is unless its kind or its label or role is a
      secret's; then only its value is hidden. */
  lemma ShownOrHidden(step: Step)
    ensures HidesOnly(step, Hidden(step))
    ensures if step.value.kind == "secret" || step.hinted then HidesOnly(step, RedactStep(step)) else RedactStep(step) == step
  {
  }

  // ---- one review ----

  function Numbers(steps: seq<Step>): set<int> {
    set s | s in steps :: s.number
  }

  /** Every number this recording ever had. */
  function Known(r: Recording): set<int> {
    Numbers(r.steps) + r.removed
  }

  predicate Accepts(r: Recording, v: Review) {
    r.stopped && v.remove + v.hide_ <= Known(r)
  }

  function Reviewed(steps: seq<Step>, remove: set<int>, hide_: set<int>): seq<Step> {
    if steps == [] then []
    else
      var front, last := Reviewed(steps[..|steps| - 1], remove, hide_), steps[|steps| - 1];
      if last.number in remove then front
      else if last.number in hide_ then front + [Hidden(last)]
      else front + [last]
  }

  function Apply(r: Recording, v: Review): Recording {
    r.(steps := Reviewed(r.steps, v.remove, v.hide_), removed := r.removed + v.remove * Numbers(r.steps))
  }

  function Union(v: Review, w: Review): Review {
    Review(v.remove + w.remove, v.hide_ + w.hide_)
  }

  lemma ReviewedSnoc(steps: seq<Step>, last: Step, remove: set<int>, hide_: set<int>)
    ensures var front := Reviewed(steps, remove, hide_);
            Reviewed(steps + [last], remove, hide_) ==
            if last.number in remove then front
            else if last.number in hide_ then front + [Hidden(last)]
            else front + [last]
  {
    assert (steps + [last])[..|steps|] == steps;
  }

  lemma {:induction false} ReviewedNumbers(steps: seq<Step>, remove: set<int>, hide_: set<int>)
    ensures Numbers(Reviewed(steps, remove, hide_)) == Numbers(steps) - remove
  {
    if steps != [] {
      var front, last := steps[..|steps| - 1], steps[|steps| - 1];
      ReviewedNumbers(front, remove, hide_);
      assert steps == front + [last];
      NumbersSnoc(front, last);
      NumbersSnoc(Reviewed(front, remove, hide_), last);
      NumbersSnoc(Reviewed(front, remove, hide_), Hidden(last));
    } else {
      assert Numbers(steps) == {};
    }
  }

  lemma NumbersSnoc(steps: seq<Step>, last: Step)
    ensures Numbers(steps + [last]) == Numbers(steps) + {last.number}
  {
    assert forall s | s in steps :: s in steps + [last];
    assert last in steps + [last];
  }

  /** A review never changes which numbers are known, so what was accepted once
      is accepted ever after. */
  lemma KnownStays(r: Recording, v: Review)
    ensures Known(Apply(r, v)) == Known(r)
  {
    ReviewedNumbers(r.steps, v.remove, v.hide_);
  }

  /** Reviewing twice is reviewing once with both. */
  lemma {:induction false} ReviewedTwice(steps: seq<Step>, v: Review, w: Review)
    ensures Reviewed(Reviewed(steps, v.remove, v.hide_), w.remove, w.hide_) ==
            Reviewed(steps, v.remove + w.remove, v.hide_ + w.hide_)
  {
    if steps != [] {
      var front, last := steps[..|steps| - 1], steps[|steps| - 1];
      ReviewedTwice(front, v, w);
      ReviewedSnoc(Reviewed(front, v.remove, v.hide_), last, w.remove, w.hide_);
      ReviewedSnoc(Reviewed(front, v.remove, v.hide_), Hidden(last), w.remove, w.hide_);
    }
  }

  /** Two reviews equal one review of their unions, so their order is nothing. */
  lemma ReviewsJoin(r: Recording, v: Review, w: Review)
    ensures Apply(Apply(r, v), w) == Apply(r, Union(v, w))
    ensures Apply(Apply(r, v), w) == Apply(Apply(r, w), v)
  {
    ReviewedTwice(r.steps, v, w);
    ReviewedTwice(r.steps, w, v);
    assert v.remove + w.remove == w.remove + v.remove && v.hide_ + w.hide_ == w.hide_ + v.hide_;
    ReviewedNumbers(r.steps, v.remove, v.hide_);
    ReviewedNumbers(r.steps, w.remove, w.hide_);
    var ns := Numbers(r.steps);
    assert v.remove * ns + w.remove * (ns - v.remove) == (v.remove + w.remove) * ns;
    assert w.remove * ns + v.remove * (ns - w.remove) == (v.remove + w.remove) * ns;
  }

  function ApplyAll(r: Recording, reviews: seq<Review>): Recording
    decreases |reviews|
  {
    if reviews == [] then r else ApplyAll(Apply(r, reviews[0]), reviews[1..])
  }

  lemma UnionTwice(v: Review)
    ensures Union(v, v) == v
  {
  }

  /** An accepted review that is sent again, after any later reviews, is
      accepted and changes nothing. */
  lemma {:induction false} ReplayIsNothing(r: Recording, v: Review, later: seq<Review>)
    requires Accepts(r, v)
    ensures var t := ApplyAll(Apply(r, v), later);
            Accepts(t, v) && Apply(t, v) == t
    decreases |later|
  {
    KnownStays(r, v);
    if later == [] {
      UnionTwice(v);
      ReviewsJoin(r, v, v);
    } else {
      KnownStays(r, later[0]);
      ReviewsJoin(r, v, later[0]);
      ReplayIsNothing(Apply(r, later[0]), v, later[1..]);
    }
  }

  function Order(steps: seq<Step>): seq<int> {
    seq(|steps|, i requires 0 <= i < |steps| => steps[i].number)
  }

  function Without(numbers: seq<int>, remove: set<int>): seq<int> {
    if numbers == [] then []
    else
      var front, last := numbers[..|numbers| - 1], numbers[|numbers| - 1];
      Without(front, remove) + if last in remove then [] else [last]
  }

  /** The steps that stay keep their order. */
  lemma {:induction false} OrderKept(steps: seq<Step>, remove: set<int>, hide_: set<int>)
    ensures Order(Reviewed(steps, remove, hide_)) == Without(Order(steps), remove)
  {
    if steps != [] {
      OrderKept(steps[..|steps| - 1], remove, hide_);
      assert Order(steps)[..|steps| - 1] == Order(steps[..|steps| - 1]);
    }
  }

  /** `from` tells which step each reviewed one was: all but the removed ones, in
      order, with the value hidden of those the review hides and of no other. */
  ghost predicate ComesFrom(reviewed: seq<Step>, from: seq<nat>, steps: seq<Step>, remove: set<int>, hide_: set<int>) {
    && |from| == |reviewed|
    && (forall k | 0 <= k < |from| :: from[k] < |steps|)
    && (forall j, k | 0 <= j < k < |from| :: from[j] < from[k])
    && (forall i: nat | i < |steps| :: i in from <==> steps[i].number !in remove)
    && (forall k | 0 <= k < |from| ::
          if steps[from[k]].number in hide_ then HidesOnly(steps[from[k]], reviewed[k]) else reviewed[k] == steps[from[k]])
  }

  lemma ComesSkip(reviewed: seq<Step>, from: seq<nat>, steps: seq<Step>, last: Step, remove: set<int>, hide_: set<int>)
    requires ComesFrom(reviewed, from, steps, remove, hide_) && last.number in remove
    ensures ComesFrom(reviewed, from, steps + [last], remove, hide_)
  {
    hide HidesOnly;
  }

  lemma ComesAdd(reviewed: seq<Step>, from: seq<nat>, steps: seq<Step>, last: Step, after: Step, remove: set<int>, hide_: set<int>)
    requires ComesFrom(reviewed, from, steps, remove, hide_) && last.number !in remove
    requires if last.number in hide_ then HidesOnly(last, after) else after == last
    ensures ComesFrom(reviewed + [after], from + [|steps|], steps + [last], remove, hide_)
  {
    hide HidesOnly;
    var all := from + [|steps|];
    assert all[|from|] == |steps|;
    forall i: nat | i < |steps + [last]| ensures i in all <==> (steps + [last])[i].number !in remove {
      assert i < |steps| ==> (steps + [last])[i] == steps[i];
    }
  }

  /** What a review leaves is made of exactly the steps it does not remove. */
  lemma {:induction false} ReviewedFrom(steps: seq<Step>, remove: set<int>, hide_: set<int>) returns (from: seq<nat>)
    ensures ComesFrom(Reviewed(steps, remove, hide_), from, steps, remove, hide_)
  {
    hide ComesFrom;
    if steps == [] {
      from := NoneCome(remove, hide_);
    } else {
      var front, last := steps[..|steps| - 1], steps[|steps| - 1];
      from := ReviewedFrom(front, remove, hide_);
      assert steps == front + [last];
      var reviewed := Reviewed(front, remove, hide_);
      if last.number in remove {
        ComesSkip(reviewed, from, front, last, remove, hide_);
      } else {
        var after := if last.number in hide_ then Hidden(last) else last;
        ComesAdd(reviewed, from, front, last, after, remove, hide_);
        from := from + [|front|];
      }
    }
  }

  lemma NoneCome(remove: set<int>, hide_: set<int>) returns (from: seq<nat>)
    ensures from == [] && ComesFrom([], from, [], remove, hide_)
  {
    from := [];
  }

  // ---- whole lives of a recording ----

  datatype Event = Append(step: Step) | Stop | Reviewing(v: Review)

  /** What each call does; one that raises leaves the recording as it is. */
  function Next(r: Recording, ev: Event): Recording {
    match ev
    case Append(step) => if r.stopped then r else r.(steps := r.steps + [step])
    case Stop => r.(stopped := true)
    case Reviewing(v) => if Accepts(r, v) then Apply(r, v) else r
  }

  function Life(r: Recording, events: seq<Event>): Recording
    decreases |events|
  {
    if events == [] then r else Life(Next(r, events[0]), events[1..])
  }

  /** No step of that number shows a value. */
  ghost predicate AllHidden(r: Recording, n: int) {
    forall s | s in r.steps && s.number == n :: s.value.raw.None? && s.value.kind == "secret" && s.redacted
  }

  lemma {:induction false} ReviewedSteps(steps: seq<Step>, remove: set<int>, hide_: set<int>, s: Step)
    requires s in Reviewed(steps, remove, hide_)
    ensures s.number !in remove
    ensures s in steps || (exists t | t in steps :: s == Hidden(t))
    ensures s.number in hide_ ==> s.value.raw.None? && s.value.kind == "secret" && s.redacted
  {
    var front, last := steps[..|steps| - 1], steps[|steps| - 1];
    if s in Reviewed(front, remove, hide_) {
      ReviewedSteps(front, remove, hide_, s);
      assert forall t | t in front :: t in steps;
    } else {
      assert last in steps;
    }
  }

  lemma ReviewKeepsHidden(r: Recording, v: Review, n: int)
    requires AllHidden(r, n)
    ensures AllHidden(Apply(r, v), n)
  {
    forall s | s in Apply(r, v).steps && s.number == n ensures s.value.raw.None? && s.value.kind == "secret" && s.redacted {
      ReviewedSteps(r.steps, v.remove, v.hide_, s);
    }
  }

  /** Once a recording is stopped, a number that is gone stays gone, and one
      whose values are hidden stays hidden. */
  lemma {:induction false} GoneStaysGone(r: Recording, events: seq<Event>, n: int)
    requires r.stopped
    ensures n !in Numbers(r.steps) ==> n !in Numbers(Life(r, events).steps)
    ensures AllHidden(r, n) ==> AllHidden(Life(r, events), n)
    decreases |events|
  {
    if events != [] {
      var next := Next(r, events[0]);
      if events[0].Reviewing? {
        var v := events[0].v;
        ReviewedNumbers(r.steps, v.remove, v.hide_);
        if AllHidden(r, n) {
          ReviewKeepsHidden(r, v, n);
        }
      }
      GoneStaysGone(next, events[1..], n);
    }
  }

  /** The steps a recording took: those appended before it was stopped. */
  ghost function Taken(events: seq<Event>, stopped: bool): set<int>
    decreases |events|
  {
    if events == [] || stopped then {}
    else (if events[0].Append? then {events[0].step.number} else {}) + Taken(events[1..], events[0].Stop?)
  }

  /** A review is refused exactly if the recording was not stopped, or names a
      number that none of the steps it ever took has. */
  lemma {:induction false} KnownAreTaken(r: Recording, events: seq<Event>)
    ensures Known(Life(r, events)) == Known(r) + Taken(events, r.stopped)
    ensures Life(r, events).stopped <==> r.stopped || Stop in events
    decreases |events|
  {
    if events != [] {
      var next := Next(r, events[0]);
      assert events == [events[0]] + events[1..];
      if events[0].Append? && !r.stopped {
        NumbersSnoc(r.steps, events[0].step);
      }
      if events[0].Reviewing? && Accepts(r, events[0].v) {
        KnownStays(r, events[0].v);
      }
      KnownAreTaken(next, events[1..]);
      if r.stopped {
        TakenNone(events[1..]);
      }
    }
  }

  lemma TakenNone(events: seq<Event>)
    ensures Taken(events, true) == {}
  {
  }

  lemma {:induction false} RefusedIff(events: seq<Event>, v: Review)
    ensures var r := Life(Recording([], {}, false), events);
            Next(r, Reviewing(v)) == (if Stop in events && v.remove <= Taken(events, false) && v.hide_ <= Taken(events, false)
                                      then Apply(r, v) else r)
  {
    var new_ := Recording([], {}, false);
    KnownAreTaken(new_, events);
    assert Known(new_) == {};
  }

  /** A step that an accepted review removed never comes back, nor a value it
      hid. */
  lemma ReviewsAreFinal(r: Recording, v: Review, events: seq<Event>, n: int)
    requires Accepts(r, v)
    ensures n in v.remove ==> n !in Numbers(Life(Apply(r, v), events).steps)
    ensures n in v.hide_ ==> AllHidden(Life(Apply(r, v), events), n)
  {
    ReviewedNumbers(r.steps, v.remove, v.hide_);
    if n in v.hide_ {
      forall s | s in Apply(r, v).steps && s.number == n ensures s.value.raw.None? && s.value.kind == "secret" && s.redacted {
        ReviewedSteps(r.steps, v.remove, v.hide_, s);
      }
    }
    GoneStaysGone(Apply(r, v), events, n);
  }

  // ---- the session ----

  function AsSet(numbers: seq<int>): set<int> {
    set n | n in numbers
  }

  lemma NothingReviewed(remove: set<int>, hide_: set<int>)
    ensures Reviewed([], remove, hide_) == []
  {
  }

  lemma NoneUnknown(requested: set<int>, present: set<int>, removed: set<int>)
    ensures requested - present - removed == {} <==> requested <= present + removed
  {
    if requested - present - removed == {} {
      forall n | n in requested ensures n in present + removed {
        assert n !in requested - present - removed;
      }
    }
  }

  class RecordingSession {
    var steps: seq<Step>
    var removedSeqs: set<int>
    var stopped: bool

    function Contents(): Recording
      reads this
    {
      Recording(steps, removedSeqs, stopped)
    }

    constructor ()
      ensures Contents() == Recording([], {}, false)
    {
      steps, removedSeqs, stopped := [], {}, false;
    }

    /** Returns whether the step was taken; a stopped recording raises. */
    method AppendStep(step: Step) returns (taken: bool)
      modifies this
      ensures Contents() == Next(old(Contents()), Append(step))
      ensures taken <==> !old(stopped)
    {
      if stopped {
        return false;
      }
      steps := steps + [step];
      return true;
    }

    method StopRecording()
      modifies this
      ensures Contents() == Next(old(Contents()), Stop)
    {
      if stopped {
        return;
      }
      stopped := true;
    }

    /** The number of steps left, or None where the review is refused. */
    method ApplyReview(removedStepSeqs: seq<int>, redactedStepSeqs: seq<int>) returns (left: Option<nat>)
      modifies this
      ensures var v := Review(AsSet(removedStepSeqs), AsSet(redactedStepSeqs));
              Contents() == Next(old(Contents()), Reviewing(v)) && (left.Some? <==> Accepts(old(Contents()), v))
      ensures left.Some? ==> left.value == |steps|
    {
      hide Reviewed, AsSet;
      if !stopped {
        return None;
      }
      var present := Numbers(steps);
      var toRemove, toHide := AsSet(removedStepSeqs), AsSet(redactedStepSeqs);
      var unknown := toRemove + toHide - present - removedSeqs;
      NoneUnknown(toRemove + toHide, present, removedSeqs);
      if unknown != {} {
        return None;
      }
      var removed := toRemove * present;
      var redacted := toHide - removed;
      var reviewed: seq<Step> := [];
      NothingReviewed(toRemove, toHide);
      for i := 0 to |steps|
        invariant Contents() == old(Contents()) && reviewed == Reviewed(steps[..i], toRemove, toHide)
      {
        assert steps[..i + 1] == steps[..i] + [steps[i]];
        ReviewedSnoc(steps[..i], steps[i], toRemove, toHide);
        assert steps[i].number in present by {
          assert steps[i] in steps;
        }
        if steps[i].number !in removed {
          if steps[i].number in redacted {
            reviewed := reviewed + [Hidden(steps[i])];
          } else {
            reviewed := reviewed + [steps[i]];
          }
        }
      }
      assert steps[..|steps|] == steps;
      steps := reviewed;
      removedSeqs := removedSeqs + removed;
      return Some(|steps|);
    }
  }
}
