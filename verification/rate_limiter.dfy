/** The sliding window over screenshots, and the result that reserves room in
    it first and is charged for what it sends afterwards. */
module RateLimiter {
  import Positions

  // ---- what a window allows ----

  predicate Rising(times: seq<real>) {
    forall i, j | 0 <= i <= j < |times| :: times[i] <= times[j]
  }

  predicate UpTo(times: seq<real>, t: real) {
    forall i | 0 <= i < |times| :: times[i] <= t
  }

  lemma RisingAdd(times: seq<real>, now: real)
    requires Rising(times) && UpTo(times, now)
    ensures Rising(times + [now]) && UpTo(times + [now], now)
  {
  }

  lemma RisingFront(times: seq<real>)
    requires Rising(times) && times != []
    ensures Rising(times[..|times| - 1]) && UpTo(times[..|times| - 1], times[|times| - 1])
  {
  }

  /** How many of the times lie in the half-open window (lo, hi]. */
  function Within(times: seq<real>, lo: real, hi: real): (n: nat)
    ensures n <= |times|
  {
    if times == [] then 0
    else Within(times[..|times| - 1], lo, hi) + if lo < times[|times| - 1] <= hi then 1 else 0
  }

  function Most(limit: int): (most: nat)
    ensures 0 <= limit ==> most == limit
    ensures limit <= 0 ==> most == 0
  {
    if limit < 0 then 0 else limit
  }

  lemma {:induction false} WithinRange(times: seq<real>, k: nat, lo: real, hi: real)
    requires Rising(times) && k <= |times|
    requires UpTo(times[..k], lo) && UpTo(times, hi)
    requires k < |times| ==> lo < times[k]
    ensures Within(times, lo, hi) == |times| - k
  {
    if times != [] {
      var front := times[..|times| - 1];
      if k == |times| {
        assert front[..k - 1] == front;
        assert times[k - 1] == times[..k][k - 1] <= lo;
        WithinRange(front, k - 1, lo, hi);
      } else {
        assert front[..k] == times[..k];
        WithinRange(front, k, lo, hi);
      }
    }
  }

  /** An attempt at `now` after `before` were accepted. */
  function Offer(before: seq<real>, now: real, limit: int, window: real): seq<real> {
    if Within(before, now - window, now) < limit then before + [now] else before
  }

  /** What was accepted of a series of attempts, each taken when its own window
      still has room. */
  function Accepted(attempts: seq<real>, limit: int, window: real): seq<real> {
    if attempts == [] then []
    else Offer(Accepted(attempts[..|attempts| - 1], limit, window), attempts[|attempts| - 1], limit, window)
  }

  /** Attempts as far apart as the limit are at least a window apart. */
  ghost predicate Spaced(times: seq<real>, limit: int, window: real) {
    forall i, j | 0 <= i && i + Most(limit) <= j < |times| :: times[i] + window <= times[j]
  }

  lemma {:induction false} FewSince(times: seq<real>, k: nat, lo: real, hi: real)
    requires Rising(times) && k <= |times| && UpTo(times, hi)
    requires Within(times, lo, hi) < k
    ensures times[|times| - k] <= lo
  {
    if times[|times| - k] > lo {
      AtLeast(times, |times| - k, lo, hi);
    }
  }

  lemma {:induction false} AtLeast(times: seq<real>, from: nat, lo: real, hi: real)
    requires from <= |times| && forall i | from <= i < |times| :: lo < times[i] <= hi
    ensures Within(times, lo, hi) >= |times| - from
  {
    if from < |times| {
      AtLeast(times[..|times| - 1], from, lo, hi);
    }
  }

  lemma SpacedAdd(times: seq<real>, now: real, limit: int, window: real)
    requires Rising(times) && UpTo(times, now) && Spaced(times, limit, window)
    requires Within(times, now - window, now) < limit
    ensures Spaced(times + [now], limit, window)
  {
    if |times| >= limit {
      FewSince(times, limit, now - window, now);
    }
    var more := times + [now];
    forall i, j | 0 <= i && i + Most(limit) <= j < |more| ensures more[i] + window <= more[j] {
      if j == |times| {
        assert times[i] <= times[|times| - limit];
      } else {
        assert times[i] + window <= times[j];
      }
    }
  }

  lemma OfferSpaced(times: seq<real>, now: real, limit: int, window: real)
    requires Rising(times) && UpTo(times, now) && Spaced(times, limit, window)
    ensures var more := Offer(times, now, limit, window);
            Rising(more) && UpTo(more, now) && Spaced(more, limit, window)
  {
    hide Rising, Spaced, UpTo, Within;
    if Within(times, now - window, now) < limit {
      RisingAdd(times, now);
      SpacedAdd(times, now, limit, window);
    }
  }

  lemma UpToLater(times: seq<real>, t: real, now: real)
    requires UpTo(times, t) && t <= now
    ensures UpTo(times, now)
  {
  }

  lemma {:induction false} AcceptedSpaced(attempts: seq<real>, limit: int, window: real, now: real)
    requires Rising(attempts) && UpTo(attempts, now)
    ensures Rising(Accepted(attempts, limit, window)) && Spaced(Accepted(attempts, limit, window), limit, window)
    ensures UpTo(Accepted(attempts, limit, window), now)
  {
    if attempts == [] {
      assert Accepted(attempts, limit, window) == [];
    } else {
      var last := attempts[|attempts| - 1];
      assert last <= now;
      RisingFront(attempts);
      hide Rising, Spaced, UpTo, Offer;
      var front := attempts[..|attempts| - 1];
      AcceptedSpaced(front, limit, window, last);
      OfferSpaced(Accepted(front, limit, window), last, limit, window);
      UpToLater(Accepted(attempts, limit, window), last, now);
    }
  }

  lemma {:induction false} SpacedBound(times: seq<real>, limit: int, window: real, t: real)
    requires Rising(times) && Spaced(times, limit, window)
    ensures Within(times, t - window, t) <= Most(limit)
  {
    if times != [] {
      var n := |times|;
      if times[n - 1] > t {
        SpacedBound(times[..n - 1], limit, window, t);
      } else if n > Most(limit) {
        AtMost(times, n - Most(limit), t - window, t);
      }
    }
  }

  lemma {:induction false} AtMost(times: seq<real>, from: nat, lo: real, hi: real)
    requires from <= |times| && forall i | 0 <= i < from :: times[i] <= lo
    ensures Within(times, lo, hi) <= |times| - from
  {
    if times != [] {
      AtMost(times[..|times| - 1], if from == |times| then from - 1 else from, lo, hi);
    }
  }

  /** However the attempts fall, no window of the configured length holds more
      accepted ones than the limit. */
  lemma NoWindowOverflows(attempts: seq<real>, limit: int, window: real, t: real)
    requires Rising(attempts)
    ensures Within(Accepted(attempts, limit, window), t - window, t) <= Most(limit)
  {
    if attempts != [] {
      RisingFront(attempts);
      AcceptedSpaced(attempts, limit, window, attempts[|attempts| - 1]);
    }
    SpacedBound(Accepted(attempts, limit, window), limit, window, t);
  }

  // ---- the limiter ----

  lemma AttemptAdded(attempts: seq<real>, now: real, limit: int, window: real)
    ensures Accepted(attempts + [now], limit, window) == Offer(Accepted(attempts, limit, window), now, limit, window)
  {
    hide Offer;
    assert (attempts + [now])[..|attempts|] == attempts;
  }

  /** `events` is the accepted attempts without the oldest, all up to `cutoff`. */
  ghost predicate Kept(events: seq<real>, accepted: seq<real>, cutoff: real) {
    && |events| <= |accepted| && events == accepted[|accepted| - |events|..]
    && UpTo(accepted[..|accepted| - |events|], cutoff)
  }

  lemma KeptAdd(events: seq<real>, accepted: seq<real>, cutoff: real, now: real)
    requires Kept(events, accepted, cutoff)
    ensures Kept(events + [now], accepted + [now], cutoff)
  {
    var gone := |accepted| - |events|;
    assert (accepted + [now])[gone..] == events + [now] && (accepted + [now])[..gone] == accepted[..gone];
  }

  lemma KeptDrop(events: seq<real>, accepted: seq<real>, cutoff: real)
    requires Kept(events, accepted, cutoff) && events != [] && events[0] <= cutoff
    ensures Kept(events[1..], accepted, cutoff)
  {
    var gone := |accepted| - |events|;
    assert accepted[..gone + 1] == accepted[..gone] + [events[0]];
  }

  lemma KeptLater(events: seq<real>, accepted: seq<real>, cutoff: real, later: real)
    requires Kept(events, accepted, cutoff) && cutoff <= later
    ensures Kept(events, accepted, later)
  {
  }

  lemma KeptCount(events: seq<real>, accepted: seq<real>, cutoff: real, now: real)
    requires Kept(events, accepted, cutoff) && Rising(accepted) && UpTo(accepted, now)
    requires events != [] ==> events[0] > cutoff
    ensures |events| == Within(accepted, cutoff, now)
  {
    WithinRange(accepted, |accepted| - |events|, cutoff, now);
  }

  class SlidingWindow {
    const limit: int
    const window: real
    var events: seq<real>
    // Every attempt and every accepted one so far, and the last clock reading.
    ghost var attempts: seq<real>
    ghost var accepted: seq<real>
    ghost var clock: real

    ghost predicate Valid()
      reads this
    {
      && Rising(attempts) && UpTo(attempts, clock)
      && accepted == Accepted(attempts, limit, window)
      && Rising(accepted) && UpTo(accepted, clock)
      && Kept(events, accepted, clock - window)
    }

    constructor (limit: int, window: real, now: real)
      ensures Valid() && attempts == accepted == [] && clock == now
      ensures this.limit == limit && this.window == window
    {
      this.limit, this.window, events := limit, window, [];
      attempts, accepted, clock := [], [], now;
    }

    /** The loop both operations start with. */
    method DropPast(now: real)
      requires Valid() && clock <= now
      modifies this
      ensures Valid() && attempts == old(attempts) && accepted == old(accepted) && clock == now
      ensures |events| == Within(accepted, now - window, now)
    {
      hide Rising, Accepted, Within, Kept;
      var cutoff := now - window;
      KeptLater(events, accepted, clock - window, cutoff);
      UpToLater(attempts, clock, now);
      UpToLater(accepted, clock, now);
      hide UpTo;
      while events != [] && events[0] <= cutoff
        invariant attempts == old(attempts) && accepted == old(accepted) && clock == old(clock)
        invariant Kept(events, accepted, cutoff)
        decreases |events|
      {
        KeptDrop(events, accepted, cutoff);
        events := events[1..];
      }
      clock := now;
      KeptCount(events, accepted, cutoff, now);
    }

    /** Takes one if the window ending now is not full; refuses only then. */
    method Allow(now: real) returns (taken: bool)
      requires Valid() && clock <= now
      modifies this
      ensures Valid() && clock == now && attempts == old(attempts) + [now]
      ensures taken <==> Within(old(accepted), now - window, now) < limit
      ensures accepted == if taken then old(accepted) + [now] else old(accepted)
    {
      hide Rising, Accepted, Within, Kept, UpTo;
      DropPast(now);
      AttemptAdded(attempts, now, limit, window);
      RisingAdd(attempts, now);
      RisingAdd(accepted, now);
      KeptAdd(events, accepted, now - window, now);
      attempts := attempts + [now];
      if |events| >= limit {
        return false;
      }
      events := events + [now];
      accepted := accepted + [now];
      return true;
    }

    /** How many more the window takes now, without taking one. */
    method Available(now: real) returns (room: nat)
      requires Valid() && clock <= now
      modifies this
      ensures Valid() && clock == now && attempts == old(attempts) && accepted == old(accepted)
      ensures room == Most(limit - Within(accepted, now - window, now))
    {
      hide Rising, Accepted, Within, Kept, UpTo;
      DropPast(now);
      room := if limit - |events| > 0 then limit - |events| else 0;
    }
  }

  /** So a limiter's own history overflows no window. */
  lemma LimiterNeverOverflows(limiter: SlidingWindow, t: real)
    requires limiter.Valid()
    ensures Within(limiter.accepted, t - limiter.window, t) <= Most(limiter.limit)
  {
    NoWindowOverflows(limiter.attempts, limiter.limit, limiter.window, t);
  }

  // ---- a tool result ----

  const MAX_WEBSOCKET_MESSAGE_BYTES := 16 * 1024 * 1024
  const MAX_WIRE_BASE64_CONTENT_BYTES := (MAX_WEBSOCKET_MESSAGE_BYTES - 64 * 1024) * 3 / 4

  // A block of the raw result: `Other` has a type that is not carried, and
  // `Junk` is not an object at all.
  datatype Block = Text(text: string) | Image(data: string) | Other | Junk

  datatype Note = BlockLeftOut | RateLeftOut(n: nat) | SizeLeftOut(n: nat) | CutDown

  // How texts are measured and cut: their length as JSON carries them, and
  // their longest prefix within the text limit.
  datatype Wire = Wire(size: string -> nat, cut: string -> string)

  function Images(blocks: seq<Block>): seq<Block> {
    if blocks == [] then []
    else if blocks[0].Image? then [blocks[0]] + Images(blocks[1..])
    else Images(blocks[1..])
  }

  function Texts(blocks: seq<Block>): (texts: seq<Block>)
    ensures forall b | b in texts :: b.Text?
  {
    if blocks == [] then []
    else if blocks[0].Text? then [blocks[0]] + Texts(blocks[1..])
    else Texts(blocks[1..])
  }

  /** Every text and the first `room` images, in the order they came. */
  function Carried(blocks: seq<Block>, room: nat): seq<Block> {
    if blocks == [] then []
    else if blocks[0].Text? then [blocks[0]] + Carried(blocks[1..], room)
    else if blocks[0].Image? && room > 0 then [blocks[0]] + Carried(blocks[1..], room - 1)
    else Carried(blocks[1..], room)
  }

  /** Whether block i is carried: a text always, an image while fewer than `room`
      came before it, nothing else. */
  ghost predicate Chosen(blocks: seq<Block>, i: nat, room: nat)
    requires i < |blocks|
  {
    blocks[i].Text? || (blocks[i].Image? && |Images(blocks[..i])| < room)
  }

  ghost predicate CarriedFrom(carried: seq<Block>, from: seq<nat>, blocks: seq<Block>, room: nat) {
    && |from| == |carried| && Positions.Rising(from)
    && (forall k | 0 <= k < |from| :: from[k] < |blocks| && carried[k] == blocks[from[k]])
    && (forall i: nat | i < |blocks| :: i in from <==> Chosen(blocks, i, room))
  }

  lemma CarriedMore(carried: seq<Block>, from: seq<nat>, blocks: seq<Block>, room: nat)
    requires blocks != []
    requires CarriedFrom(carried, from, blocks[1..], if blocks[0].Image? && room > 0 then room - 1 else room)
    ensures if blocks[0].Text? || (blocks[0].Image? && room > 0)
            then CarriedFrom([blocks[0]] + carried, [0] + Positions.Shifted(from), blocks, room)
            else CarriedFrom(carried, Positions.Shifted(from), blocks, room)
  {
    hide Chosen, Images, Positions.Rising;
    Positions.ShiftedRises(from);
    FirstChosen(blocks, room);
    var later := Positions.Shifted(from);
    forall i: nat | i < |blocks|
      ensures i in later <==> i > 0 && Chosen(blocks, i, room)
      ensures i in [0] + later <==> i == 0 || Chosen(blocks, i, room)
    {
      Positions.ShiftedHas(from, i);
      Positions.OrFirst(later, i);
      if i > 0 {
        ChosenLater(blocks, i, room);
      }
    }
    assert forall k | 0 < k < |blocks| :: blocks[1..][k - 1] == blocks[k];
  }

  lemma FirstChosen(blocks: seq<Block>, room: nat)
    requires blocks != []
    ensures Chosen(blocks, 0, room) <==> blocks[0].Text? || (blocks[0].Image? && room > 0)
  {
    assert Images(blocks[..0]) == [];
  }

  /** What is carried is those blocks, each unchanged and in the order they came. */
  lemma {:induction false} CarriedAre(blocks: seq<Block>, room: nat) returns (from: seq<nat>)
    ensures CarriedFrom(Carried(blocks, room), from, blocks, room)
  {
    hide CarriedFrom;
    if blocks == [] {
      from := [];
      NothingCarried(room);
    } else {
      var next := if blocks[0].Image? && room > 0 then room - 1 else room;
      var rest := CarriedAre(blocks[1..], next);
      CarriedMore(Carried(blocks[1..], next), rest, blocks, room);
      from := (if blocks[0].Text? || (blocks[0].Image? && room > 0) then [0] else []) + Positions.Shifted(rest);
      assert [] + Positions.Shifted(rest) == Positions.Shifted(rest);
    }
  }

  lemma NothingCarried(room: nat)
    ensures CarriedFrom([], [], [], room)
  {
  }

  lemma ChosenLater(blocks: seq<Block>, i: nat, room: nat)
    requires 0 < i < |blocks|
    ensures Chosen(blocks, i, room) <==>
            Chosen(blocks[1..], i - 1, if blocks[0].Image? && room > 0 then room - 1 else room)
  {
    assert blocks[..i][1..] == blocks[1..][..i - 1] && blocks[..i][0] == blocks[0];
  }

  function BlockSize(block: Block, w: Wire): nat {
    match block
    case Text(text) => w.size(text)
    case Image(data) => |data|
    case _ => 0
  }

  function Size(blocks: seq<Block>, w: Wire): nat {
    if blocks == [] then 0 else BlockSize(blocks[0], w) + Size(blocks[1..], w)
  }

  /** The size of blocks is that of each text as JSON carries it and of each
      image's data, added up. */
  lemma {:induction false} SizeAdds(a: seq<Block>, b: seq<Block>, text: string, data: string, w: Wire)
    ensures Size(a + b, w) == Size(a, w) + Size(b, w)
    ensures Size([], w) == 0 && Size([Text(text)], w) == w.size(text) && Size([Image(data)], w) == |data|
  {
    assert [Text(text)][1..] == [] && [Image(data)][1..] == [];
    if a == [] {
      assert a + b == b;
    } else {
      assert (a + b)[1..] == a[1..] + b;
      SizeAdds(a[1..], b, text, data, w);
    }
  }

  lemma {:induction false} CarriedParts(blocks: seq<Block>, room: nat)
    ensures Texts(Carried(blocks, room)) == Texts(blocks)
    ensures |Images(Carried(blocks, room))| == if |Images(blocks)| < room then |Images(blocks)| else room
  {
    if blocks != [] {
      var next := if blocks[0].Image? && room > 0 then room - 1 else room;
      var rest := Carried(blocks[1..], next);
      CarriedParts(blocks[1..], next);
      assert ([blocks[0]] + rest)[1..] == rest;
    }
  }

  lemma {:induction false} NoImages(texts: seq<Block>)
    requires forall b | b in texts :: b.Text?
    ensures Images(texts) == [] && Texts(texts) == texts
  {
    if texts != [] {
      assert texts[0].Text?;
      assert forall b | b in texts[1..] :: b in texts;
      NoImages(texts[1..]);
    }
  }

  lemma {:induction false} SizeParts(blocks: seq<Block>, w: Wire)
    requires forall b | b in blocks :: b.Text? || b.Image?
    ensures Size(blocks, w) == Size(Texts(blocks), w) + Size(Images(blocks), w)
  {
    if blocks != [] {
      assert blocks[0] in blocks && forall b | b in blocks[1..] :: b in blocks;
      SizeParts(blocks[1..], w);
      var t, i := Texts(blocks[1..]), Images(blocks[1..]);
      assert ([blocks[0]] + t)[1..] == t && ([blocks[0]] + i)[1..] == i;
    }
  }

  lemma {:induction false} ImagesJoin(a: seq<Block>, b: seq<Block>)
    ensures Images(a + b) == Images(a) + Images(b)
  {
    if a == [] {
      assert a + b == b;
    } else {
      assert (a + b)[1..] == a[1..] + b;
      ImagesJoin(a[1..], b);
    }
  }

  lemma ImagesUpTo(blocks: seq<Block>, i: nat)
    requires i < |blocks|
    ensures |Images(blocks[..i + 1])| == |Images(blocks[..i])| + (if blocks[i].Image? then 1 else 0)
    ensures |Images(blocks[..i + 1])| <= |Images(blocks)|
  {
    assert blocks[..i + 1] == blocks[..i] + [blocks[i]];
    assert blocks == blocks[..i + 1] + blocks[i + 1..];
    ImagesJoin(blocks[..i], [blocks[i]]);
    ImagesJoin(blocks[..i + 1], blocks[i + 1..]);
  }

  // ---- what reserving first is good for ----

  lemma {:induction false} RoomStays(times: seq<real>, t: real, now: real, window: real)
    requires Rising(times) && UpTo(times, t) && t <= now
    ensures Within(times, now - window, now) <= Within(times, t - window, t)
  {
    if times != [] {
      RoomStays(times[..|times| - 1], t, now, window);
    }
  }

  lemma {:induction false} WithinGrown(old_: seq<real>, times: seq<real>, lo: real, hi: real)
    requires old_ <= times
    ensures Within(times, lo, hi) <= Within(old_, lo, hi) + |times| - |old_|
  {
    if |old_| < |times| {
      WithinGrown(old_, times[..|times| - 1], lo, hi);
    } else {
      assert old_ == times;
    }
  }

  /** Room seen at `t` is still there later for all that was not yet taken. */
  lemma RoomHolds(seen: seq<real>, times: seq<real>, t: real, now: real, window: real)
    requires Rising(seen) && UpTo(seen, t) && t <= now && seen <= times
    ensures Within(times, now - window, now) <= Within(seen, t - window, t) + |times| - |seen|
  {
    RoomStays(seen, t, now, window);
    WithinGrown(seen, times, now - window, now);
  }

  lemma ClockStep(clock: seq<real>, i: nat)
    requires Rising(clock) && i + 1 < |clock|
    ensures clock[0] <= clock[i] <= clock[i + 1]
  {
  }

  lemma NoImagesYet(content: seq<Block>)
    ensures Images(content[..0]) == []
  {
  }

  /** One charge, while fewer were made than there was room for at `t`. */
  method ChargeOne(limiter: SlidingWindow, now: real, ghost seen: seq<real>, ghost t: real)
    requires limiter.Valid() && limiter.clock <= now && t <= now
    requires Rising(seen) && UpTo(seen, t) && seen <= limiter.accepted
    requires |limiter.accepted| - |seen| < Most(limiter.limit - Within(seen, t - limiter.window, t))
    modifies limiter
    ensures limiter.Valid() && limiter.clock == now
    ensures limiter.accepted == old(limiter.accepted) + [now] && limiter.attempts == old(limiter.attempts) + [now]
  {
    hide Rising, UpTo, Within, SlidingWindow.Valid;
    RoomHolds(seen, limiter.accepted, t, now, limiter.window);
    var taken := limiter.Allow(now);
  }

  /** Charges the limiter for every image, the i-th block at clock[i + 1]; with
      the room for them seen at clock[0], no charge is refused. */
  method Charge(limiter: SlidingWindow, content: seq<Block>, clock: seq<real>)
    requires limiter.Valid() && Rising(clock) && |content| < |clock| && limiter.clock == clock[0]
    requires |Images(content)| <= Most(limiter.limit - Within(limiter.accepted, clock[0] - limiter.window, clock[0]))
    modifies limiter
    ensures limiter.Valid()
    ensures |limiter.accepted| == |old(limiter.accepted)| + |Images(content)|
    ensures old(limiter.accepted) <= limiter.accepted
    ensures |limiter.attempts| - |old(limiter.attempts)| == |limiter.accepted| - |old(limiter.accepted)|
  {
    ghost var seen, tried := limiter.accepted, limiter.attempts;
    assert Rising(seen) && UpTo(seen, clock[0]);
    NoImagesYet(content);
    hide Rising, UpTo, Within, Images, Most, Kept, Accepted, SlidingWindow.Valid;
    for i := 0 to |content|
      invariant limiter.Valid() && limiter.clock <= clock[i]
      invariant seen <= limiter.accepted && |limiter.accepted| == |seen| + |Images(content[..i])|
      invariant |limiter.attempts| - |tried| == |limiter.accepted| - |seen|
    {
      ImagesUpTo(content, i);
      ClockStep(clock, i);
      if content[i].Image? {
        ChargeOne(limiter, clock[i + 1], seen, clock[0]);
        assert seen <= limiter.accepted;
      }
    }
    assert content[..|content|] == content;
  }

  /** All the collected blocks if they fit, else only the texts, else the first
      text cut to size. */
  function Fitting(collected: seq<Block>, structured: nat, w: Wire): seq<Block> {
    if Size(collected, w) + structured <= MAX_WIRE_BASE64_CONTENT_BYTES then collected
    else if Size(Texts(collected), w) + structured <= MAX_WIRE_BASE64_CONTENT_BYTES then Texts(collected)
    else if Texts(collected) == [] then []
    else [Text(w.cut(Texts(collected)[0].text))]
  }

  /** What is sent is all that was collected exactly if that fits, and no image
      otherwise; it fits, unless the texts alone do not and the first was cut. */
  lemma FittingFits(collected: seq<Block>, structured: nat, w: Wire)
    requires forall b | b in collected :: b.Text? || b.Image?
    ensures var sent := Fitting(collected, structured, w);
            && (Size(collected, w) + structured <= MAX_WIRE_BASE64_CONTENT_BYTES ==> sent == collected)
            && (Size(collected, w) + structured > MAX_WIRE_BASE64_CONTENT_BYTES ==> Images(sent) == [])
            && (Size(Texts(collected), w) + structured <= MAX_WIRE_BASE64_CONTENT_BYTES ==>
                  Texts(sent) == Texts(collected) && Size(sent, w) + structured <= MAX_WIRE_BASE64_CONTENT_BYTES)
            && (Size(Texts(collected), w) + structured > MAX_WIRE_BASE64_CONTENT_BYTES ==>
                  sent == (if Texts(collected) == [] then [] else [Text(w.cut(Texts(collected)[0].text))]))
  {
    SizeParts(collected, w);
    NoImages(Texts(collected));
    if Texts(collected) != [] {
      assert Texts(collected)[0] in Texts(collected);
      NoImages([Text(w.cut(Texts(collected)[0].text))]);
    }
  }

  /** All that were blocks at all. */
  function WithoutJunk(raw: seq<Block>): seq<Block> {
    if raw == [] then []
    else if raw[0].Junk? then WithoutJunk(raw[1..])
    else [raw[0]] + WithoutJunk(raw[1..])
  }

  /** How many blocks are of a type that is not carried. */
  function Uncarried(raw: seq<Block>): nat {
    if raw == [] then 0 else (if raw[0].Other? then 1 else 0) + Uncarried(raw[1..])
  }

  /** The notes after those on single blocks: what the rate and the size left
      out, and whether the texts were cut. */
  function Notes(rated: int, sized: int, cut: bool): seq<Note> {
    (if rated > 0 then [RateLeftOut(rated)] else []) + (if sized > 0 then [SizeLeftOut(sized)] else [])
    + (if cut then [CutDown] else [])
  }

  /** The loop over the raw blocks. */
  method Collect(raw: seq<Block>, reserved: nat) returns (content: seq<Block>, notes: seq<Note>, withheld: nat)
    ensures content == Carried(raw, reserved)
    ensures |Images(raw)| == |Images(content)| + withheld
    ensures notes == [] && withheld == 0 ==> content == WithoutJunk(raw)
    ensures |notes| == Uncarried(raw) && forall note | note in notes :: note == BlockLeftOut
    ensures forall b | b in content :: b.Text? || b.Image?
  {
    content, notes, withheld := [], [], 0;
    var room := reserved;
    for i := 0 to |raw|
      invariant content + Carried(raw[i..], room) == Carried(raw, reserved)
      invariant |Images(content)| + withheld + |Images(raw[i..])| == |Images(raw)|
      invariant notes == [] && withheld == 0 ==> content + WithoutJunk(raw[i..]) == WithoutJunk(raw)
      invariant |notes| + Uncarried(raw[i..]) == Uncarried(raw) && forall note | note in notes :: note == BlockLeftOut
      invariant forall b | b in content :: b.Text? || b.Image?
    {
      assert raw[i..][0] == raw[i] && raw[i..][1..] == raw[i + 1..];
      ImagesJoin(content, [raw[i]]);
      OneImage(raw[i]);
      Shift(content, raw[i], Carried(raw[i + 1..], if room > 0 && raw[i].Image? then room - 1 else room));
      Shift(content, raw[i], WithoutJunk(raw[i + 1..]));
      match raw[i] {
        case Text(text) =>
          content := content + [Text(text)];
        case Image(data) =>
          if room > 0 {
            room := room - 1;
            content := content + [Image(data)];
          } else {
            withheld := withheld + 1;
          }
        case Other =>
          notes := notes + [BlockLeftOut];
        case Junk =>
      }
    }
  }

  lemma OneImage(block: Block)
    ensures Images([block]) == if block.Image? then [block] else []
  {
    assert Images([block][1..]) == [];
  }

  lemma Shift(done: seq<Block>, next: Block, rest: seq<Block>)
    ensures done + ([next] + rest) == (done + [next]) + rest
  {
  }

  /** _result_payload. `clock` is what time.monotonic() says at each call, and
      `structured` the size of the structured content, 0 without one. */
  method ResultPayload(limiter: SlidingWindow, raw: seq<Block>, structured: nat, w: Wire, clock: seq<real>)
    returns (content: seq<Block>, notes: seq<Note>, keepStructured: bool, withheld: nat)
    requires limiter.Valid() && Rising(clock) && |clock| == |raw| + 2 && limiter.clock <= clock[0]
    modifies limiter
    ensures limiter.Valid()
    ensures var room := Most(limiter.limit - Within(old(limiter.accepted), clock[0] - limiter.window, clock[0]));
            content == Fitting(Carried(raw, room), structured, w)
    ensures |Images(raw)| == |Images(content)| + withheld
    ensures old(limiter.accepted) <= limiter.accepted
    ensures |limiter.accepted| == |old(limiter.accepted)| + |Images(content)|
    ensures |limiter.attempts| - |old(limiter.attempts)| == |limiter.accepted| - |old(limiter.accepted)|
    ensures var carried := Carried(raw, Most(limiter.limit - Within(old(limiter.accepted), clock[0] - limiter.window, clock[0])));
            && (keepStructured <==> Size(Texts(carried), w) + structured <= MAX_WIRE_BASE64_CONTENT_BYTES)
            && |notes| >= Uncarried(raw) && (forall k | 0 <= k < Uncarried(raw) :: notes[k] == BlockLeftOut)
            && notes[Uncarried(raw)..] ==
               Notes(|Images(raw)| - |Images(carried)|, |Images(carried)| - |Images(content)|, !keepStructured)
    ensures notes == [] ==> content == WithoutJunk(raw) && keepStructured
  {
    hide Rising, Within, Most, UpTo, SlidingWindow.Valid, Fitting, Size, Notes;
    var room := limiter.Available(clock[0]);
    var collected, ns, n := Collect(raw, room);
    CarriedParts(raw, room);
    CarriedFewer(raw, room);
    content, notes, keepStructured, withheld := CutToFit(collected, ns, n, structured, w);
    assert forall k | 0 <= k < |ns| :: notes[k] == ns[k] && ns[k] in ns;
    Charge(limiter, content, clock);
  }

  /** What the size budget leaves of the collected blocks. */
  method CutToFit(collected: seq<Block>, ns: seq<Note>, n: nat, structured: nat, w: Wire)
    returns (content: seq<Block>, notes: seq<Note>, keepStructured: bool, withheld: nat)
    requires forall b | b in collected :: b.Text? || b.Image?
    ensures content == Fitting(collected, structured, w)
    ensures |Images(collected)| + n == |Images(content)| + withheld
    ensures |content| <= |collected| && withheld >= n
    ensures keepStructured <==> Size(Texts(collected), w) + structured <= MAX_WIRE_BASE64_CONTENT_BYTES
    ensures notes == ns + Notes(n, |Images(collected)| - |Images(content)|, !keepStructured)
    ensures notes == [] ==> content == collected && keepStructured && ns == [] && n == 0
  {
    hide Size, Images, Texts;
    content, notes, withheld, keepStructured := collected, ns, n, true;
    NoImages(Texts(collected));
    SizeParts(collected, w);
    TextsFewer(collected);
    if withheld > 0 {
      notes := notes + [RateLeftOut(withheld)];
    }
    var size := Size(content, w) + structured;
    if size > MAX_WIRE_BASE64_CONTENT_BYTES {
      var images := Images(content);
      OnlyTexts(content);
      content := Texts(content);
      size := size - Size(images, w);
      withheld := withheld + |images|;
      if images != [] {
        notes := notes + [SizeLeftOut(|images|)];
      }
    }
    if size > MAX_WIRE_BASE64_CONTENT_BYTES {
      keepStructured := false;
      content := if content == [] then [] else [Text(w.cut(content[0].text))];
      NoImages(content);
      notes := notes + [CutDown];
    }
  }

  lemma {:induction false} OnlyTexts(blocks: seq<Block>)
    requires forall b | b in blocks :: b.Text? || b.Image?
    ensures Images(blocks) == [] ==> Texts(blocks) == blocks
  {
    if blocks != [] {
      OnlyTexts(blocks[1..]);
    }
  }

  lemma {:induction false} TextsFewer(blocks: seq<Block>)
    ensures |Texts(blocks)| <= |blocks|
  {
    if blocks != [] {
      TextsFewer(blocks[1..]);
    }
  }

  lemma {:induction false} CarriedFewer(blocks: seq<Block>, room: nat)
    ensures |Carried(blocks, room)| <= |blocks|
  {
    if blocks != [] {
      CarriedFewer(blocks[1..], if blocks[0].Image? && room > 0 then room - 1 else room);
    }
  }
}
