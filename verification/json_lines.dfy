/** A local model's streamed reply: one JSON object a line, in chunks that break
    anywhere. */
module JsonLines {
  import opened TextLines
  import opened Texts
  import opened Positions
  import opened Wrappers

  const MAX_LINE_BYTES := 64 * 1024

  datatype Ending = Done | TooLong | BadJson

  // What the generator yields, and how it ends.
  datatype Outcome<V> = Outcome(values: seq<V>, ending: Ending)

  // ---- cutting a chunk ----

  /** bytes.splitlines(keepends=True) takes this much first: up to and with the
      next LF, CR or CR LF. */
  function NextSegment(s: string): (segment: string)
    ensures segment <= s && (s != [] ==> segment != [])
  {
    if s == [] then []
    else if s[0] == '\n' then s[..1]
    else if s[0] == '\r' then if |s| > 1 && s[1] == '\n' then s[..2] else s[..1]
    else [s[0]] + NextSegment(s[1..])
  }

  /** A newline ends a segment; it is nowhere else in one. */
  lemma {:induction false} SegmentShape(s: string)
    ensures var segment := NextSegment(s);
            IsLine(segment) || '\n' !in segment
  {
    if s != [] && s[0] != '\n' && s[0] != '\r' {
      SegmentShape(s[1..]);
      var more := NextSegment(s[1..]);
      if IsLine(more) {
        var segment := [s[0]] + more;
        assert segment[..|segment| - 1] == [s[0]] + more[..|more| - 1];
      }
    }
  }

  // ---- the reference ----

  /** Each line in turn: the first that is too long or does not parse to an
      object ends the reply; blank ones say nothing. */
  function Decode<V>(lines: seq<string>, parse: string -> Option<V>): Outcome<V> {
    if lines == [] then Outcome([], Done)
    else if |lines[0]| > MAX_LINE_BYTES then Outcome([], TooLong)
    else if IsBlank(lines[0]) then Decode(lines[1..], parse)
    else if parse(lines[0]).None? then Outcome([], BadJson)
    else
      var rest := Decode(lines[1..], parse);
      Outcome([parse(lines[0]).value] + rest.values, rest.ending)
  }

  lemma {:induction false} DecodeJoin<V>(a: seq<string>, b: seq<string>, parse: string -> Option<V>)
    requires Decode(a, parse).ending == Done
    ensures Decode(a + b, parse) == Outcome(Decode(a, parse).values + Decode(b, parse).values, Decode(b, parse).ending)
  {
    if a == [] {
      assert a + b == b;
    } else {
      assert (a + b)[1..] == a[1..] + b;
      DecodeJoin(a[1..], b, parse);
    }
  }

  /** The line is one the reply can go on after. */
  ghost predicate Passes<V>(line: string, parse: string -> Option<V>) {
    |line| <= 64 * 1024 && (IsBlank(line) || parse(line).Some?)
  }

  /** The values are what the first k lines with something on them say, one each,
      in order. */
  ghost predicate SaysEach<V(!new)>(values: seq<V>, from: seq<nat>, lines: seq<string>, k: nat, parse: string -> Option<V>)
    requires k <= |lines|
  {
    && |from| == |values|
    && (forall j | 0 <= j < |from| :: from[j] < k && parse(lines[from[j]]) == Some(values[j]))
    && Rising(from)
    && (forall i: nat | i < k :: i in from <==> !IsBlank(lines[i]))
  }

  /** The same of one line more before them: the positions move on by one. */
  lemma SaysLater<V(!new)>(values: seq<V>, from: seq<nat>, lines: seq<string>, k: nat, parse: string -> Option<V>)
    requires lines != [] && k < |lines| && SaysEach(values, from, lines[1..], k, parse)
    ensures |Shifted(from)| == |values| && Rising(Shifted(from)) && Rising([0] + Shifted(from))
    ensures forall j | 0 <= j < |from| :: Shifted(from)[j] < k + 1 && parse(lines[Shifted(from)[j]]) == Some(values[j])
    ensures forall i: nat | 0 < i < k + 1 :: i in Shifted(from) <==> !IsBlank(lines[i])
    ensures 0 !in Shifted(from)
  {
    hide IsBlank;
    ShiftedRises(from);
    forall j | 0 <= j < |from| ensures lines[Shifted(from)[j]] == lines[1..][from[j]] {
    }
    forall i: nat | 0 < i < k + 1 ensures i in Shifted(from) <==> !IsBlank(lines[i]) {
      ShiftedHas(from, i);
      assert lines[1..][i - 1] == lines[i];
    }
    ShiftedHas(from, 0);
  }

  lemma SaysBlank<V(!new)>(values: seq<V>, from: seq<nat>, lines: seq<string>, k: nat, parse: string -> Option<V>)
    requires lines != [] && k < |lines| && IsBlank(lines[0]) && SaysEach(values, from, lines[1..], k, parse)
    ensures SaysEach(values, Shifted(from), lines, k + 1, parse)
  {
    hide IsBlank, Rising;
    SaysLater(values, from, lines, k, parse);
  }

  lemma SaysOne<V(!new)>(values: seq<V>, from: seq<nat>, lines: seq<string>, k: nat, parse: string -> Option<V>)
    requires lines != [] && k < |lines| && !IsBlank(lines[0]) && parse(lines[0]).Some?
    requires SaysEach(values, from, lines[1..], k, parse)
    ensures SaysEach([parse(lines[0]).value] + values, [0] + Shifted(from), lines, k + 1, parse)
  {
    hide IsBlank, Rising;
    SaysLater(values, from, lines, k, parse);
    forall i: nat | i < k + 1 ensures i in [0] + Shifted(from) <==> !IsBlank(lines[i]) {
      OrFirst(Shifted(from), i);
    }
  }

  /** Up to the first line that ends the reply, or to its end, the lines with
      something on them say one value each, in order; the reply ends as that line
      makes it. */
  lemma {:induction false} DecodeIsExact<V(!new)>(lines: seq<string>, parse: string -> Option<V>)
    returns (k: nat, from: seq<nat>)
    ensures k <= |lines| && (forall i | 0 <= i < k :: Passes(lines[i], parse))
    ensures SaysEach(Decode(lines, parse).values, from, lines, k, parse)
    ensures Decode(lines, parse).ending ==
            if k == |lines| then Done else if |lines[k]| > 64 * 1024 then TooLong else BadJson
    ensures k < |lines| ==> !Passes(lines[k], parse)
  {
    hide IsBlank, SaysEach;
    k, from := 0, [];
    if lines == [] || !Passes(lines[0], parse) {
      SaysNothing(lines, parse);
    } else {
      var n, rest := DecodeIsExact(lines[1..], parse);
      var values := Decode(lines[1..], parse).values;
      k := n + 1;
      if IsBlank(lines[0]) {
        SaysBlank(values, rest, lines, n, parse);
        from := Shifted(rest);
      } else {
        SaysOne(values, rest, lines, n, parse);
        from := [0] + Shifted(rest);
      }
    }
  }

  lemma SaysNothing<V(!new)>(lines: seq<string>, parse: string -> Option<V>)
    ensures SaysEach([], [], lines, 0, parse)
  {
  }

  // ---- lines of a text that grows ----

  lemma {:induction false} SplitCut(s: string, more: string)
    ensures var before, after := SplitLines(s), SplitLines(SplitLines(s).tail + more);
            SplitLines(s + more) == Split(before.lines + after.lines, after.tail)
  {
    hide SplitLines;
    var before := SplitLines(s);
    if more == [] {
      SplitIsExact(s);
      SplitTail(before.tail);
      assert s + more == s && before.tail + more == before.tail;
    } else {
      var front, c := more[..|more| - 1], more[|more| - 1];
      SplitCut(s, front);
      SplitSnoc(s + front, c);
      SplitSnoc(before.tail + front, c);
      assert more == front + [c];
      Assoc(s, front, [c]);
      Assoc(before.tail, front, [c]);
      var mid := SplitLines(before.tail + front);
      Assoc(before.lines, mid.lines, [mid.tail + [c]]);
    }
  }

  lemma SplitTail(tail: string)
    requires '\n' !in tail
    ensures SplitLines(tail) == Split([], tail)
  {
    SplitPlain([], tail);
    assert [] + tail == tail;
  }

  /** The lines of a text are the complete lines of its beginning, and the
      lines of what is left. */
  lemma LinesCut(s: string, more: string)
    ensures AllLines(s + more) == SplitLines(s).lines + AllLines(SplitLines(s).tail + more)
  {
    SplitCut(s, more);
    var after := SplitLines(SplitLines(s).tail + more);
    Assoc(SplitLines(s).lines, after.lines, Rest(after.tail));
  }

  /** However it goes on, the first line is at least as long as what there is
      of it. */
  lemma FirstLineLong(start: string, more: string)
    requires start != [] && (IsLine(start) || '\n' !in start)
    ensures var lines := AllLines(start + more);
            lines != [] && |lines[0]| >= |start|
  {
    LinesCut(start, more);
    if IsLine(start) {
      SplitTail([]);
      SplitLine([], start);
      assert [] + start == start;
    } else {
      SplitTail(start);
      FirstStarts(start, more);
    }
  }

  lemma {:induction false} FirstStarts(start: string, more: string)
    requires start != [] && '\n' !in start
    ensures var lines := AllLines(start + more);
            lines != [] && start <= lines[0]
  {
    if more == [] {
      assert start + more == start;
      SplitTail(start);
    } else {
      var front, c := more[..|more| - 1], more[|more| - 1];
      FirstStarts(start, front);
      assert start + more == (start + front) + [c];
      SplitSnoc(start + front, c);
    }
  }

  // ---- the generator ----

  lemma {:induction false} JoinedCut(chunks: seq<string>, k: nat)
    requires k <= |chunks|
    ensures Joined(chunks) == Joined(chunks[..k]) + Joined(chunks[k..])
  {
    if k == |chunks| {
      assert chunks[..k] == chunks && chunks[k..] == [];
    } else {
      var front, last := chunks[..|chunks| - 1], chunks[|chunks| - 1];
      JoinedCut(front, k);
      assert front[..k] == chunks[..k];
      assert chunks[k..] == front[k..] + [last];
      JoinedSnoc(front[k..], last);
      assert chunks == front + [last];
      JoinedSnoc(front, last);
      Assoc(Joined(front[..k]), Joined(front[k..]), last);
    }
  }

  /** Between two segments: what was yielded is what the complete lines so far
      decode to, and the rest is held. */
  ghost predicate Reading<V>(read: string, pending: string, values: seq<V>, parse: string -> Option<V>) {
    && pending == SplitLines(read).tail && '\n' !in pending
    && Decode(SplitLines(read).lines, parse) == Outcome(values, Done)
    && |pending| <= MAX_LINE_BYTES
  }

  lemma StartsReading<V>(parse: string -> Option<V>)
    ensures Reading([], [], [], parse)
  {
  }

  lemma DecodeFirst<V>(line: string, rest: seq<string>, parse: string -> Option<V>)
    ensures Decode([line] + rest, parse) ==
            if |line| > MAX_LINE_BYTES then Outcome([], TooLong)
            else if IsBlank(line) then Decode(rest, parse)
            else if parse(line).None? then Outcome([], BadJson)
            else Outcome([parse(line).value] + Decode(rest, parse).values, Decode(rest, parse).ending)
  {
    assert ([line] + rest)[1..] == rest;
  }

  lemma ShapeJoined(pending: string, segment: string)
    requires '\n' !in pending && segment != [] && (IsLine(segment) || '\n' !in segment)
    ensures pending + segment != [] && (IsLine(pending + segment) <==> IsLine(segment))
    ensures IsLine(pending + segment) || '\n' !in pending + segment
    ensures IsLine(segment) <==> segment[|segment| - 1] == '\n'
  {
    if IsLine(segment) {
      var all := pending + segment;
      assert all[..|all| - 1] == pending + segment[..|segment| - 1];
    }
  }

  lemma TooLongHere<V>(read: string, pending: string, segment: string, more: string, values: seq<V>, parse: string -> Option<V>)
    requires Reading(read, pending, values, parse)
    requires segment != [] && (IsLine(segment) || '\n' !in segment)
    requires |pending| + |segment| > MAX_LINE_BYTES
    ensures Decode(AllLines(read + (segment + more)), parse) == Outcome(values, TooLong)
  {
    hide SplitLines, AllLines, IsLine, Decode, IsBlank;
    LinesCut(read, segment + more);
    Assoc(pending, segment, more);
    ShapeJoined(pending, segment);
    FirstLineLong(pending + segment, more);
    var left := AllLines(pending + (segment + more));
    assert left == [left[0]] + left[1..];
    DecodeFirst(left[0], left[1..], parse);
    DecodeJoin(SplitLines(read).lines, left, parse);
  }

  /** A segment that ends no line is held. */
  lemma HeldHere<V>(read: string, pending: string, segment: string, values: seq<V>, parse: string -> Option<V>)
    requires Reading(read, pending, values, parse) && '\n' !in segment
    requires |pending| + |segment| <= MAX_LINE_BYTES
    ensures Reading(read + segment, pending + segment, values, parse)
  {
    hide SplitLines, Decode;
    SplitPlain(read, segment);
  }

  /** A segment that ends a line makes it the next to decode. */
  lemma LineHere<V>(read: string, pending: string, segment: string, more: string, values: seq<V>, parse: string -> Option<V>)
    requires Reading(read, pending, values, parse) && IsLine(segment)
    requires |pending| + |segment| <= MAX_LINE_BYTES
    ensures var line := pending + segment;
            if IsBlank(line) then Reading(read + segment, [], values, parse)
            else if parse(line).Some? then Reading(read + segment, [], values + [parse(line).value], parse)
            else Decode(AllLines(read + (segment + more)), parse) == Outcome(values, BadJson)
  {
    hide SplitLines, AllLines, IsLine, Decode, IsBlank;
    var before := SplitLines(read).lines;
    var line := pending + segment;
    SplitLine(read, segment);
    DecodeFirst(line, [], parse);
    assert [line] + [] == [line];
    NoLines(parse);
    if !IsBlank(line) && parse(line).None? {
      var left := AllLines([] + more);
      LinesCut(read + segment, more);
      Assoc(read, segment, more);
      Assoc(before, [line], left);
      DecodeFirst(line, left, parse);
      DecodeJoin(before, [line] + left, parse);
    } else {
      DecodeJoin(before, [line], parse);
      if IsBlank(line) {
        assert values + [] == values;
      }
    }
  }

  lemma NoLines<V>(parse: string -> Option<V>)
    ensures Decode([], parse) == Outcome([], Done)
  {
  }

  /** What is held at the end is the last line. */
  lemma LastHere<V>(read: string, pending: string, values: seq<V>, parse: string -> Option<V>)
    requires Reading(read, pending, values, parse)
    ensures Decode(AllLines(read), parse) ==
            if IsBlank(pending) then Outcome(values, Done)
            else if parse(pending).Some? then Outcome(values + [parse(pending).value], Done)
            else Outcome(values, BadJson)
  {
    hide SplitLines, Decode;
    DecodeJoin(SplitLines(read).lines, Rest(pending), parse);
    NoLines(parse);
    DecodeFirst(pending, [], parse);
    assert [pending] + [] == [pending];
    assert values + [] == values;
  }

  /** read_json_lines: whatever the chunks, it yields what the lines of the whole
      reply decode to, and fails at the same line. */
  method ReadJsonLines<V>(chunks: seq<string>, parse: string -> Option<V>) returns (outcome: Outcome<V>)
    ensures outcome == Decode(AllLines(Joined(chunks)), parse)
  {
    hide SplitLines, AllLines, Decode, Joined, Reading, NextSegment, IsLine;
    var values: seq<V>, pending := [], "";
    ghost var read := "";
    StartsReading(parse);
    EmptyJoined(chunks);
    for i := 0 to |chunks|
      invariant read == Joined(chunks[..i]) && Reading(read, pending, values, parse)
    {
      var left := chunks[i];
      ghost var later := Joined(chunks[i + 1..]);
      JoinedCut(chunks, i + 1);
      assert chunks[..i + 1] == chunks[..i] + [chunks[i]];
      JoinedSnoc(chunks[..i], chunks[i]);
      while left != []
        invariant read + left == Joined(chunks[..i + 1]) && Reading(read, pending, values, parse)
        decreases |left|
      {
        var segment := NextSegment(left);
        ghost var rest := left[|segment|..];
        assert left == segment + rest;
        Assoc(read, segment, rest);
        Assoc(read, segment + rest, later);
        Assoc(segment, rest, later);
        SegmentShape(left);
        Held(read, pending, values, parse);
        ShapeJoined(pending, segment);
        if |pending| + |segment| > MAX_LINE_BYTES {
          TooLongHere(read, pending, segment, rest + later, values, parse);
          return Outcome(values, TooLong);
        }
        if segment[|segment| - 1] == '\n' {
          LineHere(read, pending, segment, rest + later, values, parse);
          pending := pending + segment;
          if !IsBlank(pending) {
            var value := parse(pending);
            if value.None? {
              return Outcome(values, BadJson);
            }
            values := values + [value.value];
          }
          pending := "";
        } else {
          HeldHere(read, pending, segment, values, parse);
          pending := pending + segment;
        }
        read := read + segment;
        left := left[|segment|..];
      }
      assert read + [] == read;
    }
    assert chunks[..|chunks|] == chunks;
    LastHere(read, pending, values, parse);
    if !IsBlank(pending) {
      var value := parse(pending);
      if value.None? {
        return Outcome(values, BadJson);
      }
      values := values + [value.value];
    }
    return Outcome(values, Done);
  }

  lemma EmptyJoined(chunks: seq<string>)
    ensures Joined(chunks[..0]) == ""
  {
  }

  lemma Held<V>(read: string, pending: string, values: seq<V>, parse: string -> Option<V>)
    requires Reading(read, pending, values, parse)
    ensures '\n' !in pending
  {
  }
}
