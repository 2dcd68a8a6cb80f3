/** `audit tail -f`: a reader that follows the log while rotations move it away. */
module Follow {
  import opened TextLines
  import opened Wrappers

  /** What readline returns: up to and with the next newline, or all there is. */
  function NextChunk(rest: string): (chunk: string)
    ensures chunk <= rest && (chunk == [] ==> rest == [])
    ensures '\n' !in chunk || IsLine(chunk)
    ensures '\n' !in chunk ==> chunk == rest
  {
    if rest == [] then []
    else if rest[0] == '\n' then [rest[0]]
    else
      var more := NextChunk(rest[1..]);
      var all := [rest[0]] + more;
      assert more != [] ==> all[..|all| - 1] == [rest[0]] + more[..|more| - 1];
      all
  }

  // ---- the files, and the follower between two of its system calls ----

  datatype Pc = Checking | Reading | Sizing | Reopening

  // Files are numbered as they are created, the one followed first being 0;
  // `current` is the one the log's path names. `seen` are the files opened.
  datatype State = State(
    files: seq<string>, current: Option<nat>,
    pc: Pc, f: nat, pos: nat, moved: bool, pending: string,
    out: seq<string>, seen: set<nat>)

  // What may happen between two of the follower's calls: a writer appends
  // (creating the file if it is missing), or a rotation renames the log away
  // or creates the new one; and the follower's own next call.
  datatype Event = Append(data: string) | Rename | Create | Next

  function Opened(content: string): State {
    State([content], Some(0), Checking, 0, 0, false, [], [], {0})
  }

  function NewFile(s: State, data: string): State {
    s.(files := s.files + [data], current := Some(|s.files|))
  }

  function Step(s: State, ev: Event): State {
    match ev
    case Append(data) =>
      if s.current.None? then NewFile(s, data)
      else if s.current.value < |s.files| then
        s.(files := s.files[s.current.value := s.files[s.current.value] + data])
      else s
    case Rename => s.(current := None)
    case Create => if s.current.None? then NewFile(s, []) else s
    case Next => if s.f < |s.files| then FollowStep(s) else s
  }

  function FollowStep(s: State): State
    requires s.f < |s.files|
  {
    match s.pc
    case Checking => s.(pc := Reading, moved := s.current.Some? && s.current != Some(s.f))
    case Reading =>
      var chunk := if s.pos <= |s.files[s.f]| then NextChunk(s.files[s.f][s.pos..]) else [];
      if chunk == [] then s.(pc := Sizing)
      else
        var line := s.pending + chunk;
        var t := s.(pc := Checking, pos := s.pos + |chunk|);
        if line[|line| - 1] == '\n' then t.(out := s.out + [line], pending := []) else t.(pending := line)
    case Sizing =>
      if |s.files[s.f]| < s.pos then s.(pc := Checking, pos := 0, pending := [])
      else s.(pc := if s.moved then Reopening else Checking)
    case Reopening =>
      if s.current.None? then s.(pc := Checking)
      else s.(pc := Checking, out := s.out + Rest(s.pending), pending := [],
              f := s.current.value, pos := 0, seen := s.seen + {s.current.value})
  }

  function Run(content: string, events: seq<Event>): State {
    if events == [] then Opened(content)
    else Step(Run(content, events[..|events| - 1]), events[|events| - 1])
  }

  // ---- what holds at every call ----

  /** The lines of the first n files that are in `among`, in order. */
  function FileLines(files: seq<string>, among: set<nat>, n: nat): seq<string>
    requires n <= |files|
  {
    if n == 0 then []
    else FileLines(files, among, n - 1) + if n - 1 in among then AllLines(files[n - 1]) else []
  }

  ghost predicate Placed(s: State) {
    && s.f < |s.files| && s.pos <= |s.files[s.f]|
    && (s.current.Some? ==> s.current.value == |s.files| - 1)
    && 0 in s.seen && s.f in s.seen && (forall i | i in s.seen :: i <= s.f)
    && (s.pc != Checking && s.moved ==> s.current != Some(s.f))
    && (s.pc == Sizing && s.moved ==> s.pos == |s.files[s.f]|)
    && (s.pc == Reopening ==> s.moved && s.pos == |s.files[s.f]|)
  }

  /** Out is every line of the files left behind, in order, and those of the
      open file that were read; a line still unfinished is held. */
  ghost predicate Told(s: State)
    requires Placed(s)
  {
    var read := SplitLines(s.files[s.f][..s.pos]);
    s.out == FileLines(s.files, s.seen, s.f) + read.lines && s.pending == read.tail
  }

  lemma {:induction false} FileLinesSame(files: seq<string>, more: seq<string>, among: set<nat>, others: set<nat>, n: nat)
    requires n <= |files| && n <= |more| && files[..n] == more[..n]
    requires forall i: nat | i < n :: i in among <==> i in others
    ensures FileLines(files, among, n) == FileLines(more, others, n)
  {
    if n > 0 {
      assert files[..n - 1] == files[..n][..n - 1] == more[..n][..n - 1] == more[..n - 1];
      assert files[n - 1] == files[..n][n - 1] == more[n - 1];
      FileLinesSame(files, more, among, others, n - 1);
    }
  }

  lemma {:induction false} FileLinesNone(files: seq<string>, among: set<nat>, m: nat, n: nat)
    requires m <= n <= |files| && forall i: nat | m <= i < n :: i !in among
    ensures FileLines(files, among, n) == FileLines(files, among, m)
  {
    if m < n {
      FileLinesNone(files, among, m, n - 1);
    }
  }

  lemma ReadKeeps(s: State)
    requires Placed(s) && Told(s) && s.pc == Reading
    ensures Placed(FollowStep(s)) && Told(FollowStep(s))
  {
    hide SplitLines, NextChunk, IsLine, FileLines;
    var file := s.files[s.f];
    var chunk := NextChunk(file[s.pos..]);
    if chunk != [] {
      assert file[..s.pos + |chunk|] == file[..s.pos] + chunk by {
        assert file[s.pos..][..|chunk|] == chunk;
      }
      assert (s.pending + chunk)[|s.pending + chunk| - 1] == chunk[|chunk| - 1];
      LastOfChunk(file[s.pos..]);
      if '\n' in chunk {
        SplitLine(file[..s.pos], chunk);
      } else {
        SplitPlain(file[..s.pos], chunk);
      }
    } else {
      assert s.pos == |file|;
    }
  }

  lemma LastOfChunk(rest: string)
    requires NextChunk(rest) != []
    ensures '\n' in NextChunk(rest) <==> NextChunk(rest)[|NextChunk(rest)| - 1] == '\n'
  {
  }

  lemma ReopenKeeps(s: State)
    requires Placed(s) && Told(s) && s.pc == Reopening
    ensures Placed(FollowStep(s)) && Told(FollowStep(s))
  {
    if s.current.Some? {
      var t, file, next := FollowStep(s), s.files[s.f], s.current.value;
      assert file[..s.pos] == file;
      FileLinesSame(s.files, s.files, s.seen, t.seen, s.f);
      FileLinesNone(s.files, t.seen, s.f + 1, next);
      assert FileLines(s.files, t.seen, s.f + 1) == FileLines(s.files, s.seen, s.f) + AllLines(file);
      assert s.files[next][..0] == [];
    }
  }

  lemma AppendKeeps(s: State, data: string)
    requires Placed(s) && Told(s) && s.current.Some?
    ensures Placed(Step(s, Append(data))) && Told(Step(s, Append(data)))
  {
    var t := Step(s, Append(data));
    var c := s.current.value;
    assert t.files[..s.f] == s.files[..s.f];
    assert t.files[s.f][..s.pos] == s.files[s.f][..s.pos];
    FileLinesSame(s.files, t.files, s.seen, s.seen, s.f);
  }

  lemma NewFileKeeps(s: State, data: string)
    requires Placed(s) && Told(s) && s.current.None?
    ensures Placed(NewFile(s, data)) && Told(NewFile(s, data))
  {
    var t := NewFile(s, data);
    assert t.files[..s.f] == s.files[..s.f];
    FileLinesSame(s.files, t.files, s.seen, s.seen, s.f);
  }

  lemma StepKeeps(s: State, ev: Event)
    requires Placed(s) && Told(s)
    ensures Placed(Step(s, ev)) && Told(Step(s, ev))
  {
    match ev
    case Append(data) =>
      if s.current.Some? {
        AppendKeeps(s, data);
      } else {
        NewFileKeeps(s, data);
      }
    case Create =>
      if s.current.None? {
        NewFileKeeps(s, []);
      }
    case Rename =>
    case Next =>
      if s.pc == Reading {
        ReadKeeps(s);
      } else if s.pc == Reopening {
        ReopenKeeps(s);
      }
  }

  /** At every moment of every run the follower has put out each file's lines
      in order, none twice, the files it has left to their end. */
  lemma {:induction false} TellsInOrder(content: string, events: seq<Event>)
    ensures Placed(Run(content, events)) && Told(Run(content, events))
  {
    if events == [] {
      assert content[..0] == [];
    } else {
      TellsInOrder(content, events[..|events| - 1]);
      StepKeeps(Run(content, events[..|events| - 1]), events[|events| - 1]);
    }
  }

  lemma FrozenStep(s: State, ev: Event, i: nat)
    requires Placed(s) && i < |s.files| && s.current != Some(i)
    ensures var t := Step(s, ev);
            i < |t.files| && t.files[i] == s.files[i] && t.current != Some(i) && t.f >= s.f
  {
  }

  /** A file the follower has left is never written to again: what it put out
      of it is all there ever is. */
  lemma {:induction false} LeftFilesAreFinal(content: string, events: seq<Event>, from: nat, i: nat)
    requires from <= |events| && i < Run(content, events[..from]).f
    ensures var s, t := Run(content, events[..from]), Run(content, events);
            i < |s.files| && i < |t.files| && t.files[i] == s.files[i] && i < t.f
            && (s.current != Some(i)) && t.current != Some(i)
    decreases |events|
  {
    TellsInOrder(content, events[..from]);
    if from == |events| {
      assert events[..from] == events;
    } else {
      var before := events[..|events| - 1];
      assert before[..from] == events[..from];
      LeftFilesAreFinal(content, before, from, i);
      TellsInOrder(content, before);
      FrozenStep(Run(content, before), events[|events| - 1], i);
    }
  }

  // ---- when nothing is missed ----

  ghost predicate CaughtUp(s: State) {
    s.f == |s.files| - 1 && s.pos == |s.files[s.f]|
  }

  /** The lines of all of the first n files. */
  ghost function EveryLine(files: seq<string>, n: nat): seq<string>
    requires n <= |files|
  {
    if n == 0 then [] else EveryLine(files, n - 1) + AllLines(files[n - 1])
  }

  lemma {:induction false} OneLineEach(s: string)
    ensures AllLines(s) == [] <==> s == []
  {
    SplitIsExact(s);
    if AllLines(s) == [] {
      assert SplitLines(s).lines == [];
    }
  }

  ghost predicate OthersEmpty(files: seq<string>, among: set<nat>, n: nat)
    requires n <= |files|
  {
    forall i: nat | i < n && i !in among :: files[i] == []
  }

  lemma OthersEmptyStep(files: seq<string>, among: set<nat>, n: nat)
    requires 0 < n <= |files|
    ensures OthersEmpty(files, among, n) <==>
            OthersEmpty(files, among, n - 1) && (n - 1 in among || files[n - 1] == [])
  {
  }

  lemma {:induction false} SkippedLines(files: seq<string>, among: set<nat>, n: nat)
    requires n <= |files|
    ensures |FileLines(files, among, n)| <= |EveryLine(files, n)|
    ensures |FileLines(files, among, n)| == |EveryLine(files, n)| <==> OthersEmpty(files, among, n)
    ensures OthersEmpty(files, among, n) ==> FileLines(files, among, n) == EveryLine(files, n)
  {
    hide AllLines, OthersEmpty;
    if n > 0 {
      SkippedLines(files, among, n - 1);
      OthersEmptyStep(files, among, n);
      OneLineEach(files[n - 1]);
    } else {
      NoOthers(files, among);
    }
  }

  lemma NoOthers(files: seq<string>, among: set<nat>)
    ensures OthersEmpty(files, among, 0)
  {
  }

  /** Nothing written to any file is missing from the output. */
  ghost predicate Complete(s: State) {
    s.out + Rest(s.pending) == EveryLine(s.files, |s.files|)
  }

  lemma CompleteIffOthersEmpty(content: string, events: seq<Event>)
    requires CaughtUp(Run(content, events))
    ensures Complete(Run(content, events))
            <==> OthersEmpty(Run(content, events).files, Run(content, events).seen, |Run(content, events).files|)
  {
    hide Run, SplitLines, Rest;
    var s := Run(content, events);
    TellsInOrder(content, events);
    assert s.files[s.f][..s.pos] == s.files[s.f];
    assert AllLines(s.files[s.f]) == SplitLines(s.files[s.f]).lines + Rest(s.pending);
    assert s.out + Rest(s.pending) == FileLines(s.files, s.seen, s.f) + AllLines(s.files[s.f]);
    assert s.out + Rest(s.pending) == FileLines(s.files, s.seen, |s.files|);
    SkippedLines(s.files, s.seen, |s.files|);
  }

  /** The j-th event renames file i away. */
  ghost predicate RenamesAt(content: string, events: seq<Event>, j: nat, i: nat)
    requires j < |events|
  {
    events[j] == Rename && Run(content, events[..j]).current == Some(i)
  }

  /** Every log that ends up with anything in it is the one the follower has
      open when it is renamed away. */
  ghost predicate WatchedWhenRenamed(content: string, events: seq<Event>) {
    forall j: nat, i: nat | j < |events| && RenamesAt(content, events, j, i) && i < |Run(content, events).files| ::
      Run(content, events).files[i] == [] || Run(content, events[..j]).f == i
  }

  lemma SeenStep(s: State, ev: Event, i: nat)
    requires Placed(s) && i < |s.files|
    ensures i in Step(s, ev).seen <==> i in s.seen || (ev == Next && s.pc == Reopening && s.current == Some(i))
    ensures s.current != Some(i) ==> Step(s, ev).current != Some(i)
    ensures ev == Rename ==> Step(s, ev).current == None
    ensures |Step(s, ev).files| >= |s.files|
    ensures s.current == Some(i) && Step(s, ev).current != Some(i) ==> ev == Rename
    ensures |Step(s, ev).files| > |s.files| ==> |Step(s, ev).files| == |s.files| + 1 && Step(s, ev).current == Some(|s.files|)
  {
  }

  /** A file was seen exactly if it was open when it was renamed away. */
  lemma {:induction false} SeenIfOpenWhenRenamed(content: string, events: seq<Event>, j: nat, i: nat)
    requires j < |events| && RenamesAt(content, events, j, i)
    ensures i < |Run(content, events).files| && Run(content, events).current != Some(i)
    ensures i in Run(content, events).seen <==> Run(content, events[..j]).f == i
    decreases |events|
  {
    hide Step;
    var front := events[..|events| - 1];
    TellsInOrder(content, front);
    SeenStepAt(Run(content, front), events[|events| - 1]);
    if j == |front| {
      assert events[..j] == front;
      SeenStep(Run(content, front), events[j], i);
    } else {
      assert front[..j] == events[..j];
      SeenIfOpenWhenRenamed(content, front, j, i);
      SeenStep(Run(content, front), events[|events| - 1], i);
    }
  }

  lemma SeenStepAt(s: State, ev: Event)
    requires Placed(s)
    ensures s.current.Some? ==> (s.current.value in s.seen <==> s.f == s.current.value) && s.current.value < |s.files|
  {
  }

  /** A file that is not at the path any more was renamed away at some event. */
  lemma {:induction false} RenamedSomewhere(content: string, events: seq<Event>, i: nat) returns (j: nat)
    requires i < |Run(content, events).files| && Run(content, events).current != Some(i)
    ensures j < |events| && RenamesAt(content, events, j, i)
    decreases |events|
  {
    hide Step;
    FirstIsCurrent(content, events, i);
    var front, last := events[..|events| - 1], events[|events| - 1];
    TellsInOrder(content, front);
    var s := Run(content, front);
    if i < |s.files| {
      SeenStep(s, last, i);
      if s.current == Some(i) {
        j := |front|;
        assert events[..j] == front;
      } else {
        j := RenamedSomewhere(content, front, i);
        assert front[..j] == events[..j];
      }
    } else {
      SeenStep(s, last, 0);
      assert false;
    }
  }

  lemma FirstIsCurrent(content: string, events: seq<Event>, i: nat)
    requires i < |Run(content, events).files| && Run(content, events).current != Some(i)
    ensures events != [] && Run(content, events) == Step(Run(content, events[..|events| - 1]), events[|events| - 1])
  {
  }

  /** Once the follower has reached the end of the last file, it has put out the
      lines of all files exactly when each log with anything in it was the one
      it had open when a rotation renamed that log away. */
  lemma {:induction false} NothingMissedIff(content: string, events: seq<Event>)
    requires CaughtUp(Run(content, events))
    ensures Complete(Run(content, events)) <==> WatchedWhenRenamed(content, events)
  {
    hide Step, CaughtUp, Complete;
    var s := Run(content, events);
    CompleteIffOthersEmpty(content, events);
    TellsInOrder(content, events);
    LastIsSeen(s);
    if OthersEmpty(s.files, s.seen, |s.files|) {
      forall j: nat, i: nat | j < |events| && RenamesAt(content, events, j, i) && i < |s.files|
        ensures s.files[i] == [] || Run(content, events[..j]).f == i
      {
        SeenIfOpenWhenRenamed(content, events, j, i);
      }
    }
    if WatchedWhenRenamed(content, events) {
      forall i: nat | i < |s.files| && i !in s.seen ensures s.files[i] == [] {
        var j := RenamedSomewhere(content, events, i);
        SeenIfOpenWhenRenamed(content, events, j, i);
      }
    }
  }

  lemma LastIsSeen(s: State)
    requires Placed(s) && CaughtUp(s)
    ensures forall i: nat | i < |s.files| && i !in s.seen :: s.current != Some(i)
  {
  }

  lemma RunSnoc(content: string, events: seq<Event>, ev: Event)
    ensures Run(content, events + [ev]) == Step(Run(content, events), ev)
  {
    assert (events + [ev])[..|events|] == events;
  }

  lemma RunFour(content: string, events: seq<Event>, a: Event, b: Event, c: Event, d: Event)
    ensures Run(content, events + [a, b, c, d]) == Step(Step(Step(Step(Run(content, events), a), b), c), d)
  {
    hide Run, Step;
    RunSnoc(content, events, a);
    RunSnoc(content, events + [a], b);
    RunSnoc(content, (events + [a]) + [b], c);
    RunSnoc(content, ((events + [a]) + [b]) + [c], d);
    assert (((events + [a]) + [b]) + [c]) + [d] == events + [a, b, c, d];
  }

  function RotatedTwice(line: string): State {
    Opened([]).(files := [[], line, []], current := Some(2))
  }

  lemma RotatesTwice(line: string)
    ensures Step(Step(Step(Step(Opened([]), Rename), Append(line)), Rename), Create) == RotatedTwice(line)
  {
    assert [[]] + [line] + [[]] == [[], line, []];
  }

  lemma LooksAgain(line: string)
    ensures Step(Step(Step(Step(RotatedTwice(line), Next), Next), Next), Next) ==
            RotatedTwice(line).(moved := true, f := 2, seen := {0, 2})
  {
    var s := RotatedTwice(line);
    assert s.files[0][0..] == [];
    assert Step(s, Next) == s.(pc := Reading, moved := true);
    assert Step(Step(s, Next), Next) == s.(pc := Sizing, moved := true);
  }

  /** A log created, written and renamed away between two looks of the follower
      is lost to it. */
  lemma MissesALog(line: string)
    requires IsLine(line)
    ensures var s := Run([], [Rename, Append(line), Rename, Create] + [Next, Next, Next, Next]);
            CaughtUp(s) && s.files == [[], line, []] && s.out == [] && !Complete(s)
  {
    hide Step, Complete, IsLine;
    var rotated := [Rename, Append(line), Rename, Create];
    RunFour([], [], Rename, Append(line), Rename, Create);
    assert [] + rotated == rotated;
    RotatesTwice(line);
    RunFour([], rotated, Next, Next, Next, Next);
    LooksAgain(line);
    LineIsNotEmpty(line);
    CompleteIffOthersEmpty([], rotated + [Next, Next, Next, Next]);
    assert RotatedTwice(line).files[1] == line;
  }

  lemma LineIsNotEmpty(line: string)
    requires IsLine(line)
    ensures line != []
  {
  }

  ghost predicate Creates(s: State, ev: Event) {
    s.current.None? && (ev.Append? || ev.Create?)
  }

  /** Every new log is created while the follower reads the one before it. */
  ghost predicate NoticedInTime(content: string, events: seq<Event>) {
    forall i | 0 <= i < |events| && Creates(Run(content, events[..i]), events[i]) ::
      Run(content, events[..i]).f == |Run(content, events[..i]).files| - 1
  }

  ghost predicate SeenAll(s: State) {
    s.f + 2 >= |s.files| && forall i: nat | i <= s.f :: i in s.seen
  }

  lemma SeesStep(s: State, ev: Event)
    requires Placed(s) && SeenAll(s) && (Creates(s, ev) ==> s.f == |s.files| - 1)
    ensures SeenAll(Step(s, ev))
  {
  }

  lemma {:induction false} SeesAll(content: string, events: seq<Event>)
    requires NoticedInTime(content, events)
    ensures SeenAll(Run(content, events))
  {
    hide SeenAll, Placed, Told, Step;
    if events == [] {
      Opening(content);
    } else {
      var last := |events| - 1;
      var before := events[..last];
      forall i | 0 <= i < |before| && Creates(Run(content, before[..i]), before[i])
        ensures Run(content, before[..i]).f == |Run(content, before[..i]).files| - 1
      {
        assert before[..i] == events[..i];
      }
      SeesAll(content, before);
      TellsInOrder(content, before);
      SeesStep(Run(content, before), events[last]);
    }
  }

  lemma Opening(content: string)
    ensures SeenAll(Opened(content))
  {
  }

  /** So a follower that notices each rotation before the next misses nothing. */
  lemma {:induction false} NothingMissed(content: string, events: seq<Event>)
    requires NoticedInTime(content, events) && CaughtUp(Run(content, events))
    ensures Complete(Run(content, events))
  {
    SeesAll(content, events);
    CompleteIffOthersEmpty(content, events);
  }

  // ---- left alone, it catches up ----

  function Nexts(n: nat): seq<Event> {
    seq(n, i => Next)
  }

  ghost function Unread(s: State): nat {
    if s.f < |s.files| && s.pos <= |s.files[s.f]| then |s.files[s.f]| - s.pos else 0
  }

  /** How many calls until the follower reads again, or, with nothing left to
      read, until it opens the new file. */
  ghost function CallsLeft(s: State): nat {
    match s.pc
    case Reading => if Unread(s) > 0 then 0 else if s.moved then 3 else 6
    case Checking => if Unread(s) > 0 then 1 else 4
    case Sizing => if s.moved then 2 else 5
    case Reopening => 1
  }

  /** With the log in place and nobody writing, the follower comes to the end of
      the newest file. */
  lemma {:induction false} CatchesUp(content: string, events: seq<Event>) returns (n: nat)
    requires Run(content, events).current.Some?
    ensures CaughtUp(Run(content, events + Nexts(n)))
    ensures Run(content, events + Nexts(n)).files == Run(content, events).files
    decreases |Run(content, events).files| - Run(content, events).f, Unread(Run(content, events)), CallsLeft(Run(content, events))
  {
    hide Step, Placed, Told, CaughtUp, CallsLeft;
    TellsInOrder(content, events);
    var s := Run(content, events);
    if CaughtUp(s) {
      n := 0;
      assert events + Nexts(0) == events;
    } else {
      var more := events + [Next];
      assert more[..|events|] == events;
      assert Run(content, more) == Step(s, Next);
      Nearer(s);
      var m := CatchesUp(content, more);
      n := m + 1;
      assert more + Nexts(m) == events + Nexts(n);
    }
  }

  lemma Nearer(s: State)
    requires Placed(s) && s.current.Some? && !CaughtUp(s)
    ensures var t := Step(s, Next);
            t.files == s.files && t.current == s.current && s.f <= t.f < |s.files|
            && (t.f > s.f || Unread(t) < Unread(s) || (Unread(t) == Unread(s) && CallsLeft(t) < CallsLeft(s)))
  {
  }

  // ---- what is written is put out ----

  /** Between the follower's calls a writer's data goes to the end of the log at
      the path, or begins a new one; a rotation leaves the files as they are. */
  lemma WritersWrite(s: State, data: string)
    requires Placed(s)
    ensures var t := Step(s, Append(data));
            if s.current.Some?
            then t.files == s.files[..|s.files| - 1] + [s.files[|s.files| - 1] + data] && t.current == s.current
            else t.files == s.files + [data] && t.current == Some(|s.files|)
    ensures Step(s, Rename) == s.(current := None)
    ensures s.current.None? ==> Step(s, Create).files == s.files + [[]] && Step(s, Create).current == Some(|s.files|)
  {
  }

  /** Whatever is written to the log at the path, the follower, left alone, comes
      to put it out as the end of that file. */
  lemma {:induction false} AppendedIsTold(content: string, events: seq<Event>, data: string) returns (n: nat)
    requires Run(content, events).current.Some?
    ensures var s, t := Run(content, events), Run(content, events + [Append(data)] + Nexts(n));
            var last := |s.files| - 1;
            && s.files != [] && |t.files| == |s.files| && t.files[last] == s.files[last] + data
            && last in t.seen
            && t.out + Rest(t.pending) == FileLines(t.files, t.seen, last) + AllLines(s.files[last] + data)
  {
    hide Step, SplitLines;
    var s, last := Run(content, events), |Run(content, events).files| - 1;
    TellsInOrder(content, events);
    WritersWrite(s, data);
    RunSnoc(content, events, Append(data));
    n := CatchesUp(content, events + [Append(data)]);
    var t := Run(content, events + [Append(data)] + Nexts(n));
    TellsInOrder(content, events + [Append(data)] + Nexts(n));
    assert t.f == last && t.files[last][..t.pos] == t.files[last];
  }
}
