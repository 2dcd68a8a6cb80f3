/** Where the verifier and the tail reader cut a file into the same lines. */
module AuditCuts {
  import opened AuditLog
  import opened AuditVerify

  /** A CR that no LF follows. */
  ghost predicate HasLoneCr(data: string) {
    exists i | 0 <= i < |data| :: data[i] == '\r' && (i + 1 == |data| || data[i + 1] != '\n')
  }

  /** A line without its LF or CR LF. */
  function Chomp(line: string): string {
    if line == [] || line[|line| - 1] != '\n' then line
    else if |line| > 1 && line[|line| - 2] == '\r' then line[..|line| - 2]
    else line[..|line| - 1]
  }

  function Chomped(lines: seq<string>): seq<string> {
    if lines == [] then [] else [Chomp(lines[0])] + Chomped(lines[1..])
  }

  predicate NoBreaks(line: string) {
    '\n' !in line && '\r' !in line
  }

  lemma LoneCrTail(data: string)
    requires data != [] && data[0] != '\r'
    ensures HasLoneCr(data) <==> HasLoneCr(data[1..])
  {
    if HasLoneCr(data) {
      var i :| 0 <= i < |data| && data[i] == '\r' && (i + 1 == |data| || data[i + 1] != '\n');
      assert data[1..][i - 1] == '\r';
    }
    if HasLoneCr(data[1..]) {
      var i :| 0 <= i < |data[1..]| && data[1..][i] == '\r' && (i + 1 == |data[1..]| || data[1..][i + 1] != '\n');
      assert data[i + 1] == '\r';
    }
  }

  lemma LoneCrAfterPair(data: string)
    requires |data| > 1 && data[0] == '\r' && data[1] == '\n'
    ensures HasLoneCr(data) <==> HasLoneCr(data[2..])
  {
    assert data[1..][1..] == data[2..];
    LoneCrTail(data[1..]);
    if HasLoneCr(data) {
      var i :| 0 <= i < |data| && data[i] == '\r' && (i + 1 == |data| || data[i + 1] != '\n');
      assert i > 0 && data[1..][i - 1] == '\r';
    }
    if HasLoneCr(data[1..]) {
      var i :| 0 <= i < |data[1..]| && data[1..][i] == '\r' && (i + 1 == |data[1..]| || data[1..][i + 1] != '\n');
      assert data[i + 1] == '\r';
    }
  }

  /** The tail reader's first line holds all of what was read of it. */
  lemma {:induction false} FirstLfLine(data: string, line: string)
    requires line != []
    ensures LfLines(data, line) != [] && line <= LfLines(data, line)[0]
    ensures data == [] ==> LfLines(data, line) == [line]
    ensures data != [] && data[0] != '\n' ==> line + [data[0]] <= LfLines(data, line)[0]
    decreases |data|
  {
    if data != [] && data[0] != '\n' {
      FirstLfLine(data[1..], line + [data[0]]);
    }
  }

  lemma ChompCr(line: string, rest: string)
    requires rest == [] || rest[0] != '\n'
    ensures |Chomp(line + ['\r'] + rest)| > |line|
  {
  }

  /** Cut at each LF and chomped, a file's lines are the verifier's exactly if
      it has no lone CR. */
  lemma {:induction false} CutsAgreeFrom(data: string, line: string)
    requires NoBreaks(line)
    ensures Chomped(LfLines(data, line)) == SplitLines(data, line) <==> !HasLoneCr(data)
    decreases |data|
  {
    hide HasLoneCr;
    if data == [] {
      NoneLone();
      assert line != [] ==> Chomp(line) == line;
    } else if data[0] == '\n' {
      LoneCrTail(data);
      CutsAgreeFrom(data[1..], []);
      ChompedFirst(line + "\n", LfLines(data[1..], []));
      assert Chomp(line + "\n") == line by {
        ChompLf(line);
      }
      SameHead(line, Chomped(LfLines(data[1..], [])), SplitLines(data[1..], []));
    } else if data[0] == '\r' && |data| > 1 && data[1] == '\n' {
      LoneCrAfterPair(data);
      CutsAgreeFrom(data[2..], []);
      assert data[1..][1..] == data[2..];
      var first := line + ['\r'] + "\n";
      assert LfLines(data, line) == [first] + LfLines(data[2..], []);
      ChompedFirst(first, LfLines(data[2..], []));
      assert Chomp(first) == line;
      SameHead(line, Chomped(LfLines(data[2..], [])), SplitLines(data[2..], []));
    } else if data[0] == '\r' {
      FirstIsLone(data);
      var lines := LfLines(data[1..], line + ['\r']);
      FirstLfLine(data[1..], line + ['\r']);
      var rest := lines[0][|line| + 1..];
      assert lines[0] == line + ['\r'] + rest;
      if data[1..] != [] {
        assert lines[0][|line| + 1] == data[1];
      }
      ChompCr(line, rest);
      assert lines == [lines[0]] + lines[1..];
      ChompedFirst(lines[0], lines[1..]);
      assert SplitLines(data, line)[0] == line;
    } else {
      LoneCrTail(data);
      CutsAgreeFrom(data[1..], line + [data[0]]);
    }
  }

  lemma ChompLf(line: string)
    requires NoBreaks(line)
    ensures Chomp(line + "\n") == line
  {
    if line != [] {
      assert line[|line| - 1] in line;
    }
  }

  lemma SameHead(head: string, a: seq<string>, b: seq<string>)
    ensures [head] + a == [head] + b <==> a == b
  {
    assert ([head] + a)[1..] == a && ([head] + b)[1..] == b;
  }

  lemma NoneLone()
    ensures !HasLoneCr([])
  {
  }

  lemma FirstIsLone(data: string)
    requires data != [] && data[0] == '\r' && (|data| == 1 || data[1] != '\n')
    ensures HasLoneCr(data)
  {
  }

  lemma ChompedFirst(first: string, rest: seq<string>)
    ensures Chomped([first] + rest) == [Chomp(first)] + Chomped(rest)
  {
    assert ([first] + rest)[1..] == rest;
  }

  /** The two readers of a log see the same lines, line ends aside, exactly if
      no CR in it stands alone. */
  lemma CutsAgreeIff(data: string)
    ensures Chomped(LfLines(data, [])) == SplitLines(data, []) <==> !HasLoneCr(data)
  {
    CutsAgreeFrom(data, []);
  }

  /** One line to the tail reader is two to the verifier. */
  lemma CutsDiffer()
    ensures LfLines("a\rb\n", []) == ["a\rb\n"] && SplitLines("a\rb\n", []) == ["a", "b"]
  {
    var data := "a\rb\n";
    assert data[1..] == "\rb\n" && data[1..][1..] == "b\n" && data[1..][1..][1..] == "\n";
    assert "\n"[1..] == "" && [] + ['a'] == "a" && "a" + ['\r'] == "a\r" && "a\r" + ['b'] == "a\rb";
    assert "a\rb" + "\n" == "a\rb\n";
    assert LfLines("\n", "a\rb") == ["a\rb\n"] + LfLines("", []);
    assert SplitLines("b\n", []) == ["b"] + SplitLines("", []) by {
      assert [] + ['b'] == "b";
    }
  }
}
