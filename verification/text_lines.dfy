/** Text cut at its newlines. */
module TextLines {
  import opened Texts

  datatype Split = Split(lines: seq<string>, tail: string)

  /** The complete lines of `s`, newlines kept, and what follows the last one. */
  function SplitLines(s: string): Split {
    if s == [] then Split([], [])
    else
      var before, c := SplitLines(s[..|s| - 1]), s[|s| - 1];
      if c == '\n' then Split(before.lines + [before.tail + [c]], [])
      else Split(before.lines, before.tail + [c])
  }

  /** Every line, the last with or without its newline. */
  function AllLines(s: string): seq<string> {
    var split := SplitLines(s);
    split.lines + Rest(split.tail)
  }

  function Rest(tail: string): seq<string> {
    if tail == [] then [] else [tail]
  }

  function Joined(lines: seq<string>): string {
    if lines == [] then [] else Joined(lines[..|lines| - 1]) + lines[|lines| - 1]
  }

  predicate IsLine(line: string) {
    line != [] && line[|line| - 1] == '\n' && '\n' !in line[..|line| - 1]
  }

  lemma JoinedSnoc(lines: seq<string>, line: string)
    ensures Joined(lines + [line]) == Joined(lines) + line
  {
    assert (lines + [line])[..|lines|] == lines;
  }

  /** SplitLines cuts a text into newline-ended lines and a tail without
      newlines, and loses nothing. */
  lemma {:induction false} SplitIsExact(s: string)
    ensures Joined(SplitLines(s).lines) + SplitLines(s).tail == s
    ensures forall line | line in SplitLines(s).lines :: IsLine(line)
    ensures '\n' !in SplitLines(s).tail
  {
    if s != [] {
      var front, c := s[..|s| - 1], s[|s| - 1];
      SplitIsExact(front);
      var before := SplitLines(front);
      assert s == front + [c];
      Assoc(Joined(before.lines), before.tail, [c]);
      if c == '\n' {
        EndsLine(before.tail);
        JoinedSnoc(before.lines, before.tail + [c]);
        hide Joined, IsLine;
        assert Joined(before.lines + [before.tail + [c]]) + [] == s;
      }
    }
  }

  lemma EndsLine(tail: string)
    requires '\n' !in tail
    ensures IsLine(tail + ['\n'])
  {
    assert (tail + ['\n'])[..|tail|] == tail;
  }

  lemma SplitSnoc(s: string, c: char)
    ensures var before := SplitLines(s);
            SplitLines(s + [c]) ==
            if c == '\n' then Split(before.lines + [before.tail + [c]], []) else Split(before.lines, before.tail + [c])
  {
    assert (s + [c])[..|s|] == s;
  }

  lemma {:induction false} SplitPlain(s: string, chunk: string)
    requires '\n' !in chunk
    ensures SplitLines(s + chunk) == Split(SplitLines(s).lines, SplitLines(s).tail + chunk)
  {
    hide SplitLines;
    if chunk == [] {
      assert s + chunk == s;
      assert SplitLines(s).tail + chunk == SplitLines(s).tail;
    } else {
      var front, c := chunk[..|chunk| - 1], chunk[|chunk| - 1];
      assert chunk == front + [c];
      SplitPlain(s, front);
      SplitSnoc(s + front, c);
      Assoc(s, front, [c]);
      Assoc(SplitLines(s).tail, front, [c]);
    }
  }

  lemma SplitEnd(s: string, front: string)
    requires '\n' !in front
    ensures SplitLines(s + (front + ['\n'])) == Split(SplitLines(s).lines + [SplitLines(s).tail + (front + ['\n'])], [])
  {
    hide SplitLines;
    SplitPlain(s, front);
    SplitSnoc(s + front, '\n');
    Assoc(s, front, ['\n']);
    Assoc(SplitLines(s).tail, front, ['\n']);
  }

  lemma SplitLine(s: string, chunk: string)
    requires IsLine(chunk)
    ensures SplitLines(s + chunk) == Split(SplitLines(s).lines + [SplitLines(s).tail + chunk], [])
  {
    hide SplitLines;
    var front := chunk[..|chunk| - 1];
    SplitEnd(s, front);
    assert chunk == front + ['\n'];
  }
}
