/** A file made of appended records reads back as exactly those records, both
    by the verifier's line splitting and by the tail reader's. */
module AuditLines {
  import opened Texts
  import opened Wrappers
  import opened JsonValues
  import opened JsonText
  import opened AuditVerify
  import opened AuditLog

  /** The contents of a file to which these records were appended. */
  function Render(recs: seq<Json>): string {
    if recs == [] then [] else DumpLine(recs[0]) + Render(recs[1..])
  }

  lemma {:induction false} RenderAppend(recs: seq<Json>, r: Json)
    ensures Render(recs + [r]) == Render(recs) + DumpLine(r)
  {
    if recs == [] {
      assert recs + [r] == [r] && [r][1..] == [];
      assert DumpLine(r) + [] == [] + DumpLine(r);
    } else {
      assert (recs + [r])[0] == recs[0] && (recs + [r])[1..] == recs[1..] + [r];
      RenderAppend(recs[1..], r);
      Assoc(DumpLine(recs[0]), Render(recs[1..]), DumpLine(r));
    }
  }

  // ---- printed text holds no control characters ----

  predicate Visible(s: string) {
    forall i | 0 <= i < |s| :: s[i] >= ' '
  }

  lemma VisibleJoin(a: string, b: string)
    ensures Visible(a + b) <==> Visible(a) && Visible(b)
  {
    assert forall i | 0 <= i < |a| :: (a + b)[i] == a[i];
    assert forall i | 0 <= i < |b| :: (a + b)[|a| + i] == b[i];
  }

  lemma {:induction false} EscapeVisible(s: string)
    ensures Visible(Escape(s))
  {
    if s != [] {
      EscapeVisible(s[1..]);
      VisibleJoin(EscapeChar(s[0]), Escape(s[1..]));
    }
  }

  lemma QuoteVisible(s: string)
    ensures Visible(Quote(s))
  {
    EscapeVisible(s);
    VisibleJoin("\"" + Escape(s), "\"");
    VisibleJoin("\"", Escape(s));
  }

  lemma {:induction false} PrintVisible(v: Json, gap: string)
    requires Spaces(gap)
    ensures Visible(Print(v, gap))
    decreases v, 1
  {
    match v
    case Float(Finite(t)) => assert IsFloatText(t);
    case Str(s) => QuoteVisible(s);
    case Arr(items) =>
      ItemsVisible(items, gap);
      VisibleJoin("[" + PrintItems(items, gap), "]");
      VisibleJoin("[", PrintItems(items, gap));
    case Obj(members) =>
      MembersVisible(members, gap);
      VisibleJoin("{" + PrintMembers(members, gap), "}");
      VisibleJoin("{", PrintMembers(members, gap));
    case _ =>
  }

  lemma {:induction false} ItemsVisible(items: seq<Json>, gap: string)
    requires Spaces(gap)
    ensures Visible(PrintItems(items, gap))
    decreases items, 0
  {
    if items != [] {
      var first := Print(items[0], gap);
      PrintVisible(items[0], gap);
      if |items| > 1 {
        ItemsVisible(items[1..], gap);
        VisibleJoin(first + "," + gap, PrintItems(items[1..], gap));
        VisibleJoin(first + ",", gap);
        VisibleJoin(first, ",");
      }
    }
  }

  lemma {:induction false} MembersVisible(members: seq<Member>, gap: string)
    requires Spaces(gap)
    ensures Visible(PrintMembers(members, gap))
    decreases members, 0
  {
    if members != [] {
      var first := PrintMember(members[0], gap);
      PrintVisible(members[0].value, gap);
      QuoteVisible(members[0].key);
      VisibleJoin(Quote(members[0].key) + ":" + gap, Print(members[0].value, gap));
      VisibleJoin(Quote(members[0].key) + ":", gap);
      VisibleJoin(Quote(members[0].key), ":");
      if |members| > 1 {
        MembersVisible(members[1..], gap);
        VisibleJoin(first + "," + gap, PrintMembers(members[1..], gap));
        VisibleJoin(first + ",", gap);
        VisibleJoin(first, ",");
      }
    }
  }

  // ---- splitting ----

  lemma {:induction false} SplitVisible(text: string, rest: string, line: string)
    requires Visible(text)
    ensures SplitLines(text + ("\n" + rest), line) == [line + text] + SplitLines(rest, [])
    ensures LfLines(text + ("\n" + rest), line) == [line + text + "\n"] + LfLines(rest, [])
    decreases |text|
  {
    var data := text + ("\n" + rest);
    if text == [] {
      assert data == "\n" + rest && data[1..] == rest;
      assert line + text == line;
    } else {
      assert data[0] == text[0] && data[1..] == text[1..] + ("\n" + rest);
      SplitVisible(text[1..], rest, line + [text[0]]);
      assert line + [text[0]] + text[1..] == line + text;
    }
  }

  /** The texts of the records, one a line. */
  function Lines(recs: seq<Json>): (r: seq<string>)
    ensures |r| == |recs| && forall i | 0 <= i < |recs| :: r[i] == Dumps(recs[i])
  {
    seq(|recs|, i requires 0 <= i < |recs| => Dumps(recs[i]))
  }

  predicate AllObjects(recs: seq<Json>) {
    forall i | 0 <= i < |recs| :: recs[i].Obj?
  }

  lemma ObjectNotBlank(v: Json)
    requires v.Obj?
    ensures !IsBlank(Dumps(v)) && !IsBlank(DumpLine(v))
  {
    assert Dumps(v)[0] == '{';
    assert DumpLine(v)[0] == '{';
  }

  /** Read back by the verifier, the file is its records' lines. */
  lemma {:induction false} RenderedLines(recs: seq<Json>)
    requires AllObjects(recs)
    ensures RecordLines(Render(recs)) == Lines(recs)
    ensures recs != [] ==> EndsInNewline(Render(recs))
  {
    if recs != [] {
      var rest := Render(recs[1..]);
      RenderedLines(recs[1..]);
      PrintVisible(recs[0], " ");
      Assoc(Dumps(recs[0]), "\n", rest);
      SplitVisible(Dumps(recs[0]), rest, []);
      assert [] + Dumps(recs[0]) == Dumps(recs[0]);
      ObjectNotBlank(recs[0]);
      assert Filled([Dumps(recs[0])] + SplitLines(rest, [])) == [Dumps(recs[0])] + RecordLines(rest) by {
        assert ([Dumps(recs[0])] + SplitLines(rest, []))[1..] == SplitLines(rest, []);
      }
      assert Lines(recs) == [Dumps(recs[0])] + Lines(recs[1..]);
      RenderEnd(recs);
    }
  }

  lemma {:induction false} RenderEnd(recs: seq<Json>)
    requires recs != []
    ensures EndsInNewline(Render(recs))
  {
    var last := |recs| - 1;
    assert recs == recs[..last] + [recs[last]];
    RenderAppend(recs[..last], recs[last]);
    var before := Render(recs[..last]);
    assert (before + DumpLine(recs[last]))[|before| + |Dumps(recs[last])|] == '\n';
  }

  lemma {:induction false} LfRendered(recs: seq<Json>)
    ensures var lines := LfLines(Render(recs), []);
            |lines| == |recs| && forall i | 0 <= i < |recs| :: lines[i] == DumpLine(recs[i])
  {
    if recs != [] {
      var rest := Render(recs[1..]);
      LfRendered(recs[1..]);
      PrintVisible(recs[0], " ");
      Assoc(Dumps(recs[0]), "\n", rest);
      SplitVisible(Dumps(recs[0]), rest, []);
      assert [] + Dumps(recs[0]) + "\n" == DumpLine(recs[0]);
    }
  }

  // ---- reading one record back ----

  /** json.loads reads a dumped record back, with or without the newline the
      tail reader leaves on it. */
  ghost predicate Faithful(loads: string -> Option<Json>) {
    forall v: Json | WellFormed(v) && AllFinite(v) ::
      loads(Dumps(v)) == Some(v) && loads(DumpLine(v)) == Some(v)
  }

  /** A reader built on the parser, for one line. */
  function ReadLine(line: string): Option<Json> {
    var text := if EndsInNewline(line) then line[..|line| - 1] else line;
    var (v, rest) :- ParseValue(text);
    if rest == [] && WellFormed(v) then Some(v) else None
  }

  /** The assumption has a model: the parser of JsonText reads every dumped
      record back. */
  lemma {:induction false} ReadLineFaithful()
    ensures Faithful(ReadLine) && SoundLoads(ReadLine)
  {
    forall v: Json | WellFormed(v) && AllFinite(v)
      ensures ReadLine(Dumps(v)) == Some(v) && ReadLine(DumpLine(v)) == Some(v)
    {
      PrintParses(v, " ", []);
      PrintVisible(v, " ");
      assert Dumps(v) + [] == Dumps(v);
      assert DumpLine(v)[..|Dumps(v)|] == Dumps(v);
    }
  }
}
