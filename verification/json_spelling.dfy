/** The exact text of some values: the spelling json.dumps gives them, and the
    canonical form's. */
module JsonSpelling {
  import opened Wrappers
  import opened JsonValues
  import opened JsonText
  import opened Canonical

  /** Quotes, backslashes and control characters are escaped. */
  lemma EscapesAsJson()
    ensures Quote("\"\\/") == "\"\\\"\\\\/\""
    ensures Quote("\n\r\t") == "\"\\n\\r\\t\""
  {
    hide Escape;
    ThreeEscaped('\"', '\\', '/');
    ThreeEscaped('\n', '\r', '\t');
  }

  lemma EscapesControls()
    ensures Quote([8 as char, 12 as char, 31 as char]) == "\"\\b\\f\\u001f\""
  {
    hide Escape;
    ThreeEscaped(8 as char, 12 as char, 31 as char);
    assert EscapeChar(31 as char) == "\\u001f";
  }

  /** Anything else is written as it is. */
  lemma LeavesTheRest()
    ensures Quote("\U{7F}\U{E9}\U{1F600}") == "\"\U{7F}\U{E9}\U{1F600}\""
  {
    hide Escape;
    ThreeEscaped('\U{7F}', '\U{E9}', '\U{1F600}');
  }

  lemma EscapeOne(c: char)
    ensures Escape([c]) == EscapeChar(c)
  {
    assert [c][1..] == [];
  }

  lemma {:induction false} EscapeJoins(a: string, b: string)
    ensures Escape(a + b) == Escape(a) + Escape(b)
  {
    if a == [] {
      assert a + b == b;
    } else {
      assert (a + b)[1..] == a[1..] + b;
      EscapeJoins(a[1..], b);
    }
  }

  lemma ThreeEscaped(a: char, b: char, c: char)
    ensures Escape([a, b, c]) == EscapeChar(a) + EscapeChar(b) + EscapeChar(c)
  {
    assert [a, b, c] == [a] + [b] + [c];
    EscapeJoins([a] + [b], [c]);
    EscapeJoins([a], [b]);
    EscapeOne(a);
    EscapeOne(b);
    EscapeOne(c);
  }

  lemma IntsAsDecimal()
    ensures IntText(0) == "0" && IntText(-7) == "-7" && IntText(120) == "120"
  {
    assert NatText(12) == NatText(1) + [DigitChar(2)];
  }

  lemma OneLetter(c: char)
    requires 'a' <= c <= 'z'
    ensures Quote([c]) == ['\"', c, '\"']
  {
    EscapeOne(c);
  }

  lemma TwoMembers(m: Member, n: Member, gap: string)
    ensures Print(Obj([m, n]), gap) == "{" + (PrintMember(m, gap) + "," + gap + PrintMember(n, gap)) + "}"
  {
    hide PrintMember;
    assert [m, n][1..] == [n];
    assert PrintMembers([n], gap) == PrintMember(n, gap);
    assert PrintMembers([m, n], gap) == PrintMember(m, gap) + "," + gap + PrintMembers([n], gap);
  }

  lemma ThreeItems(u: Json, v: Json, w: Json, gap: string)
    ensures Print(Arr([u, v, w]), gap) ==
            "[" + (Print(u, gap) + "," + gap + (Print(v, gap) + "," + gap + Print(w, gap))) + "]"
  {
    assert [u, v, w][1..] == [v, w] && [v, w][1..] == [w];
    assert PrintItems([w], gap) == Print(w, gap);
    assert PrintItems([v, w], gap) == Print(v, gap) + "," + gap + PrintItems([w], gap);
    assert PrintItems([u, v, w], gap) == Print(u, gap) + "," + gap + PrintItems([v, w], gap);
  }

  /** json.dumps puts a space after each comma and colon. */
  lemma DumpsWithSpaces()
    ensures Print(Arr([Null, Bool(true), Bool(false)]), " ") == "[null, true, false]"
    ensures Print(Obj([Member("b", Int(-7)), Member("a", Int(0))]), " ") == "{\"b\": -7, \"a\": 0}"
  {
    hide Quote, IntText, PrintItems, PrintMembers;
    ThreeItems(Null, Bool(true), Bool(false), " ");
    OneLetter('a');
    OneLetter('b');
    IntsAsDecimal();
    TwoMembers(Member("b", Int(-7)), Member("a", Int(0)), " ");
    assert PrintMember(Member("b", Int(-7)), " ") == "\"b\": -7";
    assert PrintMember(Member("a", Int(0)), " ") == "\"a\": 0";
  }

  lemma TwoSorted(m: Member, n: Member)
    requires Before(n.key, m.key) && !Before(m.key, n.key)
    ensures Sort([m, n]) == [n, m]
  {
    assert [m, n][..1] == [m] && [m][..0] == [];
    assert Sort([m]) == [m];
    assert Insert(n, [m]) == [n, m];
  }

  lemma TwoCanonical(m: Member, n: Member, t: string, u: string, h: nat)
    requires Height(m.value) < h && Height(n.value) < h
    requires Canonicalize(m.value) == Some(t) && Canonicalize(n.value) == Some(u)
    ensures CanonicalMembers([m, n], h) == Some(Quote(m.key) + ":" + t + "," + (Quote(n.key) + ":" + u))
  {
    hide Quote;
    assert [m, n][1..] == [n];
    assert CanonicalMembers([n], h) == Some(Quote(n.key) + ":" + u);
  }

  lemma CanonicalBody(ms: seq<Member>, body: string)
    requires CanonicalMembers(Sort(ms), Height(Obj(ms))) == Some(body)
    ensures Canonicalize(Obj(ms)) == Some("{" + body + "}")
  {
    hide CanonicalMembers, Sort;
  }

  /** The canonical form has none, and its keys in order. */
  lemma CanonicalWithout()
    ensures Canonicalize(Obj([Member("b", Int(-7)), Member("a", Bool(true))])) == Some("{\"a\":true,\"b\":-7}")
  {
    hide Quote, IntText, CanonicalMembers, Sort;
    var m, n := Member("b", Int(-7)), Member("a", Bool(true));
    OneLetter('b');
    OneLetter('a');
    IntsAsDecimal();
    TwoSorted(m, n);
    var h := Height(Obj([m, n]));
    assert Canonicalize(Int(-7)) == Some("-7");
    TwoCanonical(n, m, "true", "-7", h);
    assert "a" == ['a'] && "b" == ['b'];
    assert Quote("a") + ":" + "true" == "\"a\":true" && Quote("b") + ":" + "-7" == "\"b\":-7";
    assert "\"a\":true" + "," + "\"b\":-7" == "\"a\":true,\"b\":-7";
    assert CanonicalMembers(Sort([m, n]), h) == Some("\"a\":true,\"b\":-7");
    CanonicalBody([m, n], "\"a\":true,\"b\":-7");
    assert "{" + "\"a\":true,\"b\":-7" + "}" == "{\"a\":true,\"b\":-7}";
  }
}
