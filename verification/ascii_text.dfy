/** When the canonical text of a value is plain ASCII: only when the value is. */
module AsciiText {
  import opened Canonical
  import opened JsonText
  import opened JsonValues
  import opened Texts
  import opened Wrappers

  /** Every string and key in the value is ASCII. */
  predicate AsciiValue(v: Json) {
    match v
    case Str(s) => IsAscii(s)
    case Arr(items) => forall i | 0 <= i < |items| :: AsciiValue(items[i])
    case Obj(members) => forall i | 0 <= i < |members| :: IsAscii(members[i].key) && AsciiValue(members[i].value)
    case _ => true
  }

  lemma AsciiJoin(a: string, b: string)
    ensures IsAscii(a + b) <==> IsAscii(a) && IsAscii(b)
  {
    assert forall i | 0 <= i < |a| :: (a + b)[i] == a[i];
    assert forall i | 0 <= i < |b| :: (a + b)[|a| + i] == b[i];
  }

  lemma {:induction false} EscapeAscii(s: string)
    ensures IsAscii(Escape(s)) <==> IsAscii(s)
  {
    if s != [] {
      EscapeAscii(s[1..]);
      AsciiJoin(EscapeChar(s[0]), Escape(s[1..]));
      AsciiJoin([s[0]], s[1..]);
      assert s == [s[0]] + s[1..];
      EscapeCharAscii(s[0]);
    }
  }

  lemma EscapeCharAscii(c: char)
    ensures IsAscii(EscapeChar(c)) <==> IsAscii([c])
  {
    if c >= ' ' && c != '\"' && c != '\\' {
      assert EscapeChar(c) == [c];
    }
  }

  lemma QuoteAscii(s: string)
    ensures IsAscii(Quote(s)) <==> IsAscii(s)
  {
    EscapeAscii(s);
    AsciiJoin("\"" + Escape(s), "\"");
    AsciiJoin("\"", Escape(s));
  }

  lemma Wrapped(open: string, text: string, close: string)
    requires IsAscii(open) && IsAscii(close)
    ensures IsAscii(open + text + close) <==> IsAscii(text)
  {
    AsciiJoin(open + text, close);
    AsciiJoin(open, text);
  }

  lemma {:induction false} PrintAscii(v: Json)
    ensures IsAscii(Print(v, "")) <==> AsciiValue(v)
    decreases v, 1
  {
    match v
    case Float(Finite(t)) => assert IsFloatText(t);
    case Str(s) => QuoteAscii(s);
    case Arr(items) =>
      ItemsAscii(items);
      Wrapped("[", PrintItems(items, ""), "]");
    case Obj(members) =>
      MembersAscii(members);
      Wrapped("{", PrintMembers(members, ""), "}");
    case _ =>
  }

  lemma {:induction false} ItemsAscii(items: seq<Json>)
    ensures IsAscii(PrintItems(items, "")) <==> forall i | 0 <= i < |items| :: AsciiValue(items[i])
    decreases items, 0
  {
    if items != [] {
      PrintAscii(items[0]);
      if |items| > 1 {
        ItemsAscii(items[1..]);
        assert (forall i | 0 <= i < |items| :: AsciiValue(items[i]))
          <==> AsciiValue(items[0]) && forall i | 0 <= i < |items[1..]| :: AsciiValue(items[1..][i]) by {
          assert forall i | 1 <= i < |items| :: items[i] == items[1..][i - 1];
        }
        AsciiJoin(Print(items[0], "") + "," + "", PrintItems(items[1..], ""));
        AsciiJoin(Print(items[0], ""), ",");
        assert Print(items[0], "") + "," + "" == Print(items[0], "") + ",";
      }
    }
  }

  lemma MemberAscii(m: Member)
    requires IsAscii(Print(m.value, "")) <==> AsciiValue(m.value)
    ensures IsAscii(PrintMember(m, "")) <==> IsAscii(m.key) && AsciiValue(m.value)
  {
    QuoteAscii(m.key);
    AsciiJoin(Quote(m.key) + ":" + "", Print(m.value, ""));
    assert Quote(m.key) + ":" + "" == Quote(m.key) + ":";
    AsciiJoin(Quote(m.key), ":");
  }

  lemma {:induction false} MembersAscii(ms: seq<Member>)
    ensures IsAscii(PrintMembers(ms, "")) <==>
            forall i | 0 <= i < |ms| :: IsAscii(ms[i].key) && AsciiValue(ms[i].value)
    decreases ms, 0
  {
    if ms != [] {
      PrintAscii(ms[0].value);
      MemberAscii(ms[0]);
      if |ms| > 1 {
        MembersAscii(ms[1..]);
        assert (forall i | 0 <= i < |ms| :: IsAscii(ms[i].key) && AsciiValue(ms[i].value))
          <==> (IsAscii(ms[0].key) && AsciiValue(ms[0].value)
                && forall i | 0 <= i < |ms[1..]| :: IsAscii(ms[1..][i].key) && AsciiValue(ms[1..][i].value)) by {
          assert forall i | 1 <= i < |ms| :: ms[i] == ms[1..][i - 1];
        }
        AsciiJoin(PrintMember(ms[0], "") + "," + "", PrintMembers(ms[1..], ""));
        AsciiJoin(PrintMember(ms[0], ""), ",");
        assert PrintMember(ms[0], "") + "," + "" == PrintMember(ms[0], "") + ",";
      }
    }
  }

  predicate AsciiMembers(ms: seq<Member>) {
    forall m | m in ms :: IsAscii(m.key) && AsciiValue(m.value)
  }

  lemma NormalShape(members: seq<Member>)
    ensures Normal(Obj(members)).Obj?
    ensures var sorted, normal := Sort(members), Normal(Obj(members)).members;
            |normal| == |sorted| && forall i | 0 <= i < |sorted| ::
              normal[i] == Member(sorted[i].key, Normal(sorted[i].value)) && sorted[i] in members
  {
    assert forall i | 0 <= i < |Sort(members)| :: Sort(members)[i] in Sort(members);
  }

  lemma Mapped(sorted: seq<Member>, normal: seq<Member>)
    requires |normal| == |sorted|
    requires forall i | 0 <= i < |sorted| ::
               normal[i].key == sorted[i].key && (AsciiValue(normal[i].value) <==> AsciiValue(sorted[i].value))
    ensures AsciiMembers(normal) <==> AsciiMembers(sorted)
  {
    hide AsciiValue, IsAscii;
    if AsciiMembers(sorted) {
      forall m | m in normal ensures IsAscii(m.key) && AsciiValue(m.value) {
        var i :| 0 <= i < |normal| && normal[i] == m;
        assert sorted[i] in sorted;
      }
    }
    if AsciiMembers(normal) {
      forall m | m in sorted ensures IsAscii(m.key) && AsciiValue(m.value) {
        var i :| 0 <= i < |sorted| && sorted[i] == m;
        assert normal[i] in normal;
      }
    }
  }

  lemma NormalObjectAscii(members: seq<Member>)
    requires forall m | m in members :: AsciiValue(Normal(m.value)) <==> AsciiValue(m.value)
    ensures AsciiValue(Normal(Obj(members))) <==> AsciiValue(Obj(members))
  {
    hide Normal, AsciiValue, IsAscii, Sort;
    NormalShape(members);
    var sorted, normal := Sort(members), Normal(Obj(members)).members;
    Mapped(sorted, normal);
    assert AsciiMembers(sorted) <==> AsciiMembers(members);
    MembersAre(members);
    MembersAre(normal);
  }

  lemma MembersAre(ms: seq<Member>)
    ensures AsciiMembers(ms) <==> AsciiValue(Obj(ms))
  {
    if AsciiMembers(ms) {
      assert forall i | 0 <= i < |ms| :: ms[i] in ms;
    }
  }

  lemma {:induction false} NormalAscii(v: Json)
    ensures AsciiValue(Normal(v)) <==> AsciiValue(v)
    decreases Height(v)
  {
    match v
    case Arr(items) =>
      forall i | 0 <= i < |items| ensures AsciiValue(Normal(items[i])) <==> AsciiValue(items[i]) {
        NormalAscii(items[i]);
      }
    case Obj(members) =>
      forall m | m in members ensures AsciiValue(Normal(m.value)) <==> AsciiValue(m.value) {
        NormalAscii(m.value);
      }
      NormalObjectAscii(members);
    case _ =>
  }

  /** The canonical text is ASCII exactly when every string and key is. */
  lemma CanonicalAsciiIff(v: Json)
    requires AllFinite(v)
    ensures Canonicalize(v).Some? && (IsAscii(Canonicalize(v).value) <==> AsciiValue(v))
  {
    CanonicalIsPrinted(v);
    PrintAscii(Normal(v));
    NormalAscii(v);
  }

  /** One letter is enough. */
  lemma CanonicalNotAscii()
    ensures Canonicalize(Str("\U{00E9}")) == Some("\"\U{00E9}\"") && !IsAscii("\"\U{00E9}\"")
  {
    var e := "\U{00E9}";
    assert e[1..] == [] && Escape(e[1..]) == [];
    assert EscapeChar(e[0]) == [e[0]] == e;
    assert Escape(e) == e;
    assert Quote(e) == "\"\U{00E9}\"";
    assert "\"\U{00E9}\""[1] >= 128 as char;
  }
}
