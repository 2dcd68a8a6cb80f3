/** JSON text: the printer behind json.dumps, and a parser that inverts it on
    every value followed by a delimiter. */
module JsonText {
  import opened Texts
  import opened Wrappers
  import opened JsonValues

  // ---- numbers ----

  function DigitChar(d: nat): (c: char)
    requires d < 10
    ensures IsDigit(c) && c as int - '0' as int == d
  {
    '0' + d as char
  }

  /** str(n) for a natural number. */
  function NatText(n: nat): (t: string)
    ensures t != [] && forall i | 0 <= i < |t| :: IsDigit(t[i])
  {
    if n < 10 then [DigitChar(n)] else NatText(n / 10) + [DigitChar(n % 10)]
  }

  function NatValue(t: string): nat
    requires forall i | 0 <= i < |t| :: IsDigit(t[i])
  {
    if t == [] then 0
    else
      assert IsDigit(t[|t| - 1]);
      10 * NatValue(t[..|t| - 1]) + (t[|t| - 1] as int - '0' as int)
  }

  lemma {:induction false} NatRoundTrip(n: nat)
    ensures NatValue(NatText(n)) == n
  {
    if n >= 10 {
      NatRoundTrip(n / 10);
      assert NatText(n)[..|NatText(n)| - 1] == NatText(n / 10);
    } else {
      assert NatText(n)[..0] == [];
    }
  }

  /** str(n). */
  function IntText(n: int): (t: string)
    ensures t != [] && (IsDigit(t[0]) || t[0] == '-')
    ensures forall i | 0 <= i < |t| :: IsNumeric(t[i])
    ensures '.' !in t && 'e' !in t
  {
    if n < 0 then ['-'] + NatText(-n) else NatText(n)
  }

  /** The longest run of number characters at the front of `s`. */
  function NumericRun(s: string): (k: nat)
    ensures k <= |s|
    ensures forall i | 0 <= i < k :: IsNumeric(s[i])
    ensures k < |s| ==> !IsNumeric(s[k])
  {
    if s == [] || !IsNumeric(s[0]) then 0 else 1 + NumericRun(s[1..])
  }

  function ParseNumber(s: string): (r: Option<(Json, string)>)
    ensures r.Some? ==> |r.value.1| < |s|
  {
    var run := s[..NumericRun(s)];
    var rest := s[NumericRun(s)..];
    if IsFloatText(run) then Some((Float(Finite(run)), rest))
    else
      var digits := if run != [] && run[0] == '-' then run[1..] else run;
      if digits == [] || exists i | 0 <= i < |digits| :: !IsDigit(digits[i]) then None
      else
        var n: int := NatValue(digits);
        Some((Int(if run[0] == '-' then -n else n), rest))
  }

  // ---- strings ----

  function HexChar(d: nat): char
    requires d < 16
  {
    if d < 10 then DigitChar(d) else 'a' + (d - 10) as char
  }

  function HexValue(c: char): Option<nat> {
    if IsDigit(c) then Some(c as int - '0' as int)
    else if 'a' <= c <= 'f' then Some(c as int - 'a' as int + 10)
    else None
  }

  /** One character inside a JSON string, as json.dumps(ensure_ascii=False)
      writes it. */
  function EscapeChar(c: char): string {
    if c == '\"' then "\\\""
    else if c == '\\' then "\\\\"
    else if c == '\n' then "\\n"
    else if c == '\r' then "\\r"
    else if c == '\t' then "\\t"
    else if c == 8 as char then "\\b"
    else if c == 12 as char then "\\f"
    else if c < ' ' then "\\u00" + [HexChar(c as int / 16), HexChar(c as int % 16)]
    else [c]
  }

  function Escape(s: string): string {
    if s == [] then [] else EscapeChar(s[0]) + Escape(s[1..])
  }

  function Quote(s: string): string {
    "\"" + Escape(s) + "\""
  }

  /** The first character of the text inside a string, and what follows it. */
  function ParseChar(s: string): (r: Option<(char, string)>)
    requires s != []
    ensures r.Some? ==> |r.value.1| < |s|
  {
    if s[0] != '\\' then Some((s[0], s[1..]))
    else if |s| < 2 then None
    else match s[1]
      case '\"' => Some(('\"', s[2..]))
      case '\\' => Some(('\\', s[2..]))
      case 'n' => Some(('\n', s[2..]))
      case 'r' => Some(('\r', s[2..]))
      case 't' => Some(('\t', s[2..]))
      case 'b' => Some((8 as char, s[2..]))
      case 'f' => Some((12 as char, s[2..]))
      case 'u' =>
        if |s| < 6 || s[2] != '0' || s[3] != '0' then None
        else
          var high :- HexValue(s[4]);
          var low :- HexValue(s[5]);
          Some(((16 * high + low) as char, s[6..]))
      case _ => None
  }

  /** The rest of a string whose opening quote has been read. */
  function ParseString(s: string): (r: Option<(string, string)>)
    ensures r.Some? ==> |r.value.1| < |s|
    decreases |s|
  {
    if s == [] then None
    else if s[0] == '\"' then Some(([], s[1..]))
    else
      var (c, rest) :- ParseChar(s);
      var (tail, end) :- ParseString(rest);
      Some(([c] + tail, end))
  }

  lemma EscapedCharParses(c: char, rest: string)
    ensures EscapeChar(c) != [] && EscapeChar(c)[0] != '\"'
    ensures ParseChar(EscapeChar(c) + rest) == Some((c, rest))
  {
    var t := EscapeChar(c) + rest;
    assert t[|EscapeChar(c)|..] == rest;
    if c < ' ' && |EscapeChar(c)| == 6 {
      var high, low := c as int / 16, c as int % 16;
      assert t[..6] == EscapeChar(c);
      assert t[4] == HexChar(high) && t[5] == HexChar(low);
      HexRoundTrip(high);
      HexRoundTrip(low);
    }
  }

  lemma HexRoundTrip(d: nat)
    requires d < 16
    ensures HexValue(HexChar(d)) == Some(d)
  {
  }

  lemma Front(a: string, b: string)
    ensures (a + b)[..|a|] == a && (a + b)[|a|..] == b
    ensures a != [] ==> (a + b)[0] == a[0]
  {
  }

  lemma {:induction false} EscapedStringParses(s: string, rest: string)
    ensures ParseString(Escape(s) + ("\"" + rest)) == Some((s, rest))
  {
    var end := "\"" + rest;
    if s == [] {
      assert Escape(s) + end == end && end[1..] == rest;
    } else {
      var more := Escape(s[1..]) + end;
      Assoc(EscapeChar(s[0]), Escape(s[1..]), end);
      EscapedCharParses(s[0], more);
      Front(EscapeChar(s[0]), more);
      EscapedStringParses(s[1..], rest);
      assert [s[0]] + s[1..] == s;
    }
  }

  /** Past the opening quote of a quoted string. */
  lemma QuotedSplit(t: string, rest: string)
    ensures Quote(t) + rest != [] && (Quote(t) + rest)[0] == '\"'
    ensures (Quote(t) + rest)[1..] == Escape(t) + ("\"" + rest)
  {
    var body := Escape(t) + "\"";
    assert Quote(t) == "\"" + body;
    Assoc("\"", body, rest);
    Front("\"", body + rest);
    Assoc(Escape(t), "\"", rest);
  }

  // ---- values ----

  /** json.dumps(v, ensure_ascii=False) with separators "," + gap and ":" + gap.
      The canonical form uses no gap; a log line uses one space. */
  function Print(v: Json, gap: string): string {
    match v
    case Null => "null"
    case Bool(b) => if b then "true" else "false"
    case Int(n) => IntText(n)
    case Float(Finite(t)) => t
    case Float(NaN) => "NaN"
    case Float(Infinity(negative)) => if negative then "-Infinity" else "Infinity"
    case Str(s) => Quote(s)
    case Arr(items) => "[" + PrintItems(items, gap) + "]"
    case Obj(members) => "{" + PrintMembers(members, gap) + "}"
  }

  function PrintItems(items: seq<Json>, gap: string): string {
    if items == [] then []
    else if |items| == 1 then Print(items[0], gap)
    else Print(items[0], gap) + "," + gap + PrintItems(items[1..], gap)
  }

  function PrintMember(m: Member, gap: string): string {
    Quote(m.key) + ":" + gap + Print(m.value, gap)
  }

  function PrintMembers(members: seq<Member>, gap: string): string {
    if members == [] then []
    else if |members| == 1 then PrintMember(members[0], gap)
    else PrintMember(members[0], gap) + "," + gap + PrintMembers(members[1..], gap)
  }

  function SkipSpaces(s: string): (r: string)
    ensures |r| <= |s|
  {
    if s != [] && s[0] == ' ' then SkipSpaces(s[1..]) else s
  }

  function ParseValue(s: string): (r: Option<(Json, string)>)
    ensures r.Some? ==> |r.value.1| < |s|
    decreases |s|, 1
  {
    if s == [] then None
    else if "null" <= s then Some((Null, s[4..]))
    else if "true" <= s then Some((Bool(true), s[4..]))
    else if "false" <= s then Some((Bool(false), s[5..]))
    else if s[0] == '\"' then
      var (t, rest) :- ParseString(s[1..]);
      Some((Str(t), rest))
    else if "[]" <= s then Some((Arr([]), s[2..]))
    else if s[0] == '[' then
      var (items, rest) :- ParseItems(s[1..]);
      Some((Arr(items), rest))
    else if "{}" <= s then Some((Obj([]), s[2..]))
    else if s[0] == '{' then
      var (members, rest) :- ParseMembers(s[1..]);
      Some((Obj(members), rest))
    else ParseNumber(s)
  }

  /** One or more items and the closing bracket. */
  function ParseItems(s: string): (r: Option<(seq<Json>, string)>)
    ensures r.Some? ==> |r.value.1| < |s|
    decreases |s|, 2
  {
    var (v, rest) :- ParseValue(s);
    if rest != [] && rest[0] == ']' then Some(([v], rest[1..]))
    else if rest != [] && rest[0] == ',' then
      var (vs, end) :- ParseItems(SkipSpaces(rest[1..]));
      Some(([v] + vs, end))
    else None
  }

  function ParseMember(s: string): (r: Option<(Member, string)>)
    ensures r.Some? ==> |r.value.1| < |s|
    decreases |s|, 2
  {
    if s == [] || s[0] != '\"' then None
    else
      var (key, colon) :- ParseString(s[1..]);
      if colon == [] || colon[0] != ':' then None
      else
        var (v, rest) :- ParseValue(SkipSpaces(colon[1..]));
        Some((Member(key, v), rest))
  }

  /** One or more members and the closing brace. */
  function ParseMembers(s: string): (r: Option<(seq<Member>, string)>)
    ensures r.Some? ==> |r.value.1| < |s|
    decreases |s|, 3
  {
    var (m, rest) :- ParseMember(s);
    if rest != [] && rest[0] == '}' then Some(([m], rest[1..]))
    else if rest != [] && rest[0] == ',' then
      var (ms, end) :- ParseMembers(SkipSpaces(rest[1..]));
      Some(([m] + ms, end))
    else None
  }

  /** What may follow a value: nothing, or a character no number contains. */
  predicate Delimited(rest: string) {
    rest == [] || !IsNumeric(rest[0])
  }

  predicate Spaces(gap: string) {
    forall i | 0 <= i < |gap| :: gap[i] == ' '
  }

  lemma {:induction false} SkipsGap(gap: string, rest: string)
    requires Spaces(gap)
    requires rest != [] && rest[0] != ' '
    ensures SkipSpaces(gap + rest) == rest
  {
    if gap == [] {
      assert gap + rest == rest;
    } else {
      assert (gap + rest)[1..] == gap[1..] + rest;
      SkipsGap(gap[1..], rest);
    }
  }

  lemma {:induction false} RunOfPrefix(t: string, rest: string)
    requires forall i | 0 <= i < |t| :: IsNumeric(t[i])
    requires Delimited(rest)
    ensures NumericRun(t + rest) == |t|
  {
    if t == [] {
      assert t + rest == rest;
    } else {
      assert (t + rest)[1..] == t[1..] + rest;
      RunOfPrefix(t[1..], rest);
    }
  }

  lemma NumberParses(t: string, rest: string)
    requires t != [] && forall i | 0 <= i < |t| :: IsNumeric(t[i])
    requires IsDigit(t[0]) || t[0] == '-'
    requires Delimited(rest)
    ensures ParseValue(t + rest) == ParseNumber(t + rest)
    ensures (t + rest)[..NumericRun(t + rest)] == t && (t + rest)[NumericRun(t + rest)..] == rest
  {
    hide IsFloatText;
    RunOfPrefix(t, rest);
    var s := t + rest;
    assert s[0] == t[0];
    assert s[..|t|] == t && s[|t|..] == rest;
  }

  lemma IntParses(n: int, rest: string)
    requires Delimited(rest)
    ensures ParseValue(IntText(n) + rest) == Some((Int(n), rest))
  {
    hide IsFloatText;
    var t := IntText(n);
    NumberParses(t, rest);
    assert !IsFloatText(t);
    NatRoundTrip(if n < 0 then -n else n);
    if n < 0 {
      assert t[1..] == NatText(-n);
    }
  }

  lemma PrintStarts(v: Json, gap: string)
    requires AllFinite(v)
    ensures Print(v, gap) != []
    ensures Print(v, gap)[0] != ' ' && Print(v, gap)[0] != ']'
  {
    match v
    case Float(x) => assert IsFloatText(x.repr);
    case _ =>
  }

  lemma LiteralParses(v: Json, gap: string, rest: string)
    requires v.Null? || v.Bool?
    ensures ParseValue(Print(v, gap) + rest) == Some((v, rest))
  {
    Front(Print(v, gap), rest);
  }

  lemma StringParses(t: string, gap: string, rest: string)
    ensures ParseValue(Print(Str(t), gap) + rest) == Some((Str(t), rest))
  {
    var s := Quote(t) + rest;
    QuotedSplit(t, rest);
    EscapedStringParses(t, rest);
  }

  lemma EmptyParses(v: Json, gap: string, rest: string)
    requires v == Arr([]) || v == Obj([])
    ensures ParseValue(Print(v, gap) + rest) == Some((v, rest))
  {
    Front(Print(v, gap), rest);
  }

  /** Which branch the parser takes on an opening bracket or brace. */
  lemma OpenDispatch(s: string)
    requires |s| > 1 && (s[0] == '[' ==> s[1] != ']') && (s[0] == '{' ==> s[1] != '}')
    ensures s[0] == '[' && ParseItems(s[1..]).Some? ==>
              ParseValue(s) == Some((Arr(ParseItems(s[1..]).value.0), ParseItems(s[1..]).value.1))
    ensures s[0] == '{' && ParseMembers(s[1..]).Some? ==>
              ParseValue(s) == Some((Obj(ParseMembers(s[1..]).value.0), ParseMembers(s[1..]).value.1))
  {
  }

  /** The parser inverts the printer on every finite value, whatever
      delimiter follows and whatever the spacing. */
  lemma {:induction false} PrintParses(v: Json, gap: string, rest: string)
    requires AllFinite(v) && Spaces(gap) && Delimited(rest)
    ensures ParseValue(Print(v, gap) + rest) == Some((v, rest))
    decreases v, 1
  {
    hide ParseItems, ParseMembers, IsFloatText, IsFixed, IsScientific;
    match v
    case Null => LiteralParses(v, gap, rest);
    case Bool(_) => LiteralParses(v, gap, rest);
    case Int(n) => IntParses(n, rest);
    case Float(x) => NumberParses(x.repr, rest);
    case Str(t) => StringParses(t, gap, rest);
    case Arr(items) => ArrayParses(items, gap, rest);
    case Obj(members) => ObjectParses(members, gap, rest);
  }

  lemma {:induction false} ArrayParses(items: seq<Json>, gap: string, rest: string)
    requires Spaces(gap)
    requires forall i | 0 <= i < |items| :: AllFinite(items[i])
    ensures ParseValue(Print(Arr(items), gap) + rest) == Some((Arr(items), rest))
    decreases items, 1
  {
    hide ParseItems, ParseValue, IsFloatText;
    if items == [] {
      EmptyParses(Arr([]), gap, rest);
    } else {
      ItemsParse(items, gap, rest);
      var body := PrintItems(items, gap) + "]" + rest;
      var s := Print(Arr(items), gap) + rest;
      assert s == "[" + body;
      Front("[", body);
      PrintStarts(items[0], gap);
      assert body[0] == Print(items[0], gap)[0];
      OpenDispatch(s);
    }
  }

  lemma {:induction false} ObjectParses(members: seq<Member>, gap: string, rest: string)
    requires Spaces(gap)
    requires forall i | 0 <= i < |members| :: AllFinite(members[i].value)
    ensures ParseValue(Print(Obj(members), gap) + rest) == Some((Obj(members), rest))
    decreases members, 1
  {
    hide ParseMembers, ParseValue, IsFloatText;
    if members == [] {
      EmptyParses(Obj([]), gap, rest);
    } else {
      MembersParse(members, gap, rest);
      var body := PrintMembers(members, gap) + "}" + rest;
      var s := Print(Obj(members), gap) + rest;
      var inner := PrintMembers(members, gap) + "}";
      Assoc("{", inner, rest);
      Assoc("{", PrintMembers(members, gap), "}");
      Front("{", body);
      MembersStart(members, gap);
      OpenDispatch(s);
    }
  }

  lemma ItemsSplit(items: seq<Json>, gap: string, rest: string)
    requires |items| > 1 && AllFinite(items[1])
    ensures PrintItems(items, gap) + "]" + rest ==
            Print(items[0], gap) + ("," + gap + (PrintItems(items[1..], gap) + "]" + rest))
    ensures PrintItems(items[1..], gap) != [] && PrintItems(items[1..], gap)[0] != ' '
  {
    var first, more := Print(items[0], gap), PrintItems(items[1..], gap);
    PrintStarts(items[1], gap);
    Assoc(first + "," + gap, more, "]");
    Assoc(first + "," + gap, more + "]", rest);
    Assoc(first + ",", gap, more + "]" + rest);
    Assoc(first, ",", gap + (more + "]" + rest));
    Assoc(",", gap, more + "]" + rest);
    Assoc(first + "," + gap, more, "]" + rest);
  }

  lemma ItemsStep(s: string, v: Json, gap: string, more: string)
    requires ParseValue(s) == Some((v, "," + gap + more))
    requires SkipSpaces(gap + more) == more
    ensures ParseItems(s) ==
            (match ParseItems(more) case None => None case Some((vs, end)) => Some(([v] + vs, end)))
  {
    hide ParseValue, SkipSpaces;
    assert ("," + gap + more)[1..] == gap + more;
  }

  lemma {:induction false} ItemsParse(items: seq<Json>, gap: string, rest: string)
    requires items != [] && Spaces(gap)
    requires forall i | 0 <= i < |items| :: AllFinite(items[i])
    ensures ParseItems(PrintItems(items, gap) + "]" + rest) == Some((items, rest))
    decreases items, 0
  {
    hide Print, ParseValue, SkipSpaces, IsFloatText;
    var s := PrintItems(items, gap) + "]" + rest;
    if |items| == 1 {
      assert s == Print(items[0], gap) + ("]" + rest);
      PrintParses(items[0], gap, "]" + rest);
      assert ("]" + rest)[1..] == rest;
      assert items == [items[0]];
    } else {
      var more := PrintItems(items[1..], gap) + "]" + rest;
      ItemsSplit(items, gap, rest);
      PrintParses(items[0], gap, "," + gap + more);
      SkipsGap(gap, more);
      ItemsStep(s, items[0], gap, more);
      ItemsParse(items[1..], gap, rest);
      assert items == [items[0]] + items[1..];
    }
  }

  lemma MemberStep(s: string, key: string, gap: string, value: string)
    requires s != [] && s[0] == '\"' && ParseString(s[1..]) == Some((key, ":" + (gap + value)))
    requires SkipSpaces(gap + value) == value
    ensures ParseMember(s) ==
            (match ParseValue(value) case None => None case Some((v, r)) => Some((Member(key, v), r)))
  {
    Front(":", gap + value);
  }

  lemma MemberShape(m: Member, gap: string, rest: string)
    ensures PrintMember(m, gap) + rest == Quote(m.key) + (":" + (gap + (Print(m.value, gap) + rest)))
  {
    var value := Print(m.value, gap);
    Assoc(Quote(m.key) + ":" + gap, value, rest);
    Assoc(Quote(m.key) + ":", gap, value + rest);
    Assoc(Quote(m.key), ":", gap + (value + rest));
  }

  lemma {:induction false} MemberParses(m: Member, gap: string, rest: string)
    requires AllFinite(m.value) && Spaces(gap) && Delimited(rest)
    ensures ParseMember(PrintMember(m, gap) + rest) == Some((m, rest))
    decreases m, 2
  {
    var value := Print(m.value, gap) + rest;
    var after := ":" + (gap + value);
    MemberShape(m, gap, rest);
    QuotedSplit(m.key, after);
    EscapedStringParses(m.key, after);
    PrintStarts(m.value, gap);
    Front(Print(m.value, gap), rest);
    SkipsGap(gap, value);
    MemberStep(Quote(m.key) + after, m.key, gap, value);
    PrintParses(m.value, gap, rest);
  }

  lemma MembersStart(members: seq<Member>, gap: string)
    requires members != []
    ensures PrintMembers(members, gap) != [] && PrintMembers(members, gap)[0] == '\"'
  {
    QuotedSplit(members[0].key, []);
    assert PrintMember(members[0], gap)[0] == '\"';
  }

  lemma MembersSplit(members: seq<Member>, gap: string, rest: string)
    requires |members| > 1
    ensures PrintMembers(members, gap) + "}" + rest ==
            PrintMember(members[0], gap) + ("," + gap + (PrintMembers(members[1..], gap) + "}" + rest))
  {
    var first, more := PrintMember(members[0], gap), PrintMembers(members[1..], gap);
    Assoc(first + "," + gap, more, "}");
    Assoc(first + "," + gap, more + "}", rest);
    Assoc(first + ",", gap, more + "}" + rest);
    Assoc(first, ",", gap + (more + "}" + rest));
    Assoc(",", gap, more + "}" + rest);
    Assoc(first + "," + gap, more, "}" + rest);
  }

  lemma MembersStep(s: string, m: Member, gap: string, more: string)
    requires ParseMember(s) == Some((m, "," + gap + more))
    requires SkipSpaces(gap + more) == more
    ensures ParseMembers(s) ==
            (match ParseMembers(more) case None => None case Some((ms, end)) => Some(([m] + ms, end)))
  {
    hide ParseMember, SkipSpaces;
    assert ("," + gap + more)[1..] == gap + more;
  }

  lemma {:induction false} MembersParse(members: seq<Member>, gap: string, rest: string)
    requires members != [] && Spaces(gap)
    requires forall i | 0 <= i < |members| :: AllFinite(members[i].value)
    ensures ParseMembers(PrintMembers(members, gap) + "}" + rest) == Some((members, rest))
    decreases members, 0
  {
    hide PrintMember, ParseMember, SkipSpaces, IsFloatText;
    var s := PrintMembers(members, gap) + "}" + rest;
    if |members| == 1 {
      assert s == PrintMember(members[0], gap) + ("}" + rest);
      MemberParses(members[0], gap, "}" + rest);
      assert ("}" + rest)[1..] == rest;
      assert members == [members[0]];
    } else {
      var more := PrintMembers(members[1..], gap) + "}" + rest;
      MembersSplit(members, gap, rest);
      MembersStart(members[1..], gap);
      MemberParses(members[0], gap, "," + gap + more);
      SkipsGap(gap, more);
      MembersStep(s, members[0], gap, more);
      MembersParse(members[1..], gap, rest);
      assert members == [members[0]] + members[1..];
    }
  }
}
