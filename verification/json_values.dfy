/** JSON values as Python's json module builds them. A dict is the sequence of
    its members in insertion order. */
module JsonValues {
  import opened Wrappers

  datatype Member = Member(key: string, value: Json)

  datatype Json =
    | Null
    | Bool(b: bool)
    | Int(n: int)
    | Float(x: Number)
    | Str(s: string)
    | Arr(items: seq<Json>)
    | Obj(members: seq<Member>)

  // A finite float is identified with its repr, which round-trips.
  datatype Number = Finite(repr: FloatText) | NaN | Infinity(negative: bool)

  type FloatText = t: string | IsFloatText(t) witness ZeroText()

  function ZeroText(): (t: string)
    ensures IsFloatText(t)
  {
    assert "0.0"[..1] == "0" && "0.0"[2..] == "0";
    assert "0.0"[1] == '.';
    assert IsFixed("0.0");
    "0.0"
  }

  predicate IsDigit(c: char) {
    '0' <= c <= '9'
  }

  predicate IsNumeric(c: char) {
    IsDigit(c) || c == '-' || c == '+' || c == '.' || c == 'e'
  }

  predicate IsDigits(t: string) {
    t != [] && forall i | 0 <= i < |t| :: IsDigit(t[i])
  }

  /** Digits, a point and digits, with no zero to spare at either end. */
  predicate IsFixed(t: string) {
    exists k | 0 < k < |t| ::
      && t[k] == '.'
      && IsDigits(t[..k]) && (k == 1 || t[0] != '0')
      && IsDigits(t[k + 1..]) && (|t| == k + 2 || t[|t| - 1] != '0')
  }

  /** One digit, which is not zero, and more after a point if there are more. */
  predicate IsMantissa(t: string) {
    && t != [] && IsDigit(t[0]) && t[0] != '0'
    && (|t| == 1 || (|t| > 2 && t[1] == '.' && IsDigits(t[2..]) && t[|t| - 1] != '0'))
  }

  /** A mantissa and a signed exponent of two digits at least. */
  predicate IsScientific(t: string) {
    exists k | 0 < k < |t| - 3 ::
      && t[k] == 'e' && IsMantissa(t[..k])
      && (t[k + 1] == '+' || t[k + 1] == '-')
      && IsDigits(t[k + 2..]) && (|t| == k + 4 || t[k + 2] != '0')
  }

  /** The forms repr() gives a finite float. It always has a point or an
      exponent, which the text of an int never has. */
  predicate IsFloatText(t: string): (b: bool)
    ensures b ==> t != [] && (IsDigit(t[0]) || t[0] == '-')
    ensures b ==> forall i | 0 <= i < |t| :: IsNumeric(t[i])
    ensures b ==> '.' in t || 'e' in t
  {
    var u := if t != [] && t[0] == '-' then t[1..] else t;
    FloatChars(u);
    IsFixed(u) || IsScientific(u)
  }

  lemma FloatChars(t: string)
    ensures IsFixed(t) || IsScientific(t) ==> LooksFloat(t)
  {
    hide LooksFloat;
    if IsFixed(t) {
      FixedChars(t);
    }
    if IsScientific(t) {
      ScientificChars(t);
    }
  }

  predicate LooksFloat(t: string) {
    t != [] && IsDigit(t[0]) && AllNumeric(t) && ('.' in t || 'e' in t)
  }

  predicate AllNumeric(t: string) {
    forall i | 0 <= i < |t| :: IsNumeric(t[i])
  }

  lemma NumericJoin(a: string, c: char, b: string)
    requires AllNumeric(a) && IsNumeric(c) && AllNumeric(b)
    ensures AllNumeric(a + [c] + b)
  {
  }

  lemma DigitsNumeric(t: string)
    requires IsDigits(t)
    ensures AllNumeric(t) && IsDigit(t[0])
  {
  }

  lemma CutAt(t: string, k: nat)
    requires k < |t|
    ensures t == t[..k] + [t[k]] + t[k + 1..]
    ensures k > 0 ==> t[0] == t[..k][0]
  {
  }

  lemma FixedChars(t: string)
    requires IsFixed(t)
    ensures LooksFloat(t)
  {
    hide AllNumeric, IsDigits;
    var k :| 0 < k < |t| && t[k] == '.' && IsDigits(t[..k]) && IsDigits(t[k + 1..]);
    DigitsNumeric(t[..k]);
    DigitsNumeric(t[k + 1..]);
    NumericJoin(t[..k], t[k], t[k + 1..]);
    CutAt(t, k);
  }

  lemma MantissaChars(t: string)
    requires IsMantissa(t)
    ensures AllNumeric(t)
  {
    if |t| > 1 {
      hide AllNumeric, IsDigits;
      DigitsNumeric(t[2..]);
      assert AllNumeric([t[0]]) by { OneNumeric(t[0]); }
      NumericJoin([t[0]], t[1], t[2..]);
      assert t == [t[0]] + [t[1]] + t[2..];
    }
  }

  lemma OneNumeric(c: char)
    requires IsNumeric(c)
    ensures AllNumeric([c])
  {
  }

  lemma ScientificChars(t: string)
    requires IsScientific(t)
    ensures LooksFloat(t)
  {
    hide AllNumeric, IsDigits;
    var k :| 0 < k < |t| - 3 && t[k] == 'e' && IsMantissa(t[..k]) && (t[k + 1] == '+' || t[k + 1] == '-')
      && IsDigits(t[k + 2..]);
    MantissaChars(t[..k]);
    DigitsNumeric(t[k + 2..]);
    OneNumeric(t[k]);
    var exponent := t[k + 1..];
    assert exponent[0] == t[k + 1] && exponent[1..] == t[k + 2..];
    NumericJoin([t[k]], t[k + 1], t[k + 2..]);
    assert t[k..] == [t[k]] + [t[k + 1]] + t[k + 2..];
    CutAt(t, k);
    assert t[k + 1..] == t[k..][1..];
    TailNumeric(t[k..]);
    NumericJoin(t[..k], t[k], t[k + 1..]);
  }

  lemma TailNumeric(t: string)
    requires AllNumeric(t) && t != []
    ensures AllNumeric(t[1..])
  {
  }

  /** The keys of every object are distinct, as in any Python dict. */
  predicate WellFormed(v: Json) {
    match v
    case Arr(items) => forall i | 0 <= i < |items| :: WellFormed(items[i])
    case Obj(members) =>
      && DistinctKeys(members)
      && forall i | 0 <= i < |members| :: WellFormed(members[i].value)
    case _ => true
  }

  predicate DistinctKeys(ms: seq<Member>) {
    forall i, j | 0 <= i < j < |ms| :: ms[i].key != ms[j].key
  }

  type Value = v: Json | WellFormed(v) witness Null

  /** No NaN and no infinity anywhere. */
  predicate AllFinite(v: Json) {
    match v
    case Float(x) => x.Finite?
    case Arr(items) => forall i | 0 <= i < |items| :: AllFinite(items[i])
    case Obj(members) => forall i | 0 <= i < |members| :: AllFinite(members[i].value)
    case _ => true
  }

  /** The same value, with objects read as unordered maps. */
  ghost predicate Same(v: Json, w: Json)
    decreases v, 1
  {
    match v
    case Arr(items) =>
      && w.Arr?
      && |items| == |w.items|
      && forall i | 0 <= i < |items| :: Same(items[i], w.items[i])
    case Obj(members) =>
      && w.Obj?
      && |members| == |w.members|
      && forall i | 0 <= i < |members| :: HasSame(members[i], w.members)
    case _ => v == w
  }

  ghost predicate HasSame(m: Member, ms: seq<Member>)
    decreases m, 0
  {
    exists j | 0 <= j < |ms| :: m.key == ms[j].key && Same(m.value, ms[j].value)
  }

  /** dict.get(key): what the object holds under `key`, if anything. */
  function Lookup(ms: seq<Member>, key: string): Option<Json> {
    if ms == [] then None
    else if ms[0].key == key then Some(ms[0].value)
    else Lookup(ms[1..], key)
  }

  /** The object without `key`. */
  function Without(ms: seq<Member>, key: string): seq<Member> {
    if ms == [] then []
    else if ms[0].key == key then Without(ms[1..], key)
    else [ms[0]] + Without(ms[1..], key)
  }

  lemma {:induction false} LookupFinds(ms: seq<Member>, key: string)
    ensures Lookup(ms, key).Some? <==> exists i | 0 <= i < |ms| :: ms[i].key == key
    ensures Lookup(ms, key).Some? ==> Member(key, Lookup(ms, key).value) in ms
  {
    if ms != [] && ms[0].key != key {
      LookupFinds(ms[1..], key);
      assert forall i | 0 <= i < |ms[1..]| :: ms[1..][i] == ms[i + 1];
    } else if ms != [] {
      assert ms[0] == Member(key, ms[0].value);
    }
  }

  /** With distinct keys, a member is what its key looks up. */
  lemma LookupIs(ms: seq<Member>, m: Member)
    requires DistinctKeys(ms) && m in ms
    ensures Lookup(ms, m.key) == Some(m.value)
  {
    var i :| 0 <= i < |ms| && ms[i] == m;
    LookupFinds(ms, m.key);
  }

  lemma {:induction false} WithoutKeeps(ms: seq<Member>, key: string)
    ensures forall m :: m in Without(ms, key) <==> m in ms && m.key != key
    ensures DistinctKeys(ms) ==> DistinctKeys(Without(ms, key))
  {
    if ms != [] {
      WithoutKeeps(ms[1..], key);
      assert ms == [ms[0]] + ms[1..];
      if DistinctKeys(ms) && ms[0].key != key {
        var rest := Without(ms[1..], key);
        forall i | 0 <= i < |rest| ensures rest[i].key != ms[0].key {
          assert rest[i] in ms[1..];
        }
      }
    }
  }
}
